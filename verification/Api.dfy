/** The write handlers: bodies streamed chunk by chunk through a file handle. */
module Api {
  import opened ByteStrings
  import opened LargeObjects
  import opened Tables
  import opened Polls
  import opened BlobHandles
  import opened FileHandles
  import opened Service

  datatype CheckResult = Checked(verdict: Verdict) | IoFailed

  lemma ChunkDiffers(content: Bytes, at: nat, body: Body, i: nat, tx1: Option<Transaction>, r: Result<Bytes>)
    requires i < |body.chunks| && r != Ok(body.chunks[i])
    requires ReadExactGives(Some(Transaction(OpenObject(content, at), false)), |body.chunks[i]|, tx1, r)
    ensures r == Err(UnexpectedEof) ==> VerdictFrom(content, at, body, i) == LengthMismatch
    ensures r.Ok? ==> VerdictFrom(content, at, body, i) == DataMismatch
  {
    VerdictStep(content, at, body, i, at + |body.chunks[i]|, i + 1);
    assert r.Ok? ==> r.value == Tail(content, at)[..|body.chunks[i]|];
  }

  lemma ChunkMatches(content: Bytes, at: nat, body: Body, i: nat, tx1: Option<Transaction>, next: nat, j: nat)
    requires i < |body.chunks| && next == at + |body.chunks[i]| && j == i + 1
    requires ReadExactGives(Some(Transaction(OpenObject(content, at), false)), |body.chunks[i]|,
                            tx1, Ok(body.chunks[i]))
    ensures VerdictFrom(content, at, body, i) == VerdictFrom(content, next, body, j)
    ensures tx1 == Some(Transaction(OpenObject(content, next), false))
  {
    VerdictStep(content, at, body, i, next, j);
    assert body.chunks[i] == Tail(content, at)[..|body.chunks[i]|];
  }

  /** `check_range_matches`: reads the file along with the stream and stops at the first
      chunk that differs. */
  method CheckRangeMatches(body: Body, start: u64, file: BlobHandle) returns (r: CheckResult)
    requires file.state.None?
    modifies file`inner, file`state, file`ticks, file`position, file`seeks, file.db`blobs
    ensures file.db.State() == old(file.db.State())
    ensures file.seeks == old(file.seeks) + [Start(start)]
    ensures r.Checked? ==>
              && old(Usable(file.inner)) && start <= I64_MAX
              && r.verdict == RangeVerdict(Tail(old(file.inner).value.blob.content, start), body)
    ensures AllClean(old(file.ticks)) && old(Usable(file.inner) && file.Durable().Some?) && start <= I64_MAX ==>
              r.Checked?
  {
    ghost var tx0 := file.inner;
    var sought := file.Seek(Start(start));
    if sought.Err? {
      return IoFailed;
    }
    ghost var content, at: nat := tx0.value.blob.content, start;
    ghost var due := RangeVerdict(Tail(content, start), body);
    var i := 0;
    VerdictFromStart(content, start, body);
    while i < |body.chunks|
      invariant 0 <= i <= |body.chunks|
      invariant file.state.None? && file.db.State() == old(file.db.State())
      invariant file.inner == Some(Transaction(OpenObject(content, at), false))
      invariant due == VerdictFrom(content, at, body, i)
      invariant file.seeks == old(file.seeks) + [Start(start)]
      invariant AllClean(old(file.ticks)) ==> AllClean(file.ticks)
    {
      var data := body.chunks[i];
      var buf := file.ReadExact(|data|);
      if buf.Err? {
        ChunkDiffers(content, at, body, i, file.inner, buf);
        return if buf.error == UnexpectedEof then Checked(LengthMismatch) else IoFailed;
      }
      if buf.value != data {
        ChunkDiffers(content, at, body, i, file.inner, buf);
        return Checked(DataMismatch);
      }
      ghost var next: nat := at + |data|;
      var j := i + 1;
      ChunkMatches(content, at, body, i, file.inner, next, j);
      at, i := next, j;
    }
    VerdictAtEnd(content, at, body);
    if body.broken {
      return Checked(StreamFailed);
    }
    var next := file.ReadExact(1);
    if next.Ok? {
      r := Checked(LengthMismatch);
    } else if next.error == UnexpectedEof {
      r := Checked(Matches);
    } else {
      r := IoFailed;
    }
  }

  /** The seeks started since `before` go to the end, or to an offset within the `size`
      bytes of the object, which the cast to `i64` does not change. */
  ghost predicate SeeksWithin(before: seq<SeekFrom>, now: seq<SeekFrom>, size: nat) {
    && before <= now
    && forall i :: |before| <= i < |now| ==>
         now[i] == End(0) || (now[i].Start? && now[i].n <= size && AsI64(now[i].n) == now[i].n)
  }

  /** The upload loop of both handlers: appends chunk after chunk, then commits; true when
      the commit was acknowledged. */
  method Upload(file: FileHandle, body: Body) returns (ok: bool)
    requires file.blob.state.None? && Usable(file.blob.inner) && |file.blob.inner.value.blob.content| <= I64_MAX
    modifies file.blob`inner, file.blob`state, file.blob`ticks, file.blob`position, file.blob`seeks, file.blob.db`blobs
    ensures var content := old(file.blob.inner).value.blob.content + body.Whole();
            var committed := SetBlob(old(file.blob.db.State()), file.blob.oid, Some(content));
            && (ok ==> !body.broken && |content| <= I64_MAX && old(file.blob.Durable()).Some?
                       && file.blob.db.State() == committed)
            && (file.blob.db.State() == old(file.blob.db.State()) ||
                (!body.broken && |content| <= I64_MAX && file.blob.db.State() == committed))
            && (AllAnswered(old(file.blob.ticks)) && !ok ==> file.blob.db.State() == old(file.blob.db.State()))
            && (AllClean(old(file.blob.ticks)) && old(file.blob.Durable()).Some? && !body.broken ==>
                  |content| <= I64_MAX ==> ok)
    ensures SeeksWithin(old(file.blob.seeks), file.blob.seeks, 0)
  {
    ghost var base := old(file.blob.inner).value.blob.content;
    SetBlobSame(file.blob.db.State(), file.blob.oid);
    var i := 0;
    assert Flatten(body.chunks[..0]) == [];
    while i < |body.chunks|
      invariant 0 <= i <= |body.chunks|
      invariant file.blob.state.None? && file.blob.db.State() == old(file.blob.db.State())
      invariant SeeksWithin(old(file.blob.seeks), file.blob.seeks, 0)
      invariant Usable(file.blob.inner) && file.blob.inner.value.blob.content == base + Flatten(body.chunks[..i])
      invariant |base + Flatten(body.chunks[..i])| <= I64_MAX
      invariant AllClean(old(file.blob.ticks)) ==> AllClean(file.blob.ticks)
      invariant AllAnswered(old(file.blob.ticks)) ==> AllAnswered(file.blob.ticks)
    {
      FlattenTake(body.chunks, i);
      FlattenTakePrefix(body.chunks, i + 1);
      assert base + Flatten(body.chunks[..i + 1]) == base + Flatten(body.chunks[..i]) + body.chunks[i];
      var appended := file.Append(body.chunks[i]);
      if appended.Err? {
        return false;
      }
      i := i + 1;
    }
    assert body.chunks[..i] == body.chunks;
    if body.broken {
      return false;
    }
    var committed := file.Commit();
    ok := committed.Ok?;
  }

  /** The compare path of both handlers. */
  method Compare(body: Body, start: u64, file: FileHandle) returns (r: Response)
    requires file.blob.state.None? && Usable(file.blob.inner)
    modifies file.blob`inner, file.blob`state, file.blob`ticks, file.blob`position, file.blob`seeks, file.blob.db`blobs
    ensures file.blob.db.State() == old(file.blob.db.State())
    ensures file.blob.seeks == old(file.blob.seeks) + [Start(start)]
    ensures r == Internal ||
            (start <= I64_MAX && r == Judged(RangeVerdict(Tail(old(file.blob.inner).value.blob.content, start), body)))
    ensures AllClean(old(file.blob.ticks)) && old(file.blob.Durable().Some?) && start <= I64_MAX ==>
              r == Judged(RangeVerdict(Tail(old(file.blob.inner).value.blob.content, start), body))
  {
    var checked := CheckRangeMatches(body, start, file.blob);
    r := if checked.Checked? then Judged(checked.verdict) else Internal;
  }

  /** What PUT does when the name is taken. */
  method CompareExisting(db: Database, b: string, f: string, body: Body, env: Env) returns (r: Response)
    requires Consistent(db.State()) && HasFile(db.State(), b, f)
    modifies db
    ensures db.State() == old(db.State())
    ensures r == Internal || r == Judged(RangeVerdict(Content(old(db.State()), b, f), body))
    ensures env.Calm() ==> r == Judged(RangeVerdict(Content(old(db.State()), b, f), body))
    ensures r != Internal ==> env.select.Works? && env.open.Works?
  {
    var existing := OpenFile(db, b, f, env);
    if !existing.Opened? {
      return Internal;
    }
    SameFile(db.State(), b, f, existing.file.id);
    assert Tail(db.blobs[existing.file.blob.oid], 0) == db.blobs[existing.file.blob.oid];
    r := Compare(body, 0, existing.file);
  }

  /** PUT `/v0/write/:filename?bucketName=:bucketName` */
  method PutWrite(db: Database, now: int, b: string, f: string, body: Body, env: Env) returns (r: Response)
    requires Consistent(db.State())
    modifies db
    ensures Consistent(db.State())
    // A response other than Internal is the one the request deserves, and so is the store.
    ensures !r.Internal? ==> (db.State(), r) == Put(old(db.State()), now, b, f, body)
    ensures env.Calm() ==> (db.State(), r) == Put(old(db.State()), now, b, f, body)
    ensures r == BucketDoesNotExist <==> env.bucket.Works? && b !in old(db.buckets)
    ensures r != FileDoesNotExist
    // No query a response relies on has failed.
    ensures r in {Done, Conflict} ==> env.bucket.Works? && env.insert.Works? && env.open.Works?
    ensures r in {Done, Conflict} && old(HasFile(db.State(), b, f)) ==> env.select.Works?
    // All or nothing, whatever fails: the store is as before, or has the new empty file, or
    // has all the body (and that only unacknowledged if an answer was lost).
    ensures || db.State() == old(db.State())
            || db.State() == Claimed(old(db.State()), now, b, f)
            || db.State() == Put(old(db.State()), now, b, f, body).0
    ensures AllAnswered(env.ticks) && !r.Done? ==>
              db.State() == old(db.State()) || db.State() == Claimed(old(db.State()), now, b, f)
    // The name is taken as soon as the insert has run.
    ensures env.bucket.Works? && b in old(db.buckets) && !env.insert.Fails? ==> HasFile(db.State(), b, f)
  {
    PutKeepsConsistent(db.State(), now, b, f, body);
    if !env.bucket.Works? {
      return Internal;
    }
    if b !in db.buckets {
      return BucketDoesNotExist;
    }
    var created := CreateFile(db, b, db.buckets[b], f, now, env);
    match created {
      case CreateFailed =>
        r := Internal;
      case Created(file) =>
        assert db.blobs[file.blob.oid] == [];
        assert [] + body.Whole() == body.Whole();
        var ok := Upload(file, body);
        assert db.files[file.id].Named(b, f);
        r := if ok then Done else Internal;
      case FileExists =>
        r := CompareExisting(db, b, f, body, env);
    }
  }

  /** The append handler once the file is open: its size decides between the two paths. */
  method AppendOpened(rule: AppendRule, file: FileHandle, offset: u64, body: Body) returns (r: Response)
    requires file.blob.state.None? && Usable(file.blob.inner) && |file.blob.inner.value.blob.content| <= I64_MAX
    requires file.blob.Durable() == Some(file.blob.inner.value.blob.content)
    modifies file.blob`inner, file.blob`state, file.blob`ticks, file.blob`position, file.blob`seeks, file.blob.db`blobs
    ensures var (content, due) := AppendTo(rule, old(file.blob.inner).value.blob.content, offset, body);
            var after := SetBlob(old(file.blob.db.State()), file.blob.oid, Some(content));
            && (r == Internal || r == due)
            && (file.blob.db.State() == old(file.blob.db.State()) || file.blob.db.State() == after)
            && (r != Internal || AllClean(old(file.blob.ticks)) ==> r == due && file.blob.db.State() == after)
            && (AllAnswered(old(file.blob.ticks)) && !r.Done? ==> file.blob.db.State() == old(file.blob.db.State()))
    // Under the shipped rule no offset a client can send makes a seek wrap.
    ensures rule.Shipped? ==>
              SeeksWithin(old(file.blob.seeks), file.blob.seeks, |old(file.blob.inner).value.blob.content|)
  {
    SetBlobSame(file.blob.db.State(), file.blob.oid);
    var size := file.blob.Seek(End(0));
    if size.Err? {
      return Internal;
    }
    if !rule.Appends(offset, size.value) {
      r := Compare(body, offset, file);
    } else {
      var ok := Upload(file, body);
      r := if ok then Done else Internal;
    }
  }

  /** POST `/v0/append/:filename?bucketName=:bucketName&writeOffset=:writeOffset` */
  method PostAppend(rule: AppendRule, db: Database, b: string, f: string, offset: u64, body: Body, env: Env)
    returns (r: Response)
    requires Consistent(db.State())
    modifies db
    ensures Consistent(db.State())
    ensures !r.Internal? ==> (db.State(), r) == Append(rule, old(db.State()), b, f, offset, body)
    ensures env.Calm() ==> (db.State(), r) == Append(rule, old(db.State()), b, f, offset, body)
    ensures r == BucketDoesNotExist <==> env.bucket.Works? && b !in old(db.buckets)
    ensures r == FileDoesNotExist <==>
              env.bucket.Works? && b in old(db.buckets) && env.select.Works? && !HasFile(old(db.State()), b, f)
    ensures r in {Done, Conflict} ==> env.bucket.Works? && env.select.Works? && env.open.Works?
    ensures db.State() == old(db.State()) || db.State() == Append(rule, old(db.State()), b, f, offset, body).0
    ensures AllAnswered(env.ticks) && !r.Done? ==> db.State() == old(db.State())
  {
    AppendKeepsConsistent(rule, db.State(), b, f, offset, body);
    if !env.bucket.Works? {
      return Internal;
    }
    if b !in db.buckets {
      return BucketDoesNotExist;
    }
    var existing := OpenFile(db, b, f, env);
    match existing {
      case OpenFailed => r := Internal;
      case DoesNotExist => r := FileDoesNotExist;
      case Opened(file) =>
        SameFile(db.State(), b, f, file.id);
        SetBlobSame(db.State(), file.blob.oid);
        r := AppendOpened(rule, file, offset, body);
    }
  }
}
