/** One request run to its end with no other step in between: the transition system then
    does exactly what the handlers' specification says. */
module Alone {
  import opened ByteStrings
  import opened LargeObjects
  import opened Tables
  import opened FileHandles
  import opened Service
  import opened Interleaving

  function Left(proc: Proc): nat {
    if proc.Writing? && proc.sent <= |proc.body.chunks| then |proc.body.chunks| - proc.sent
    else if proc.Comparing? && proc.matched <= |proc.body.chunks| then |proc.body.chunks| - proc.matched
    else 0
  }

  /** The rest of a request that has its handle open and a body to write or compare. */
  ghost function RunOut(w: World, p: Pid): (w': World)
    requires Inv(w) && p in w.procs
    ensures Inv(w')
    decreases Left(w.procs[p])
  {
    var proc := w.procs[p];
    if !proc.Writing? && !proc.Comparing? then w
    else if Left(proc) > 0 then
      NextChunkKeepsInv(w, p);
      RunOut(ChunkDone(w, p), p)
    else
      assert ProcOk(w.db, proc);
      EndKeepsInv(w, p, true);
      Ended(w, p, true)
  }

  /** The state in which a writing request ends. */
  ghost function Written(w: World, p: Pid, proc: Proc): World
    requires Inv(w) && proc.Writing? && proc.oid in w.db.blobs
  {
    if CannotStore(proc.body, |proc.base|) then Set(w, p, Finished(Internal))
    else
      Set(w.(db := SetBlob(w.db, proc.oid, Some(proc.base + proc.body.Whole())),
             log := w.log[proc.oid := w.log[proc.oid] + [proc.body.Whole()]]),
          p, Finished(Done))
  }

  lemma RunOutChunk(w: World, p: Pid)
    requires Inv(w) && p in w.procs && Left(w.procs[p]) > 0 && w.procs[p].oid in w.db.blobs
    ensures Inv(Set(w, p, Chunk(w.procs[p]))) && RunOut(w, p) == RunOut(Set(w, p, Chunk(w.procs[p])), p)
  {
    NextChunkKeepsInv(w, p);
    assert ChunkDone(w, p) == Set(w, p, Chunk(w.procs[p]));
  }

  lemma UpdateTwice(procs: map<Pid, Proc>, p: Pid, one: Proc, two: Proc)
    ensures procs[p := one][p := two] == procs[p := two]
  {
  }

  lemma SetTwice(w: World, p: Pid, one: Proc, two: Proc)
    ensures Set(Set(w, p, one), p, two) == Set(w, p, two)
  {
    UpdateTwice(w.procs, p, one, two);
  }

  lemma {:induction false} WritingRunsOut(w: World, p: Pid)
    requires Inv(w) && p in w.procs && w.procs[p].Writing? && w.procs[p].oid in w.db.blobs
    ensures RunOut(w, p) == Written(w, p, w.procs[p])
    decreases Left(w.procs[p])
  {
    var proc := w.procs[p];
    assert ProcOk(w.db, proc);
    var chunks := proc.body.chunks;
    if Left(proc) > 0 {
      var next := Chunk(proc);
      RunOutChunk(w, p);
      FlattenTake(chunks, proc.sent);
      FlattenTakePrefix(chunks, proc.sent + 1);
      if next.Writing? {
        WritingRunsOut(Set(w, p, next), p);
        SetTwice(w, p, next, Finished(Done));
        SetTwice(w, p, next, Finished(Internal));
      } else {
        assert |proc.base + proc.body.Whole()| > I64_MAX;
      }
    } else {
      assert chunks[..proc.sent] == chunks;
    }
  }

  /** What a comparing request still has to find out. */
  function VerdictOf(proc: Proc): Verdict
    requires proc.Comparing? && proc.matched <= |proc.body.chunks|
  {
    VerdictFrom(proc.base, proc.start + |Flatten(proc.body.chunks[..proc.matched])|, proc.body, proc.matched)
  }

  lemma ChunkVerdict(proc: Proc)
    requires proc.Comparing? && proc.matched < |proc.body.chunks|
    ensures var next := Chunk(proc);
            Judged(VerdictOf(proc)) == if next.Comparing? then Judged(VerdictOf(next)) else Conflict
  {
    var i, j := proc.matched, proc.matched + 1;
    var at, next := proc.start + |Flatten(proc.body.chunks[..i])|, proc.start + |Flatten(proc.body.chunks[..j])|;
    FlattenTake(proc.body.chunks, i);
    VerdictStep(proc.base, at, proc.body, i, next, j);
    var c, rest := proc.body.chunks[i], Tail(proc.base, at);
    if |rest| < |c| || rest[..|c|] != c {
      assert Chunk(proc) == Finished(Conflict);
    } else {
      assert Chunk(proc) == proc.(matched := j);
      assert VerdictOf(proc.(matched := j)) == VerdictFrom(proc.base, next, proc.body, j);
    }
  }

  lemma {:induction false} ComparingRunsOut(w: World, p: Pid)
    requires Inv(w) && p in w.procs && w.procs[p].Comparing? && w.procs[p].oid in w.db.blobs
    ensures w.procs[p].matched <= |w.procs[p].body.chunks|
    ensures RunOut(w, p) == Set(w, p, Finished(Judged(VerdictOf(w.procs[p]))))
    decreases Left(w.procs[p])
  {
    var proc := w.procs[p];
    assert ProcOk(w.db, proc);
    if Left(proc) > 0 {
      RunOutChunk(w, p);
      ChunkVerdict(proc);
      var next := Chunk(proc);
      if next.Comparing? {
        ComparingRunsOut(Set(w, p, next), p);
        SetTwice(w, p, next, Finished(Judged(VerdictOf(next))));
      }
    } else {
      assert proc.body.chunks[..proc.matched] == proc.body.chunks;
      VerdictAtEnd(proc.base, proc.start + |proc.body.Whole()|, proc.body);
    }
  }

  // ---------------------------------------------------------------------------
  // Whole requests
  // ---------------------------------------------------------------------------

  /** From the opening of the handle to the response. */
  ghost function OpenAndRun(w: World, p: Pid): (w': World)
    requires Inv(w) && Enabled(w, OpenHandle(p))
    ensures Inv(w')
  {
    OpenKeepsInv(w, p);
    RunOut(HandleOpened(w, p), p)
  }

  lemma OpenedWriting(w: World, p: Pid, body: Body)
    requires Inv(w) && Enabled(w, OpenHandle(p)) && w.procs[p].oid in w.db.blobs
    requires var base := w.db.blobs[w.procs[p].oid];
             FirstPhase(w.procs[p].oid, base, w.procs[p].job) == Writing(w.procs[p].oid, base, base, body, 0)
    ensures var w', oid := OpenAndRun(w, p), w.procs[p].oid;
            var content := w.db.blobs[oid];
            if CannotStore(body, |content|) then w'.db == w.db && w'.procs == w.procs[p := Finished(Internal)]
            else w'.db == SetBlob(w.db, oid, Some(content + body.Whole())) && w'.procs == w.procs[p := Finished(Done)]
  {
    OpenKeepsInv(w, p);
    WritingRunsOut(HandleOpened(w, p), p);
    SetTwice(w, p, HandleOpened(w, p).procs[p], Finished(Done));
    SetTwice(w, p, HandleOpened(w, p).procs[p], Finished(Internal));
  }

  lemma OpenedComparing(w: World, p: Pid, start: nat, body: Body)
    requires Inv(w) && Enabled(w, OpenHandle(p)) && w.procs[p].oid in w.db.blobs
    requires var base := w.db.blobs[w.procs[p].oid];
             FirstPhase(w.procs[p].oid, base, w.procs[p].job) == Comparing(w.procs[p].oid, base, start, body, 0)
    ensures var w', verdict := OpenAndRun(w, p), RangeVerdict(Tail(w.db.blobs[w.procs[p].oid], start), body);
            w'.db == w.db && w'.procs == w.procs[p := Finished(Judged(verdict))]
  {
    OpenKeepsInv(w, p);
    var proc := Comparing(w.procs[p].oid, w.db.blobs[w.procs[p].oid], start, body, 0);
    assert HandleOpened(w, p) == Set(w, p, proc);
    ComparingRunsOut(Set(w, p, proc), p);
    assert body.chunks[..0] == [];
    VerdictFromStart(proc.base, start, body);
    SetTwice(w, p, proc, Finished(Judged(VerdictOf(proc))));
  }

  lemma UploadRuns(w: World, p: Pid)
    requires Inv(w) && Enabled(w, OpenHandle(p)) && w.procs[p].oid in w.db.blobs && w.procs[p].job.Upload?
    ensures var w', oid, body := OpenAndRun(w, p), w.procs[p].oid, w.procs[p].job.upload;
            var content := w.db.blobs[oid];
            if CannotStore(body, |content|) then w'.db == w.db && w'.procs == w.procs[p := Finished(Internal)]
            else w'.db == SetBlob(w.db, oid, Some(content + body.Whole())) && w'.procs == w.procs[p := Finished(Done)]
  {
    OpenedWriting(w, p, w.procs[p].job.upload);
  }

  lemma AppendRuns(w: World, p: Pid)
    requires Inv(w) && Enabled(w, OpenHandle(p)) && w.procs[p].oid in w.db.blobs && w.procs[p].job.AppendAt?
    ensures var oid, job := w.procs[p].oid, w.procs[p].job;
            var (content, r) := AppendTo(job.rule, w.db.blobs[oid], job.offset, job.upload);
            var w' := OpenAndRun(w, p);
            w'.procs == w.procs[p := Finished(r)] && w'.db == SetBlob(w.db, oid, Some(content))
  {
    var job, base := w.procs[p].job, w.db.blobs[w.procs[p].oid];
    SetBlobSame(w.db, w.procs[p].oid);
    if job.rule.Appends(job.offset, |base|) {
      OpenedWriting(w, p, job.upload);
    } else if job.offset <= I64_MAX {
      OpenedComparing(w, p, job.offset, job.upload);
    }
  }

  lemma CompareRuns(w: World, p: Pid)
    requires Inv(w) && Enabled(w, OpenHandle(p)) && w.procs[p].oid in w.db.blobs && w.procs[p].job.CompareAll?
    ensures var w' := OpenAndRun(w, p);
            && w'.db == w.db
            && w'.procs ==
               w.procs[p := Finished(Judged(RangeVerdict(w.db.blobs[w.procs[p].oid], w.procs[p].job.upload)))]
  {
    OpenedComparing(w, p, 0, w.procs[p].job.upload);
    assert Tail(w.db.blobs[w.procs[p].oid], 0) == w.db.blobs[w.procs[p].oid];
  }

  /** Handles are only ever open on objects that exist or existed. */
  lemma NoHandleOnNew(w: World, oid: Oid)
    requires Inv(w) && w.db.nextOid <= oid
    ensures NoHandleOn(w.procs, oid)
  {
    forall q | q in w.procs && w.procs[q].Live()
      ensures w.procs[q].oid != oid
    {
      assert ProcOk(w.db, w.procs[q]);
    }
  }

  /** The file can be opened: it does not exist, or nobody has a handle on it. */
  ghost predicate Unused(w: World, b: string, f: string)
    requires Consistent(w.db)
  {
    HasFile(w.db, b, f) ==> NoHandleOn(w.procs, OidOf(w.db, b, f))
  }

  /** Both lookups of a handler find something. */
  ghost predicate Found(db: Db, b: string, f: string) {
    b in db.buckets && HasFile(db, b, f)
  }

  /** Looks the file up, then opens it and runs to the end. */
  ghost function SelectAndRun(w: World, p: Pid): (w': World)
    requires Inv(w) && Enabled(w, Select(p)) && Unused(w, w.procs[p].b, w.procs[p].f)
    ensures Inv(w')
  {
    SelectKeepsInv(w, p);
    if Found(w.db, w.procs[p].b, w.procs[p].f) then OpenAndRun(Selected(w, p), p) else Selected(w, p)
  }

  ghost function PutRun(w: World, p: Pid, now: int): (w': World)
    requires Inv(w) && Enabled(w, Insert(p, now)) && Unused(w, w.procs[p].b, w.procs[p].f)
    ensures Inv(w')
  {
    InsertKeepsInv(w, p, now);
    var w1 := Inserted(w, p, now);
    if w.procs[p].b !in w.db.buckets then w1
    else if HasFile(w.db, w.procs[p].b, w.procs[p].f) then SelectAndRun(w1, p)
    else
      NoHandleOnNew(w, w.db.nextOid);
      OpenAndRun(w1, p)
  }

  lemma InsertNew(w: World, p: Pid, now: int)
    requires Inv(w) && Enabled(w, Insert(p, now))
    requires w.procs[p].b in w.db.buckets && !HasFile(w.db, w.procs[p].b, w.procs[p].f)
    ensures var w1 := Inserted(w, p, now);
            && Inv(w1) && Enabled(w1, OpenHandle(p))
            && w1.procs == w.procs[p := Opening(w.db.nextOid, Upload(w.procs[p].body))]
            && w1.db == Claimed(w.db, now, w.procs[p].b, w.procs[p].f)
            && w.db.nextOid in w1.db.blobs && w1.db.blobs[w.db.nextOid] == []
  {
    InsertKeepsInv(w, p, now);
    NoHandleOnNew(w, w.db.nextOid);
  }

  lemma UploadIntoEmpty(w: World, p: Pid, body: Body)
    requires Inv(w) && Enabled(w, OpenHandle(p)) && w.procs[p].job == Upload(body)
    requires w.procs[p].oid in w.db.blobs && w.db.blobs[w.procs[p].oid] == []
    ensures var w', oid := OpenAndRun(w, p), w.procs[p].oid;
            if CannotStore(body, 0) then w'.db == w.db && w'.procs == w.procs[p := Finished(Internal)]
            else w'.db == SetBlob(w.db, oid, Some(body.Whole())) && w'.procs == w.procs[p := Finished(Done)]
  {
    UploadRuns(w, p);
    assert [] + body.Whole() == body.Whole();
  }

  lemma PutRunCreates(w: World, p: Pid, now: int)
    requires Inv(w) && Enabled(w, Insert(p, now))
    requires w.procs[p].b in w.db.buckets && !HasFile(w.db, w.procs[p].b, w.procs[p].f)
    ensures var w' := PutRun(w, p, now);
            var (db, r) := Put(w.db, now, w.procs[p].b, w.procs[p].f, w.procs[p].body);
            w'.db == db && w'.procs == w.procs[p := Finished(r)]
  {
    var body, w1 := w.procs[p].body, Inserted(w, p, now);
    InsertNew(w, p, now);
    assert PutRun(w, p, now) == OpenAndRun(w1, p);
    UploadIntoEmpty(w1, p, body);
    var r := if CannotStore(body, 0) then Internal else Done;
    UpdateTwice(w.procs, p, w1.procs[p], Finished(r));
  }

  lemma PutRunCompares(w: World, p: Pid, now: int)
    requires Inv(w) && Enabled(w, Insert(p, now)) && Found(w.db, w.procs[p].b, w.procs[p].f)
    requires Unused(w, w.procs[p].b, w.procs[p].f)
    ensures var w' := PutRun(w, p, now);
            var (db, r) := Put(w.db, now, w.procs[p].b, w.procs[p].f, w.procs[p].body);
            w'.db == db && w'.procs == w.procs[p := Finished(r)]
  {
    var b, f, body := w.procs[p].b, w.procs[p].f, w.procs[p].body;
    var w1 := Set(w, p, Selecting(b, f, CompareAll(body)));
    var w2 := Set(w, p, Opening(OidOf(w.db, b, f), CompareAll(body)));
    InsertKeepsInv(w, p, now);
    assert Inserted(w, p, now) == w1;
    SelectKeepsInv(w1, p);
    SetTwice(w, p, w1.procs[p], w2.procs[p]);
    assert Selected(w1, p) == w2;
    CompareRuns(w2, p);
  }

  /** A PUT run without interruption is the PUT of the specification, which the handler is
      proved to implement. */
  lemma PutRunIsPut(w: World, p: Pid, now: int)
    requires Inv(w) && Enabled(w, Insert(p, now)) && Unused(w, w.procs[p].b, w.procs[p].f)
    ensures var w' := PutRun(w, p, now);
            var (db, r) := Put(w.db, now, w.procs[p].b, w.procs[p].f, w.procs[p].body);
            w'.db == db && w'.procs == w.procs[p := Finished(r)]
  {
    if w.procs[p].b !in w.db.buckets {
      assert PutRun(w, p, now) == Set(w, p, Finished(BucketDoesNotExist));
    } else if HasFile(w.db, w.procs[p].b, w.procs[p].f) {
      PutRunCompares(w, p, now);
    } else {
      PutRunCreates(w, p, now);
    }
  }

  /** So is an append. */
  lemma AppendRunIsAppend(w: World, p: Pid)
    requires Inv(w) && Enabled(w, Select(p)) && w.procs[p].job.AppendAt?
    requires Unused(w, w.procs[p].b, w.procs[p].f)
    ensures var w', job := SelectAndRun(w, p), w.procs[p].job;
            var (db, r) := Append(job.rule, w.db, w.procs[p].b, w.procs[p].f, job.offset, job.upload);
            w'.db == db && w'.procs == w.procs[p := Finished(r)]
  {
    var b, f, job := w.procs[p].b, w.procs[p].f, w.procs[p].job;
    if Found(w.db, b, f) {
      var w1 := Set(w, p, Opening(OidOf(w.db, b, f), job));
      SelectKeepsInv(w, p);
      assert Selected(w, p) == w1;
      AppendRuns(w1, p);
      var r := AppendTo(job.rule, Content(w.db, b, f), job.offset, job.upload).1;
      UpdateTwice(w.procs, p, w1.procs[p], Finished(r));
    }
  }

  /** The request is exploring a file that is there, and `chunks` is what it has yet to send. */
  ghost predicate Streams(w: World, p: Pid, chunks: seq<Bytes>) {
    && p in w.procs && w.procs[p].Exploring? && w.procs[p].oid in w.db.blobs
    && (forall i :: 0 <= i < |chunks| ==> chunks[i] != [])
    && w.procs[p].emitted <= |w.procs[p].base| && Flatten(chunks) == w.procs[p].base[w.procs[p].emitted..]
  }

  lemma StreamsOn(w: World, p: Pid, chunks: seq<Bytes>)
    requires Streams(w, p, chunks) && chunks != []
    ensures Enabled(w, Emit(p, |chunks[0]|))
    ensures Streams(Emitted(w, p, |chunks[0]|), p, chunks[1..])
  {
    var rest := w.procs[p].base[w.procs[p].emitted..];
    assert rest == chunks[0] + Flatten(chunks[1..]);
    assert rest[|chunks[0]|..] == Flatten(chunks[1..]);
  }

  /** Emits `chunks` one by one, then the end of the response. */
  ghost function EmitAll(w: World, p: Pid, chunks: seq<Bytes>): World
    requires Streams(w, p, chunks)
    decreases |chunks|
  {
    if chunks == [] then Emitted(w, p, 0)
    else
      StreamsOn(w, p, chunks);
      EmitAll(Emitted(w, p, |chunks[0]|), p, chunks[1..])
  }

  lemma {:induction false} EmitAllFinishes(w: World, p: Pid, chunks: seq<Bytes>)
    requires Streams(w, p, chunks)
    ensures EmitAll(w, p, chunks) == Set(w, p, Finished(Done))
    decreases |chunks|
  {
    if chunks != [] {
      StreamsOn(w, p, chunks);
      var w1 := Emitted(w, p, |chunks[0]|);
      EmitAllFinishes(w1, p, chunks[1..]);
      SetTwice(w, p, w1.procs[p], Finished(Done));
    }
  }

  /** An explore request run without interruption can send exactly the chunkings of the
      content, which is what the handler is proved to send, and changes nothing. */
  lemma ExploreRunIsExplore(w: World, p: Pid, chunks: seq<Bytes>)
    requires Inv(w) && Enabled(w, Select(p)) && w.procs[p].job.Explore?
    requires forall i :: 0 <= i < |chunks| ==> chunks[i] != []
    requires Unused(w, w.procs[p].b, w.procs[p].f)
    ensures var b, f, w1 := w.procs[p].b, w.procs[p].f, Selected(w, p);
            if b !in w.db.buckets then w1 == Set(w, p, Finished(BucketDoesNotExist))
            else if !HasFile(w.db, b, f) then w1 == Set(w, p, Finished(FileDoesNotExist))
            else
              && Enabled(w1, OpenHandle(p))
              && (Streams(HandleOpened(w1, p), p, chunks) <==> Flatten(chunks) == Content(w.db, b, f))
              && (Flatten(chunks) == Content(w.db, b, f) ==>
                    EmitAll(HandleOpened(w1, p), p, chunks) == Set(w, p, Finished(Done)))
  {
    var b, f := w.procs[p].b, w.procs[p].f;
    if Found(w.db, b, f) {
      var base := Content(w.db, b, f);
      var w2 := Set(w, p, Exploring(OidOf(w.db, b, f), base, 0));
      ExploreOpens(w, p);
      assert base[0..] == base;
      if Flatten(chunks) == base {
        EmitAllFinishes(w2, p, chunks);
        SetTwice(w, p, w2.procs[p], Finished(Done));
      }
    }
  }

  lemma ExploreOpens(w: World, p: Pid)
    requires Inv(w) && Enabled(w, Select(p)) && w.procs[p].job.Explore?
    requires Found(w.db, w.procs[p].b, w.procs[p].f) && Unused(w, w.procs[p].b, w.procs[p].f)
    ensures var oid := OidOf(w.db, w.procs[p].b, w.procs[p].f);
            && Enabled(Selected(w, p), OpenHandle(p))
            && HandleOpened(Selected(w, p), p) == Set(w, p, Exploring(oid, w.db.blobs[oid], 0))
  {
    var oid := OidOf(w.db, w.procs[p].b, w.procs[p].f);
    var w1 := Set(w, p, Opening(oid, Job.Explore));
    assert Selected(w, p) == w1;
    UpdateTwice(w.procs, p, w1.procs[p], Exploring(oid, w.db.blobs[oid], 0));
  }

  /** After the row insert: an empty file without handles, and the creator yet to open it. */
  ghost predicate InTheWindow(w: World, put: Pid, b: string, f: string, body: Body) {
    && Inv(w) && b in w.db.buckets && HasFile(w.db, b, f) && Content(w.db, b, f) == []
    && NoHandleOn(w.procs, OidOf(w.db, b, f))
    && put in w.procs && w.procs[put] == Opening(OidOf(w.db, b, f), Upload(body))
  }

  lemma WindowOpens(w: World, put: Pid, now: int, b: string, f: string, body: Body)
    requires Inv(w) && b in w.db.buckets && !HasFile(w.db, b, f)
    requires put in w.procs && w.procs[put] == PutStart(b, f, body)
    ensures InTheWindow(Inserted(w, put, now), put, b, f, body)
    ensures Inserted(w, put, now).procs == w.procs[put := Opening(w.db.nextOid, Upload(body))]
  {
    InsertNew(w, put, now);
    ClaimedIsEmpty(w.db, now, b, f);
    NoHandleOnNew(w, w.db.nextOid);
  }

  /** The window between row insert and handle is real: an append past the end that runs in
      it puts its bytes in front of the creator's, and both requests are answered Done. */
  lemma AppendInTheWindow(w: World, put: Pid, append: Pid, b: string, f: string, offset: u64, one: Body, two: Body)
    requires InTheWindow(w, put, b, f, one) && put != append
    requires append in w.procs && w.procs[append] == Selecting(b, f, AppendAt(Shipped, offset, two))
    requires offset > 0 && !one.broken && !two.broken && |two.Whole() + one.Whole()| <= I64_MAX
    ensures var w' := SelectAndRun(w, append);
            && Enabled(w', OpenHandle(put))
            && var w'' := OpenAndRun(w', put);
            && w''.procs == w.procs[append := Finished(Done)][put := Finished(Done)]
            && OidOf(w.db, b, f) in w''.db.blobs
            && w''.db.blobs[OidOf(w.db, b, f)] == two.Whole() + one.Whole()
  {
    AppendToEmpty(w, append, b, f);
    CreatorFinishes(SelectAndRun(w, append), put, OidOf(w.db, b, f), one);
  }

  lemma CreatorFinishes(w: World, put: Pid, oid: Oid, body: Body)
    requires Inv(w) && oid in w.db.blobs && put in w.procs && w.procs[put] == Opening(oid, Upload(body))
    requires NoHandleOn(w.procs, oid) && !CannotStore(body, |w.db.blobs[oid]|)
    ensures var w' := OpenAndRun(w, put);
            && w'.procs == w.procs[put := Finished(Done)]
            && oid in w'.db.blobs && w'.db.blobs[oid] == w.db.blobs[oid] + body.Whole()
  {
    UploadRuns(w, put);
  }

  lemma AppendToEmpty(w: World, p: Pid, b: string, f: string)
    requires Inv(w) && b in w.db.buckets && HasFile(w.db, b, f) && Content(w.db, b, f) == []
    requires NoHandleOn(w.procs, OidOf(w.db, b, f))
    requires p in w.procs && w.procs[p].Selecting? && w.procs[p].b == b && w.procs[p].f == f
    requires w.procs[p].job.AppendAt? && w.procs[p].job.rule.Shipped? && w.procs[p].job.offset > 0
    requires !CannotStore(w.procs[p].job.upload, 0)
    ensures var w' := SelectAndRun(w, p);
            && w'.procs == w.procs[p := Finished(Done)]
            && w'.db == SetBlob(w.db, OidOf(w.db, b, f), Some(w.procs[p].job.upload.Whole()))
  {
    AppendRunIsAppend(w, p);
    var body := w.procs[p].job.upload.Whole();
    assert [] + body == body;
  }
}
