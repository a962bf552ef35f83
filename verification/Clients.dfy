/** Clients that keep calling the handlers, whatever fails on the way: queries, answers of
    queries, the stream of the body, the response. */
module Clients {
  import opened ByteStrings
  import opened LargeObjects
  import opened Tables
  import opened Polls
  import opened FileHandles
  import opened Service
  import opened MatchProperties
  import opened ClientProperties
  import opened Api

  // ---------------------------------------------------------------------------
  // PUT after a PUT that came to nothing
  // ---------------------------------------------------------------------------

  datatype LaterPut = LaterPut(now: int, body: Body, env: Env)

  /** How a PUT on an existing empty file may be answered. */
  ghost predicate AnsweredByEmpty(put: LaterPut, r: Response) {
    && (r == Done ==> !put.body.broken && put.body.Whole() == [])
    && (put.body.Whole() != [] ==> r in {Conflict, Internal})
    && (put.env.Calm() ==>
          r == if put.body.Whole() != [] then Conflict else if put.body.broken then Internal else Done)
  }

  method PutAgain(db: Database, b: string, f: string, put: LaterPut) returns (r: Response)
    requires Consistent(db.State()) && b in db.buckets
    modifies db
    ensures Consistent(db.State()) && b in db.buckets
    ensures old(HasFile(db.State(), b, f) && Content(db.State(), b, f) == []) ==>
              db.State() == old(db.State()) && AnsweredByEmpty(put, r)
  {
    VerdictCharacterised([], put.body);
    r := PutWrite(db, put.now, b, f, put.body, put.env);
  }

  /** A creating PUT and then any number of PUTs to the same name. Whatever made the first
      one leave just its empty file (the body, a query, a failed close, a handle that could
      not be opened), none of the others with bytes in it succeeds, each conflicts unless
      its own queries fail, and none changes the store. `left` is the store in between. */
  method PutAgainAndAgain(db: Database, now: int, b: string, f: string, first: Body, env: Env, later: seq<LaterPut>)
    returns (r: Response, ghost left: Db, rs: seq<Response>)
    requires Consistent(db.State()) && b in db.buckets && !HasFile(db.State(), b, f)
    modifies db
    ensures left == old(db.State()) || left == Claimed(old(db.State()), now, b, f)
            || left == Put(old(db.State()), now, b, f, first).0
    ensures AllAnswered(env.ticks) && r != Done ==>
              left == old(db.State()) || left == Claimed(old(db.State()), now, b, f)
    ensures env.bucket.Works? && !env.insert.Fails? ==> left != old(db.State())
    ensures |rs| == |later|
    ensures left == Claimed(old(db.State()), now, b, f) ==>
              db.State() == left && forall i :: 0 <= i < |later| ==> AnsweredByEmpty(later[i], rs[i])
  {
    ClaimedIsEmpty(db.State(), now, b, f);
    ghost var claimed := Claimed(db.State(), now, b, f);
    r := PutWrite(db, now, b, f, first, env);
    left := db.State();
    rs := [];
    while |rs| < |later|
      invariant |rs| <= |later| && Consistent(db.State()) && b in db.buckets
      invariant left == claimed ==>
                  db.State() == left && forall i :: 0 <= i < |rs| ==> AnsweredByEmpty(later[i], rs[i])
    {
      var next := PutAgain(db, b, f, later[|rs|]);
      rs := rs + [next];
    }
  }

  // ---------------------------------------------------------------------------
  // Chunked upload with retries, under the documented append rule
  // ---------------------------------------------------------------------------

  /** One try to have a chunk appended: lost before it reaches the handler, or handled with
      whatever failures `env` says; `heard`: the client gets the response. */
  datatype Try = Lost | Handled(body: Body, env: Env, heard: bool) {
    /** The body is the chunk, or breaks off somewhere in it. */
    ghost predicate For(data: Bytes) {
      Handled? ==> body.Whole() <= data && (body.broken || body.Whole() == data)
    }

    /** Nothing goes wrong with this one. */
    ghost predicate Perfect() {
      Handled? && !body.broken && env.Calm() && heard
    }
  }

  ghost predicate AllFor(data: Bytes, tries: seq<Try>) {
    forall i :: 0 <= i < |tries| ==> tries[i].For(data)
  }

  ghost predicate SomePerfect(tries: seq<Try>) {
    exists i :: 0 <= i < |tries| && tries[i].Perfect()
  }

  predicate NoConflict(responses: seq<Response>) {
    forall i :: 0 <= i < |responses| ==> responses[i] in {Done, Internal}
  }

  /** `db` is `start` with `content` in the file, and the file can hold that. */
  ghost predicate Stored(start: Db, b: string, f: string, db: Db, content: Bytes) {
    && Consistent(start) && b in start.buckets && HasFile(start, b, f)
    && Consistent(db) && |content| <= I64_MAX && db == SetBlob(start, OidOf(start, b, f), Some(content))
  }

  lemma StoredContent(start: Db, b: string, f: string, db: Db, content: Bytes)
    requires Stored(start, b, f, db, content)
    ensures b in db.buckets && HasFile(db, b, f) && OidOf(db, b, f) == OidOf(start, b, f)
    ensures Content(db, b, f) == content
  {
    SameFile(db, b, f, IdOf(start, b, f));
  }

  lemma StoredEither(start: Db, b: string, f: string, db: Db, one: Bytes, two: Bytes)
    requires Stored(start, b, f, db, one) || Stored(start, b, f, db, two)
    ensures b in db.buckets && HasFile(db, b, f)
    ensures Stored(start, b, f, db, one) ==> Content(db, b, f) == one
    ensures Stored(start, b, f, db, two) ==> Content(db, b, f) == two
  {
    if Stored(start, b, f, db, one) {
      StoredContent(start, b, f, db, one);
    }
    if Stored(start, b, f, db, two) {
      StoredContent(start, b, f, db, two);
    }
  }

  lemma StoredAtFirst(db: Db, b: string, f: string)
    requires Consistent(db) && b in db.buckets && HasFile(db, b, f)
    ensures Stored(db, b, f, db, Content(db, b, f))
  {
    SetBlobSame(db, OidOf(db, b, f));
  }

  /** An append to the file replaces its content by what AppendTo says. */
  lemma StoredAppend(start: Db, b: string, f: string, db: Db, content: Bytes, offset: u64, body: Body)
    requires Stored(start, b, f, db, content)
    ensures var (after, r) := AppendTo(Readme, content, offset, body);
            && Append(Readme, db, b, f, offset, body).1 == r
            && Stored(start, b, f, Append(Readme, db, b, f, offset, body).0, after)
  {
    StoredContent(start, b, f, db, content);
    AppendKeepsConsistent(Readme, db, b, f, offset, body);
    AppendActsOnContent(Readme, db, b, f, offset, body);
    var oid, after := OidOf(start, b, f), AppendTo(Readme, content, offset, body).0;
    assert Append(Readme, db, b, f, offset, body).0 == SetBlob(db, oid, Some(after));
    assert db.blobs[oid := after] == start.blobs[oid := after];
  }

  /** One handled try, before or after another one has stored the chunk. */
  lemma OneTry(base: Bytes, data: Bytes, content: Bytes, body: Body)
    requires content == base || content == base + data
    requires |content| <= I64_MAX
    requires body.Whole() <= data && (body.broken || body.Whole() == data)
    ensures var (after, r) := AppendTo(Readme, content, |base|, body);
            && |after| <= I64_MAX
            && (after == content || after == base + data)
            && r in {Done, Internal}
            && (r == Done ==> after == base + data)
            && (!body.broken && |base + data| <= I64_MAX ==> r == Done)
  {
    ReadmeContract(content, |base|, body);
    if content == base + data && data != [] {
      assert Tail(content, |base|) == data;
    } else {
      assert base + [] == base;
    }
  }

  /** One request, which finds the file with or without the chunk. */
  method Send(db: Database, b: string, f: string, offset: u64, data: Bytes, body: Body, env: Env,
              ghost start: Db, ghost base: Bytes, ghost content: Bytes)
    returns (r: Response, ghost after: Bytes)
    requires content == base || content == base + data
    requires Stored(start, b, f, db.State(), content) && offset == |base| && Handled(body, env, true).For(data)
    modifies db
    ensures after == content || after == base + data
    ensures Stored(start, b, f, db.State(), after)
    ensures r in {Done, Internal}
    ensures r == Done ==> after == base + data
    ensures !body.broken && env.Calm() && |base + data| <= I64_MAX ==> r == Done
  {
    OneTry(base, data, content, body);
    StoredAppend(start, b, f, db.State(), content, offset, body);
    ghost var before := db.State();
    r := PostAppend(Readme, db, b, f, offset, body, env);
    after := if db.State() == before && r != Done then content else AppendTo(Readme, content, offset, body).0;
  }

  /** Sends one chunk again and again until its acknowledgement is heard. The chunk is in the
      file once or not at all, and for certain once it is acknowledged. */
  method Deliver(db: Database, b: string, f: string, offset: u64, data: Bytes, tries: seq<Try>,
                 ghost start: Db, ghost base: Bytes)
    returns (acked: bool, responses: seq<Response>)
    requires Stored(start, b, f, db.State(), base) && offset == |base| && AllFor(data, tries)
    modifies db
    ensures Stored(start, b, f, db.State(), base) || Stored(start, b, f, db.State(), base + data)
    ensures acked ==> Stored(start, b, f, db.State(), base + data)
    ensures NoConflict(responses)
    ensures SomePerfect(tries) && |base + data| <= I64_MAX ==> acked
  {
    acked, responses := false, [];
    ghost var content := base;
    var i := 0;
    while i < |tries|
      invariant 0 <= i <= |tries| && NoConflict(responses) && !acked
      invariant content == base || content == base + data
      invariant Stored(start, b, f, db.State(), content)
      invariant forall j :: 0 <= j < i && tries[j].Perfect() ==> |base + data| > I64_MAX
    {
      if tries[i].Handled? {
        var r;
        r, content := Send(db, b, f, offset, data, tries[i].body, tries[i].env, start, base, content);
        responses := responses + [r];
        if r.Done? && tries[i].heard {
          return true, responses;
        }
      }
      i := i + 1;
    }
  }

  /** At-least-once delivery is exactly-once in effect, for the handler itself and whatever
      fails, answers of commits and responses to the client included: the client sends each
      chunk until it hears of success, then the next. The file then holds its initial
      content and the acknowledged chunks once each, in order, and at most the next one
      besides; no request conflicts; and every chunk gets there if for each there is one
      try at which nothing fails (and the file does not outgrow an `i64`). */
  method UploadInChunks(db: Database, b: string, f: string, size: u64, chunks: seq<Bytes>, plan: seq<seq<Try>>)
    returns (acked: nat, responses: seq<Response>)
    requires Consistent(db.State()) && b in db.buckets && HasFile(db.State(), b, f)
    requires size == |Content(db.State(), b, f)|
    requires |plan| == |chunks| && forall i :: 0 <= i < |chunks| ==> AllFor(chunks[i], plan[i])
    modifies db
    ensures acked <= |chunks|
    ensures var start, base := old(db.State()), old(Content(db.State(), b, f));
            || Stored(start, b, f, db.State(), base + Flatten(chunks[..acked]))
            || (acked < |chunks| && Stored(start, b, f, db.State(), base + Flatten(chunks[..acked + 1])))
    ensures b in db.buckets && HasFile(db.State(), b, f)
    ensures var content, base := Content(db.State(), b, f), old(Content(db.State(), b, f));
            || content == base + Flatten(chunks[..acked])
            || (acked < |chunks| && content == base + Flatten(chunks[..acked + 1]))
    ensures forall i :: 0 <= i < |responses| ==> responses[i] in {Done, Internal}
    ensures (forall i :: 0 <= i < |plan| ==> SomePerfect(plan[i])) ==>
              |old(Content(db.State(), b, f))| + |Flatten(chunks)| <= I64_MAX ==> acked == |chunks|
  {
    ghost var start, base := db.State(), Content(db.State(), b, f);
    StoredAtFirst(db.State(), b, f);
    acked, responses := 0, [];
    var offset: nat := size;
    ghost var content := base;
    assert base + Flatten(chunks[..0]) == base;
    while acked < |chunks|
      invariant acked <= |chunks| && NoConflict(responses)
      invariant content == base + Flatten(chunks[..acked]) && offset == |content|
      invariant Stored(start, b, f, db.State(), content)
    {
      ghost var more := content + chunks[acked];
      FlattenTake(chunks, acked);
      FlattenTakePrefix(chunks, acked + 1);
      assert more == base + Flatten(chunks[..acked + 1]);
      var heard, rs := Deliver(db, b, f, offset, chunks[acked], plan[acked], start, content);
      responses := responses + rs;
      if !heard {
        StoredEither(start, b, f, db.State(), content, more);
        return;
      }
      offset := offset + |chunks[acked]|;
      content := more;
      acked := acked + 1;
    }
    assert chunks[..acked] == chunks;
    StoredContent(start, b, f, db.State(), content);
  }
}
