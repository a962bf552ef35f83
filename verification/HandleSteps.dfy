/** The steps of a request in the transition system are the calls on its file handle: what a
    call is proved to do, whatever the database does to its polls, is what the step says. */
module HandleSteps {
  import opened ByteStrings
  import opened LargeObjects
  import opened Tables
  import opened Polls
  import opened FileHandles
  import opened Service
  import opened Maintenance
  import opened Interleaving
  import opened Explore

  /** The open transaction of a request that has got this far. */
  ghost predicate HandleOf(proc: Proc, tx: Option<Transaction>) {
    match proc
    case Writing(_, _, content, _, _) => Usable(tx) && tx.value.blob.content == content
    case Comparing(_, base, start, body, matched) =>
      && matched <= |body.chunks|
      && tx == Some(Transaction(OpenObject(base, start + |Flatten(body.chunks[..matched])|), false))
    case Exploring(_, base, emitted) => tx == Some(Transaction(OpenObject(base, emitted), false))
    case _ => false
  }

  /** The transaction of a handle just opened. */
  function JustOpened(base: Bytes): Option<Transaction> {
    Some(Transaction(OpenObject(base, 0), false))
  }

  lemma NothingMatched(chunks: seq<Bytes>)
    ensures Flatten(chunks[..0]) == []
  {
  }

  /** Uploading starts at once; comparing with a whole file starts with a seek. */
  lemma OpenForPut(oid: Oid, base: Bytes, body: Body, tx1: Option<Transaction>, r: Result<nat>)
    requires SeekGives(JustOpened(base), Start(0), tx1, r)
    ensures HandleOf(FirstPhase(oid, base, Upload(body)), JustOpened(base))
    ensures r.Ok? ==> HandleOf(FirstPhase(oid, base, CompareAll(body)), tx1)
  {
    NothingMatched(body.chunks);
  }

  /** An append asks for the size, then uploads, or seeks again and compares. */
  lemma OpenForAppend(oid: Oid, base: Bytes, rule: AppendRule, offset: u64, body: Body,
                      tx1: Option<Transaction>, size: nat, tx2: Option<Transaction>, r: Result<nat>)
    requires SeekGives(JustOpened(base), End(0), tx1, Ok(size))
    requires !rule.Appends(offset, size) ==> SeekGives(tx1, Start(offset), tx2, r)
    ensures var proc := FirstPhase(oid, base, AppendAt(rule, offset, body));
            && (if rule.Appends(offset, size) then proc.Writing? && HandleOf(proc, tx1)
                else if r.Ok? then proc.Comparing? && HandleOf(proc, tx2)
                else !Usable(tx2))
            && (proc.Finished? ==> !rule.Appends(offset, size) && r.Err?)
  {
    NothingMatched(body.chunks);
  }

  /** Exploring asks for the size and rewinds. */
  lemma OpenForExplore(oid: Oid, base: Bytes, tx1: Option<Transaction>, size: nat, tx2: Option<Transaction>, start: nat)
    requires SeekGives(JustOpened(base), End(0), tx1, Ok(size))
    requires SeekGives(tx1, Start(0), tx2, Ok(start))
    ensures size == |base| && HandleOf(FirstPhase(oid, base, Job.Explore), tx2)
  {
  }

  /** An append that is acknowledged is the step NextChunk of a writer; where the step fails
      because the object would be too large, so does the append. */
  lemma AppendIsNextChunk(proc: Proc, tx0: Option<Transaction>, tx1: Option<Transaction>, r: Result<()>)
    requires proc.Writing? && proc.sent < |proc.body.chunks| && HandleOf(proc, tx0)
    requires AppendGives(tx0, proc.body.chunks[proc.sent], tx1, r)
    ensures r.Ok? ==> Chunk(proc).Writing? && HandleOf(Chunk(proc), tx1)
    ensures Chunk(proc).Finished? ==> r.Err?
    ensures r.Err? ==> !Usable(tx1)
  {
  }

  /** An exact read that is answered is the step NextChunk of a comparison. */
  lemma ReadExactIsNextChunk(proc: Proc, tx0: Option<Transaction>, tx1: Option<Transaction>, r: Result<Bytes>)
    requires proc.Comparing? && proc.matched < |proc.body.chunks| && HandleOf(proc, tx0)
    requires ReadExactGives(tx0, |proc.body.chunks[proc.matched]|, tx1, r)
    ensures r == Ok(proc.body.chunks[proc.matched]) ==> Chunk(proc).Comparing? && HandleOf(Chunk(proc), tx1)
    ensures r != Ok(proc.body.chunks[proc.matched]) && (r.Ok? || r.error == UnexpectedEof) ==>
              Chunk(proc) == Finished(Conflict)
  {
    FlattenTake(proc.body.chunks, proc.matched);
    var at, c := tx0.value.blob.cursor, proc.body.chunks[proc.matched];
    assert r.Ok? && |c| > 0 ==> r.value == Tail(proc.base, at)[..|c|];
  }

  /** The read of one more byte, when all chunks have matched, decides as EndOfBody does. */
  lemma LastReadIsEndOfBody(proc: Proc, tx0: Option<Transaction>, tx1: Option<Transaction>, r: Result<Bytes>)
    requires proc.Comparing? && proc.matched == |proc.body.chunks| && !proc.body.broken && HandleOf(proc, tx0)
    requires ReadExactGives(tx0, 1, tx1, r)
    ensures r.Ok? ==> Compared(proc) == Conflict
    ensures r == Err(UnexpectedEof) ==> Compared(proc) == Done
  {
    assert proc.body.chunks[..proc.matched] == proc.body.chunks;
  }

  /** A close is the step EndOfBody of a writer, answered or not, or, when it failed without
      a lost answer, has committed nothing. */
  lemma CloseIsEndOfBody(w: World, p: Pid, tx0: Option<Transaction>, tx1: Option<Transaction>,
                         durable: Option<Bytes>, r: Result<()>)
    requires Inv(w) && Enabled(w, EndOfBody(p, r.Ok?)) && Commits(w, w.procs[p]) && HandleOf(w.procs[p], tx0)
    requires CloseGives(tx0, Lookup(w.db, w.procs[p].oid), tx1, durable, r)
    ensures var w', after := Interleaving.Ended(w, p, r.Ok?), SetBlob(w.db, w.procs[p].oid, durable);
            && (r.Ok? ==> after == w'.db && w'.procs[p] == Finished(Done))
            && (r.Err? ==> (after == w.db || after == w'.db) && w'.procs[p] == Finished(Internal))
  {
    SetBlobSame(w.db, w.procs[p].oid);
  }

  /** A read of the streamed response is the step Emit of as many bytes. */
  lemma ReadIsEmit(w: World, p: Pid, tx0: Option<Transaction>, tx1: Option<Transaction>, data: Bytes)
    requires p in w.procs && w.procs[p].Exploring? && w.procs[p].oid in w.db.blobs && HandleOf(w.procs[p], tx0)
    requires w.procs[p].emitted <= |w.procs[p].base|
    requires ReadGives(tx0, BUFFER_SIZE, tx1, Ok(data))
    ensures Enabled(w, Emit(p, |data|))
    ensures var proc, proc' := w.procs[p], Emitted(w, p, |data|).procs[p];
            && data == proc.base[proc.emitted..proc.emitted + |data|]
            && if data == [] then proc' == Finished(Done) else HandleOf(proc', tx1)
  {
  }

  /** What fails, or is broken off, at whatever point, is the step Drop: it is always there,
      answers Internal and changes nothing else. */
  lemma FailureIsDrop(w: World, p: Pid)
    requires p in w.procs && !w.procs[p].Finished?
    ensures Enabled(w, Drop(p))
    ensures Apply(w, Drop(p)) == World(w.db, w.procs[p := Finished(Internal)], w.log)
  {
  }

  /** Any request can arrive at any time, and any new bucket can be created. */
  lemma AnythingCanArrive(w: World, p: Pid, b: string, f: string, body: Body, rule: AppendRule, offset: u64,
                          ttl: Option<int>)
    requires p !in w.procs
    ensures Enabled(w, Arrive(p, PutStart(b, f, body)))
    ensures Enabled(w, Arrive(p, Selecting(b, f, AppendAt(rule, offset, body))))
    ensures Enabled(w, Arrive(p, Selecting(b, f, Job.Explore)))
    ensures b !in w.db.buckets ==>
              && Enabled(w, CreateBucket(b, ttl))
              && Apply(w, CreateBucket(b, ttl)).db == w.db.(buckets := w.db.buckets[b := ttl])
              && Apply(w, CreateBucket(b, ttl)).procs == w.procs
  {
  }

  /** A sweep of the maintenance task is the step Collect. */
  lemma SweepIsCollect(w: World, now: int, db': Db) returns (batch: set<FileId>)
    requires Swept(w.db, now, db')
    ensures Enabled(w, Collect(now, batch)) && Apply(w, Collect(now, batch)).db == db'
    ensures Apply(w, Collect(now, batch)).procs == w.procs
  {
    batch :| IsBatch(w.db, now, batch) && db' == DeleteFiles(w.db, batch);
  }

  /** The lookup of the bucket and the insert of the row are the step Insert: a missing bucket
      and a name that is taken are told apart as the handler does. */
  lemma CreateIsInsert(w: World, p: Pid, now: int)
    requires p in w.procs && w.procs[p].PutStart?
    ensures Enabled(w, Insert(p, now))
    ensures var b, f, body := w.procs[p].b, w.procs[p].f, w.procs[p].body;
            var w' := Apply(w, Insert(p, now));
            if b !in w.db.buckets then w' == Set(w, p, Finished(BucketDoesNotExist))
            else if HasFile(w.db, b, f) then w' == Set(w, p, Selecting(b, f, CompareAll(body)))
            else
              && w'.db == InsertFile(w.db, b, f, DeleteAfter(now, w.db.buckets[b]))
              && w'.procs == w.procs[p := Opening(w.db.nextOid, Upload(body))]
  {
  }
}
