/** Chunked upload with retries when requests overlap: a client that has given up on an
    answer sends the chunk again while the first request may still be running, or may run
    much later. */
module Delivery {
  import opened ByteStrings
  import opened LargeObjects
  import opened Tables
  import opened Service
  import opened Interleaving
  import opened Refinement
  import opened Histories
  import opened Creation

  /** An upload of `chunks` to the end of the file of row `id`, which held `base`. */
  datatype Transfer = Transfer(b: string, f: string, id: FileId, oid: Oid, base: Bytes, chunks: seq<Bytes>) {

    /** The file once the first `k` chunks have arrived. */
    function Upto(k: nat): Bytes
      requires k <= |chunks|
    {
      base + Flatten(chunks[..k])
    }

    /** The request for chunk `k`. */
    predicate SendsChunk(job: Job, k: nat) {
      && k < |chunks| && job.AppendAt? && job.rule.Readme?
      && job.offset == |Upto(k)| && !job.upload.broken && job.upload.Whole() == chunks[k]
    }

    /** A request to this file that the upload puts up with: any that writes nothing, and
        appends of its chunks, at their offsets, complete or broken off. */
    ghost predicate AllowsJob(job: Job) {
      match job
      case Upload(_) => false
      case AppendAt(rule, _, upload) => rule.Readme? && (upload.broken || exists k :: SendsChunk(job, k))
      case _ => true
    }

    /** An open writer that can commit only the chunk that is next. */
    ghost predicate WritesNext(start: Bytes, body: Body) {
      body.broken || exists k: nat :: k < |chunks| && start == Upto(k) && body.Whole() == chunks[k]
    }

    ghost predicate Allows(proc: Proc) {
      match proc
      case Selecting(bucket, filename, job) => bucket == b && filename == f ==> AllowsJob(job)
      case Opening(o, job) => o == oid ==> AllowsJob(job)
      case Writing(o, start, _, body, _) => o == oid ==> WritesNext(start, body)
      case _ => true
    }

    ghost predicate FileIn(db: Db) {
      id in db.files && db.files[id].Named(b, f) && db.files[id].blob == oid && oid in db.blobs
    }

    /** Some first chunks have arrived, and every request there is goes along. */
    ghost predicate Underway(w: World) {
      && Inv(w) && FileIn(w.db)
      && (exists k: nat :: k <= |chunks| && w.db.blobs[oid] == Upto(k))
      && forall p :: p in w.procs ==> Allows(w.procs[p])
    }

    /** Every upload to the end of a file nobody is working on can be underway, and every try
        for every one of its chunks is allowed. */
    lemma CanStart(w: World)
      requires Inv(w) && FileIn(w.db) && w.db.blobs[oid] == base
      requires forall p :: p in w.procs ==> w.procs[p].Finished?
      ensures Underway(w)
      ensures forall k: nat, body: Body, offset: u64 ::
                k < |chunks| && offset == |base| + |Flatten(chunks[..k])| ==>
                  body.broken || body.Whole() == chunks[k] ==>
                  Allows(Selecting(b, f, AppendAt(Readme, offset, body)))
    {
      assert Upto(0) == base;
      forall k: nat, body: Body, offset: u64 |
        k < |chunks| && offset == |base| + |Flatten(chunks[..k])| && (body.broken || body.Whole() == chunks[k])
        ensures Allows(Selecting(b, f, AppendAt(Readme, offset, body)))
      {
        assert body.broken || SendsChunk(AppendAt(Readme, offset, body), k);
      }
    }

    lemma UptoPrefix(j: nat, k: nat)
      requires j <= k <= |chunks|
      ensures Upto(j) <= Upto(k)
    {
      FlattenTakePrefix(chunks[..k], j);
      assert chunks[..k][..j] == chunks[..j];
    }

    lemma UptoNext(k: nat)
      requires k < |chunks|
      ensures Upto(k + 1) == Upto(k) + chunks[k]
    {
      FlattenTake(chunks, k);
    }

    lemma SameLength(j: nat, k: nat)
      requires j <= |chunks| && k <= |chunks| && |Upto(j)| == |Upto(k)|
      ensures Upto(j) == Upto(k)
    {
      if j <= k {
        UptoPrefix(j, k);
      } else {
        UptoPrefix(k, j);
      }
    }

    /** An append of a chunk that finds its offset at the end of the file writes the chunk
        that is next. */
    lemma OpensNext(content: Bytes, j: nat, job: Job)
      requires j <= |chunks| && content == Upto(j) && AllowsJob(job)
      ensures Allows(FirstPhase(oid, content, job))
    {
      var proc := FirstPhase(oid, content, job);
      if proc.Writing? && !proc.body.broken {
        var k :| SendsChunk(job, k);
        SameLength(j, k);
      }
    }

    /** Only requests for the file get to its object. */
    lemma SelectsIts(db: Db, bucket: string, filename: string)
      requires Consistent(db) && FileIn(db) && HasFile(db, bucket, filename)
      requires OidOf(db, bucket, filename) == oid
      ensures bucket == b && filename == f
    {
      assert SameBlob(db.files, IdOf(db, bucket, filename), id);
    }

    lemma OwnStepAllowed(w: World, e: Event, p: Pid)
      requires Consistent(w.db) && FileIn(w.db)
      requires exists k: nat :: k <= |chunks| && w.db.blobs[oid] == Upto(k)
      requires Enabled(w, e) && IsStepOf(e, p) && p in Apply(w, e).procs
      requires if e.Arrive? then Allows(e.request) else Allows(w.procs[p])
      ensures Allows(Apply(w, e).procs[p])
    {
      match e {
        case Select(_) =>
          var (bucket, filename) := (w.procs[p].b, w.procs[p].f);
          if HasFile(w.db, bucket, filename) && OidOf(w.db, bucket, filename) == oid {
            SelectsIts(w.db, bucket, filename);
          }
        case OpenHandle(_) =>
          if w.procs[p].oid == oid {
            var j: nat :| j <= |chunks| && w.db.blobs[oid] == Upto(j);
            OpensNext(w.db.blobs[oid], j, w.procs[p].job);
          }
        case _ =>
      }
    }

    /** A commit to the file is the commit of the chunk that is next. */
    lemma CommitsNext(w: World, e: Event)
      requires Underway(w) && Enabled(w, e) && CommitsTo(w, e, oid)
      ensures oid in Apply(w, e).db.blobs
      ensures exists k: nat :: k <= |chunks| && Apply(w, e).db.blobs[oid] == Upto(k)
    {
      CommitAppendsBody(w, e.p, e.answered);
      assert Allows(w.procs[e.p]) && ProcOk(w.db, w.procs[e.p]);
      var k: nat :| k < |chunks| && w.procs[e.p].base == Upto(k) && w.procs[e.p].body.Whole() == chunks[k];
      UptoNext(k);
      assert Apply(w, e).db.blobs[oid] == Upto(k + 1);
    }

    lemma FileStays(w: World, e: Event)
      requires Inv(w) && FileIn(w.db) && Enabled(w, e) && id in Apply(w, e).db.files
      ensures Inv(Apply(w, e)) && FileIn(Apply(w, e).db)
      ensures !CommitsTo(w, e, oid) ==> Apply(w, e).db.blobs[oid] == w.db.blobs[oid]
    {
      StepKeepsInv(w, e);
      StepExtends(w, e);
      StepLogs(w, e, oid);
      assert !CommitsTo(w, e, oid) ==> Apply(w, e).log[oid] == w.log[oid];
    }

    lemma StepAllowed(w: World, e: Event, p: Pid)
      requires Underway(w) && Enabled(w, e) && p in Apply(w, e).procs
      requires e.Arrive? ==> Allows(e.request)
      ensures Allows(Apply(w, e).procs[p])
    {
      if IsStepOf(e, p) {
        OwnStepAllowed(w, e, p);
      } else {
        assert p in w.procs;
        OtherStep(w, e, p);
      }
    }

    lemma StepStaysUnderway(w: World, e: Event)
      requires Underway(w) && Enabled(w, e)
      requires e.Arrive? ==> Allows(e.request)
      requires id in Apply(w, e).db.files
      ensures Underway(Apply(w, e))
    {
      FileStays(w, e);
      if CommitsTo(w, e, oid) {
        CommitsNext(w, e);
      }
      forall p | p in Apply(w, e).procs
        ensures Allows(Apply(w, e).procs[p])
      {
        StepAllowed(w, e, p);
      }
    }

    // -------------------------------------------------------------------------
    // Acknowledgements
    // -------------------------------------------------------------------------

    /** How far the request for chunk `k` can have got; if it was answered Done, the file has
        grown past that chunk. */
    ghost predicate OnItsWay(w: World, proc: Proc, job: Job, k: nat)
      requires FileIn(w.db) && SendsChunk(job, k)
    {
      match proc
      case Selecting(bucket, filename, j) => bucket == b && filename == f && j == job
      case Opening(o, j) => o == oid && j == job
      case Writing(o, start, _, body, _) => o == oid && |start| == job.offset && body == job.upload
      case Comparing(o, _, start, body, _) => o == oid && start == job.offset && body == job.upload
      case Finished(r) => r == Done ==> |Upto(k + 1)| <= |w.db.blobs[oid]|
      case _ => false
    }

    lemma EndOnItsWay(w: World, q: Pid, answered: bool, job: Job, k: nat)
      requires Underway(w) && Enabled(w, EndOfBody(q, answered)) && FileIn(Interleaving.Ended(w, q, answered).db)
      requires SendsChunk(job, k) && chunks[k] != [] && OnItsWay(w, w.procs[q], job, k)
      ensures var w' := Interleaving.Ended(w, q, answered); OnItsWay(w', w'.procs[q], job, k)
    {
      var proc := w.procs[q];
      assert ProcOk(w.db, proc);
      UptoNext(k);
      if proc.Writing? {
        CommitAppendsBody(w, q, answered);
      } else if Compared(proc) == Done {
        MatchedIsTrue(w.db, proc);
      }
    }

    lemma MoveOnItsWay(w: World, e: Event, q: Pid, job: Job, k: nat)
      requires Consistent(w.db) && FileIn(w.db)
      requires Enabled(w, e) && IsStepOf(e, q) && !e.EndOfBody? && FileIn(Apply(w, e).db)
      requires SendsChunk(job, k) && q in w.procs && OnItsWay(w, w.procs[q], job, k)
      ensures q in Apply(w, e).procs && OnItsWay(Apply(w, e), Apply(w, e).procs[q], job, k)
    {
      if e.Select? {
        SameFile(w.db, b, f, id);
      }
    }

    lemma StepOnItsWay(w: World, e: Event, q: Pid, job: Job, k: nat)
      requires Underway(w) && Enabled(w, e) && Inv(Apply(w, e)) && FileIn(Apply(w, e).db)
      requires SendsChunk(job, k) && chunks[k] != []
      requires q in w.procs && OnItsWay(w, w.procs[q], job, k)
      ensures q in Apply(w, e).procs && OnItsWay(Apply(w, e), Apply(w, e).procs[q], job, k)
    {
      if !IsStepOf(e, q) {
        OtherStep(w, e, q);
        StepExtends(w, e);
        ContentExtends(w, Apply(w, e), id);
      } else if e.EndOfBody? {
        EndOnItsWay(w, q, e.answered, job, k);
      } else {
        MoveOnItsWay(w, e, q, job, k);
      }
    }

    // -------------------------------------------------------------------------
    // No conflict for the chunk that is being sent
    // -------------------------------------------------------------------------

    /** The request has not met, and will not meet, anything its chunk differs from. */
    ghost predicate Unopposed(proc: Proc, job: Job)
      requires job.AppendAt?
    {
      match proc
      case Selecting(bucket, filename, j) => bucket == b && filename == f && j == job
      case Opening(o, j) => o == oid && j == job
      case Writing(_, _, _, _, _) => true
      case Comparing(_, content, start, body, _) => !body.broken && Tail(content, start) == body.Whole()
      case Finished(r) => r != Conflict
      case _ => false
    }

    /** A file that has all chunks but the last, and perhaps that, either ends where the last
        one starts, or holds it from there on. */
    lemma OpensUnopposed(content: Bytes, job: Job, k: nat)
      requires |chunks| == k + 1 && SendsChunk(job, k) && |Upto(k)| <= |content|
      requires exists j: nat :: j <= |chunks| && content == Upto(j)
      ensures Unopposed(FirstPhase(oid, content, job), job)
    {
      var j: nat :| j <= |chunks| && content == Upto(j);
      UptoNext(k);
      if j <= k {
        UptoPrefix(j, k);
      } else {
        assert Tail(content, job.offset) == chunks[k];
      }
    }

    lemma StepUnopposed(w: World, e: Event, q: Pid, job: Job, k: nat)
      requires Underway(w) && Enabled(w, e) && FileIn(Apply(w, e).db)
      requires |chunks| == k + 1 && SendsChunk(job, k) && |Upto(k)| <= |w.db.blobs[oid]|
      requires q in w.procs && Unopposed(w.procs[q], job)
      ensures q in Apply(w, e).procs && Unopposed(Apply(w, e).procs[q], job)
    {
      var proc := w.procs[q];
      if !IsStepOf(e, q) {
        OtherStep(w, e, q);
      } else if proc.Comparing? {
        assert ProcOk(w.db, proc);
        if proc.matched < |proc.body.chunks| {
          ChunkMatches(w.db, proc);
        } else {
          EndMatches(proc);
        }
      } else if proc.Selecting? {
        SameFile(w.db, b, f, id);
      } else if proc.Opening? {
        OpensUnopposed(w.db.blobs[oid], job, k);
      }
    }
  }

  lemma ChunkMatches(db: Db, proc: Proc)
    requires ProcOk(db, proc) && proc.Comparing? && proc.matched < |proc.body.chunks|
    requires Tail(proc.base, proc.start) == proc.body.Whole()
    ensures Chunk(proc) == proc.(matched := proc.matched + 1)
  {
    var chunks, i := proc.body.chunks, proc.matched;
    var done, whole := Flatten(chunks[..i]), proc.body.Whole();
    FlattenTakePrefix(chunks, i);
    assert chunks[i..][0] == chunks[i];
    assert Tail(proc.base, proc.start + |done|) == whole[|done|..];
  }

  lemma EndMatches(proc: Proc)
    requires proc.Comparing? && !proc.body.broken && Tail(proc.base, proc.start) == proc.body.Whole()
    ensures Compared(proc) == Done
  {
    var whole := proc.body.Whole();
    assert Tail(proc.base, proc.start + |whole|) == [];
  }

  // ---------------------------------------------------------------------------
  // Runs
  // ---------------------------------------------------------------------------

  /** From step `start` up to `end` no request arrives for the file that the upload does not
      allow, and the file is not collected. Requests to other files are free. */
  ghost predicate LeftAlone(t: Transfer, run: seq<World>, events: seq<Event>, start: nat, end: nat)
    requires IsRun(run, events) && start <= end < |run|
  {
    && t.Underway(run[start]) && t.id in run[end].db.files
    && forall m :: start <= m < end && events[m].Arrive? ==> t.Allows(events[m].request)
  }

  lemma LeftAloneSoFar(t: Transfer, run: seq<World>, events: seq<Event>, start: nat, m: nat, end: nat)
    requires IsRun(run, events) && Inv(run[0]) && start <= m <= end < |run| && LeftAlone(t, run, events, start, end)
    ensures LeftAlone(t, run, events, start, m)
  {
    RunExtends(run, events, start, m);
    RunExtends(run, events, m, end);
  }

  /** However requests overlap and however late a retry runs, the file holds at any time
      what it held before and some first chunks, each once and in order. */
  lemma {:induction false} OverlappingRetries(t: Transfer, run: seq<World>, events: seq<Event>, start: nat, end: nat)
    requires IsRun(run, events) && Inv(run[0]) && start <= end < |run| && LeftAlone(t, run, events, start, end)
    ensures t.Underway(run[end])
    decreases end
  {
    if start < end {
      var k := end - 1;
      LeftAloneSoFar(t, run, events, start, k, end);
      OverlappingRetries(t, run, events, start, k);
      StepAt(run, events, k, end);
      t.StepStaysUnderway(run[k], events[k]);
    }
  }

  /** Request `q` was on its way at step `a` with chunk `k`, and is answered Done by `end`. */
  ghost predicate AckedBy(t: Transfer, run: seq<World>, start: nat, end: nat, k: nat, q: Pid, a: nat) {
    && start <= a <= end < |run|
    && q in run[a].procs && run[a].procs[q].Selecting? && run[a].procs[q].b == t.b && run[a].procs[q].f == t.f
    && t.SendsChunk(run[a].procs[q].job, k)
    && q in run[end].procs && run[end].procs[q] == Finished(Done)
  }

  lemma {:induction false} RunOnItsWay(t: Transfer, run: seq<World>, events: seq<Event>, start: nat, a: nat, end: nat,
                                       q: Pid, job: Job, k: nat)
    requires IsRun(run, events) && Inv(run[0]) && start <= a <= end < |run| && LeftAlone(t, run, events, start, end)
    requires t.SendsChunk(job, k) && t.chunks[k] != []
    requires q in run[a].procs && run[a].procs[q] == Selecting(t.b, t.f, job)
    ensures t.Underway(run[end]) && q in run[end].procs && t.OnItsWay(run[end], run[end].procs[q], job, k)
    decreases end
  {
    OverlappingRetries(t, run, events, start, end);
    if a < end {
      var m := end - 1;
      LeftAloneSoFar(t, run, events, start, m, end);
      RunOnItsWay(t, run, events, start, a, m, q, job, k);
      StepAt(run, events, m, end);
      t.StepOnItsWay(run[m], events[m], q, job, k);
    }
  }

  ghost predicate Acked(t: Transfer, run: seq<World>, start: nat, end: nat, k: nat) {
    exists q: Pid, a: nat :: AckedBy(t, run, start, end, k, q, a)
  }

  /** Every chunk with bytes in it has been acknowledged, to one of its requests. */
  ghost predicate AllAcked(t: Transfer, run: seq<World>, start: nat, end: nat) {
    forall k: nat :: k < |t.chunks| && t.chunks[k] != [] ==> Acked(t, run, start, end, k)
  }

  /** An acknowledged chunk is in the file. */
  lemma AckedArrived(t: Transfer, run: seq<World>, events: seq<Event>, start: nat, end: nat, k: nat)
    requires IsRun(run, events) && Inv(run[0]) && start <= end < |run| && LeftAlone(t, run, events, start, end)
    requires k < |t.chunks| && t.chunks[k] != [] && Acked(t, run, start, end, k)
    ensures t.Underway(run[end]) && |t.Upto(k + 1)| <= |run[end].db.blobs[t.oid]|
  {
    var q: Pid, a: nat :| AckedBy(t, run, start, end, k, q, a);
    RunOnItsWay(t, run, events, start, a, end, q, run[a].procs[q].job, k);
  }

  lemma {:induction false} Reaches(t: Transfer, run: seq<World>, events: seq<Event>, start: nat, end: nat, k: nat)
    requires IsRun(run, events) && Inv(run[0]) && start <= end < |run| && LeftAlone(t, run, events, start, end)
    requires AllAcked(t, run, start, end) && k <= |t.chunks|
    ensures t.Underway(run[end]) && |t.Upto(k)| <= |run[end].db.blobs[t.oid]|
  {
    OverlappingRetries(t, run, events, start, end);
    if k == 0 {
      var j: nat :| j <= |t.chunks| && run[end].db.blobs[t.oid] == t.Upto(j);
      t.UptoPrefix(0, j);
    } else {
      var last := k - 1;
      Reaches(t, run, events, start, end, last);
      if t.chunks[last] == [] {
        t.UptoNext(last);
      } else {
        AckedArrived(t, run, events, start, end, last);
      }
    }
  }

  /** At-least-once delivery is exactly-once in effect, overlapping retries included: once
      every chunk has been acknowledged to some request for it, the file is what it was
      before and every chunk once, in order. */
  lemma EveryChunkOnce(t: Transfer, run: seq<World>, events: seq<Event>, start: nat, end: nat)
    requires IsRun(run, events) && Inv(run[0]) && start <= end < |run| && LeftAlone(t, run, events, start, end)
    requires AllAcked(t, run, start, end)
    ensures t.oid in run[end].db.blobs && run[end].db.blobs[t.oid] == t.base + Flatten(t.chunks)
  {
    var all := |t.chunks|;
    Reaches(t, run, events, start, end, all);
    var j: nat :| j <= all && run[end].db.blobs[t.oid] == t.Upto(j);
    t.UptoPrefix(j, all);
    t.SameLength(j, all);
    assert t.chunks[..all] == t.chunks;
  }

  /** While a client is sending its last chunk, those before having arrived, no request for
      that chunk is answered Conflict, however many of them and of the earlier ones are still
      under way. (A client that sends chunk after chunk is at any time sending the last chunk
      of a shorter upload.) */
  lemma {:induction false} SentChunkNeverConflicts(
    t: Transfer, run: seq<World>, events: seq<Event>, start: nat, a: nat, end: nat, q: Pid, job: Job, k: nat)
    requires IsRun(run, events) && Inv(run[0]) && start <= a <= end < |run| && LeftAlone(t, run, events, start, end)
    requires |t.chunks| == k + 1 && t.SendsChunk(job, k) && |t.Upto(k)| <= |run[start].db.blobs[t.oid]|
    requires q in run[a].procs && run[a].procs[q] == Selecting(t.b, t.f, job)
    ensures q in run[end].procs && t.Unopposed(run[end].procs[q], job) && run[end].procs[q] != Finished(Conflict)
    decreases end
  {
    if a < end {
      var m := end - 1;
      LeftAloneSoFar(t, run, events, start, m, end);
      SentChunkNeverConflicts(t, run, events, start, a, m, q, job, k);
      OverlappingRetries(t, run, events, start, m);
      OverlappingRetries(t, run, events, start, end);
      ContentOnlyGrows(run, events, start, m, t.id);
      StepAt(run, events, m, end);
      t.StepUnopposed(run[m], events[m], q, job, k);
    }
  }
}
