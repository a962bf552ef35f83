/** What runs of the service do to one file from its row insert on: who commits to it, what
    a creator's body becomes, and what a creation that came to nothing leaves behind. */
module Creation {
  import opened ByteStrings
  import opened Tables
  import opened Service
  import opened Interleaving
  import opened Refinement
  import opened Histories

  // ---------------------------------------------------------------------------
  // Commits to one object
  // ---------------------------------------------------------------------------

  /** The step commits a body to object `oid`. */
  predicate CommitsTo(w: World, e: Event, oid: Oid) {
    e.EndOfBody? && e.p in w.procs && Commits(w, w.procs[e.p]) && w.procs[e.p].oid == oid
  }

  function BodyOf(w: World, e: Event, oid: Oid): Bytes
    requires CommitsTo(w, e, oid)
  {
    w.procs[e.p].body.Whole()
  }

  ghost function OneBody(w: World, e: Event, oid: Oid): seq<Bytes> {
    if CommitsTo(w, e, oid) then [BodyOf(w, e, oid)] else []
  }

  /** The bodies committed to `oid` by the steps from `start` up to `end`, in order. */
  ghost function CommittedTo(run: seq<World>, events: seq<Event>, oid: Oid, start: nat, end: nat): seq<Bytes>
    requires IsRun(run, events) && start <= end < |run|
    decreases end
  {
    if start == end then []
    else CommittedTo(run, events, oid, start, end - 1) + OneBody(run[end - 1], events[end - 1], oid)
  }

  lemma StepLogs(w: World, e: Event, oid: Oid)
    requires Inv(w) && Enabled(w, e) && oid in w.log && oid in Apply(w, e).log
    ensures Apply(w, e).log[oid] == w.log[oid] + OneBody(w, e, oid)
  {
    StepIsChange(w, e);
  }

  lemma StillLogged(run: seq<World>, events: seq<Event>, oid: Oid, start: nat, k: nat, end: nat)
    requires IsRun(run, events) && Inv(run[0]) && start <= k <= end < |run|
    requires oid in run[start].log && oid in run[end].log
    ensures oid in run[k].log
  {
    RunKeepsInv(run, events, start);
    RunExtends(run, events, start, k);
    RunExtends(run, events, k, end);
  }

  lemma CommittedToNext(run: seq<World>, events: seq<Event>, oid: Oid, start: nat, k: nat, next: nat)
    requires IsRun(run, events) && start <= k < next < |run| && next == k + 1
    ensures CommittedTo(run, events, oid, start, next) ==
            CommittedTo(run, events, oid, start, k) + OneBody(run[k], events[k], oid)
  {
  }

  lemma LogGainsOne(run: seq<World>, events: seq<Event>, oid: Oid, k: nat, next: nat)
    requires IsRun(run, events) && Inv(run[0]) && k < next < |run| && next == k + 1
    requires oid in run[k].log && oid in run[next].log
    ensures run[next].log[oid] == run[k].log[oid] + OneBody(run[k], events[k], oid)
  {
    StepAt(run, events, k, next);
    StepLogs(run[k], events[k], oid);
  }

  /** What is committed to an object in between two states is what its log gains. */
  lemma {:induction false} LogGains(run: seq<World>, events: seq<Event>, oid: Oid, start: nat, end: nat)
    requires IsRun(run, events) && Inv(run[0]) && start <= end < |run|
    requires oid in run[start].log && oid in run[end].log
    ensures run[end].log[oid] == run[start].log[oid] + CommittedTo(run, events, oid, start, end)
    decreases end
  {
    if start < end {
      var k := end - 1;
      StillLogged(run, events, oid, start, k, end);
      LogGains(run, events, oid, start, k);
      LogGainsOne(run, events, oid, k, end);
      CommittedToNext(run, events, oid, start, k, end);
    }
  }

  ghost predicate NoBytesTo(run: seq<World>, events: seq<Event>, oid: Oid, start: nat, end: nat)
    requires IsRun(run, events) && end < |run|
  {
    forall m :: start <= m < end && CommitsTo(run[m], events[m], oid) ==> BodyOf(run[m], events[m], oid) == []
  }

  lemma {:induction false} EmptyIffNoBytes(run: seq<World>, events: seq<Event>, oid: Oid, start: nat, end: nat)
    requires IsRun(run, events) && start <= end < |run|
    ensures Flatten(CommittedTo(run, events, oid, start, end)) == [] <==> NoBytesTo(run, events, oid, start, end)
    decreases end
  {
    if start < end {
      var k := end - 1;
      EmptyIffNoBytes(run, events, oid, start, k);
      CommittedToNext(run, events, oid, start, k, end);
      FlattenConcat(CommittedTo(run, events, oid, start, k), OneBody(run[k], events[k], oid));
      if CommitsTo(run[k], events[k], oid) {
        var body := BodyOf(run[k], events[k], oid);
        assert Flatten([body]) == body;
      }
    }
  }

  // ---------------------------------------------------------------------------
  // One request through a run
  // ---------------------------------------------------------------------------

  function Stage(proc: Proc): nat {
    match proc
    case PutStart(_, _, _) => 0
    case Selecting(_, _, _) => 1
    case Opening(_, _) => 2
    case Finished(_) => 4
    case _ => 3
  }

  /** Requests only move forward, and keep their object and their body as they do. */
  predicate Follows(proc: Proc, proc': Proc) {
    && Stage(proc) <= Stage(proc')
    && (proc.Opening? && proc'.Opening? ==> proc' == proc)
    && (proc.Opening? && proc.job.Upload? && proc'.Live() ==>
          proc'.Writing? && proc'.oid == proc.oid && proc'.body == proc.job.upload)
    && (proc.Live() && proc'.Live() ==>
          proc'.oid == proc.oid && (proc.Writing? ==> proc'.Writing? && proc'.body == proc.body))
    && (proc.Finished? ==> proc' == proc)
  }

  /** Step `e` is one of request `p` itself. */
  predicate IsStepOf(e: Event, p: Pid) {
    match e
    case Collect(_, _) | CreateBucket(_, _) => false
    case _ => e.p == p
  }

  lemma OtherStep(w: World, e: Event, p: Pid)
    requires Enabled(w, e) && p in w.procs && !IsStepOf(e, p)
    ensures p in Apply(w, e).procs && Apply(w, e).procs[p] == w.procs[p]
  {
  }

  lemma StepFollows(w: World, e: Event, p: Pid)
    requires Enabled(w, e) && p in w.procs
    ensures p in Apply(w, e).procs && Follows(w.procs[p], Apply(w, e).procs[p])
  {
    if !IsStepOf(e, p) {
      OtherStep(w, e, p);
    }
  }

  lemma {:induction false} RunFollows(run: seq<World>, events: seq<Event>, p: Pid, start: nat, end: nat)
    requires IsRun(run, events) && start <= end < |run| && p in run[start].procs
    ensures p in run[end].procs && Follows(run[start].procs[p], run[end].procs[p])
    decreases end
  {
    if start < end {
      var k := end - 1;
      RunFollows(run, events, p, start, k);
      assert Next(run[k], events[k], run[k + 1]);
      StepFollows(run[k], events[k], p);
    }
  }

  // ---------------------------------------------------------------------------
  // While a handle is open, nobody else commits
  // ---------------------------------------------------------------------------

  lemma OpenStepFreezes(w: World, e: Event, p: Pid)
    requires Inv(w) && Enabled(w, e)
    requires p in w.procs && w.procs[p].Live() && Apply(w, e).procs[p].Live()
    ensures !CommitsTo(w, e, w.procs[p].oid)
  {
  }

  /** A handle that is open in two states is open in between. */
  lemma StaysOpen(run: seq<World>, events: seq<Event>, p: Pid, start: nat, m: nat, end: nat)
    requires IsRun(run, events) && start <= m <= end < |run|
    requires p in run[start].procs && run[start].procs[p].Live()
    requires p in run[end].procs && run[end].procs[p].Live()
    ensures p in run[m].procs && run[m].procs[p].Live() && run[m].procs[p].oid == run[start].procs[p].oid
  {
    RunFollows(run, events, p, start, m);
    RunFollows(run, events, p, m, end);
  }

  lemma NobodyElseCommits(run: seq<World>, events: seq<Event>, p: Pid, start: nat, m: nat, end: nat)
    requires IsRun(run, events) && Inv(run[0]) && start <= m < end < |run|
    requires p in run[start].procs && run[start].procs[p].Live()
    requires p in run[end].procs && run[end].procs[p].Live()
    ensures !CommitsTo(run[m], events[m], run[start].procs[p].oid)
  {
    StaysOpen(run, events, p, start, m, end);
    var next := m + 1;
    StaysOpen(run, events, p, start, next, end);
    StepAt(run, events, m, next);
    OpenStepFreezes(run[m], events[m], p);
  }

  lemma {:induction false} NothingCommitted(run: seq<World>, events: seq<Event>, oid: Oid, start: nat, end: nat)
    requires IsRun(run, events) && start <= end < |run|
    requires forall m :: start <= m < end ==> !CommitsTo(run[m], events[m], oid)
    ensures CommittedTo(run, events, oid, start, end) == []
    decreases end
  {
    if start < end {
      var k := end - 1;
      NothingCommitted(run, events, oid, start, k);
      CommittedToNext(run, events, oid, start, k, end);
    }
  }

  /** For as long as a request has its handle open nobody commits to the file: what is
      committed at the end of that time is what was committed at its beginning. */
  lemma OpenHandleFreezes(run: seq<World>, events: seq<Event>, p: Pid, start: nat, end: nat)
    requires IsRun(run, events) && Inv(run[0]) && start <= end < |run|
    requires p in run[start].procs && run[start].procs[p].Live()
    requires p in run[end].procs && run[end].procs[p].Live()
    ensures run[end].procs[p].oid == run[start].procs[p].oid
    ensures var oid := run[start].procs[p].oid;
            && (forall m :: start <= m < end ==> !CommitsTo(run[m], events[m], oid))
            && (oid in run[end].log ==>
                  && oid in run[start].log && run[end].log[oid] == run[start].log[oid]
                  && oid in run[end].db.blobs && oid in run[start].db.blobs
                  && run[end].db.blobs[oid] == run[start].db.blobs[oid])
  {
    var oid := run[start].procs[p].oid;
    StaysOpen(run, events, p, start, end, end);
    forall m | start <= m < end
      ensures !CommitsTo(run[m], events[m], oid)
    {
      NobodyElseCommits(run, events, p, start, m, end);
    }
    RunKeepsInv(run, events, start);
    RunKeepsInv(run, events, end);
    if oid in run[end].log {
      RunExtends(run, events, start, end);
      assert ProcOk(run[start].db, run[start].procs[p]);
      LogGains(run, events, oid, start, end);
      NothingCommitted(run, events, oid, start, end);
    }
  }

  // ---------------------------------------------------------------------------
  // The creator's block
  // ---------------------------------------------------------------------------

  /** Step `i` inserts the row of a new file for the PUT request `p`. */
  ghost predicate Creates(run: seq<World>, events: seq<Event>, p: Pid, i: nat)
    requires IsRun(run, events)
  {
    && i < |events| && events[i].Insert? && events[i].p == p
    && p in run[i].procs && run[i].procs[p].PutStart? && run[i].procs[p].b in run[i].db.buckets
    && !HasFile(run[i].db, run[i].procs[p].b, run[i].procs[p].f)
  }

  lemma AfterInsert(run: seq<World>, events: seq<Event>, p: Pid, i: nat)
    requires IsRun(run, events) && Inv(run[0]) && Creates(run, events, p, i)
    ensures var w, w', oid := run[i], run[i + 1], run[i].db.nextOid;
            && Inv(w')
            && p in w'.procs && w'.procs[p] == Opening(oid, Upload(w.procs[p].body))
            && oid in w'.log && w'.log[oid] == [] && oid in w'.db.blobs && w'.db.blobs[oid] == []
            && w.db.nextId in w'.db.files && w'.db.files[w.db.nextId].blob == oid
            && w'.db.files[w.db.nextId].Named(w.procs[p].b, w.procs[p].f)
            && w.procs[p].b in w'.db.buckets && w.db.nextId < w'.db.nextId && oid < w'.db.nextOid
  {
    StepAt(run, events, i, i + 1);
  }

  /** Step `j` opens the handle of request `p`, step `k` commits its body. */
  ghost predicate OpensAndCommits(run: seq<World>, events: seq<Event>, p: Pid, j: nat, k: nat)
    requires IsRun(run, events)
  {
    && j < k < |events|
    && events[j] == OpenHandle(p)
    && events[k].EndOfBody? && events[k].p == p && p in run[k].procs && Commits(run[k], run[k].procs[p])
  }

  /** The handle is open from the step that opens it to the one that commits. */
  lemma OpenUntilCommit(run: seq<World>, events: seq<Event>, p: Pid, j: nat, next: nat, k: nat)
    requires IsRun(run, events) && OpensAndCommits(run, events, p, j, k) && next == j + 1
    ensures p in run[j].procs && run[j].procs[p].Opening? && run[j].procs[p].oid == run[k].procs[p].oid
    ensures p in run[next].procs && run[next].procs[p].Live() && run[next].procs[p].oid == run[k].procs[p].oid
    ensures run[next].log == run[j].log && run[next].db == run[j].db
  {
    assert Next(run[j], events[j], run[j + 1]);
    RunFollows(run, events, p, next, k);
  }

  /** A body that is committed is one contiguous block at the end of the file: what it
      comes after is exactly what was committed when its handle was opened. */
  lemma CommittedBlock(run: seq<World>, events: seq<Event>, p: Pid, j: nat, k: nat, after: nat)
    requires IsRun(run, events) && Inv(run[0]) && OpensAndCommits(run, events, p, j, k) && after == k + 1
    ensures var oid, body := run[k].procs[p].oid, run[k].procs[p].body.Whole();
            && oid in run[j].log && oid in run[after].log && oid in run[j].db.blobs && oid in run[after].db.blobs
            && run[after].log[oid] == run[j].log[oid] + [body]
            && run[after].db.blobs[oid] == run[j].db.blobs[oid] + body
  {
    var next := j + 1;
    OpenUntilCommit(run, events, p, j, next, k);
    OpenHandleFreezes(run, events, p, next, k);
    StepAt(run, events, k, after);
    CommitAppendsBody(run[k], p, events[k].answered);
  }

  /** Until a request has its handle open, it commits nothing. */
  lemma OthersCommit(run: seq<World>, events: seq<Event>, p: Pid, oid: Oid, start: nat, j: nat)
    requires IsRun(run, events) && start <= j < |run|
    requires p in run[start].procs && p in run[j].procs && Stage(run[j].procs[p]) < 3
    ensures forall m :: start <= m < j && CommitsTo(run[m], events[m], oid) ==> events[m].p != p
  {
    forall m | start <= m < j && CommitsTo(run[m], events[m], oid)
      ensures events[m].p != p
    {
      RunFollows(run, events, p, start, m);
      RunFollows(run, events, p, m, j);
    }
  }

  /** What the file holds when its creator opens its handle is what others have committed
      to it since the row insert. */
  lemma BeforeTheBlock(run: seq<World>, events: seq<Event>, p: Pid, i: nat, first: nat, j: nat)
    requires IsRun(run, events) && Inv(run[0]) && Creates(run, events, p, i) && first == i + 1 && first <= j < |run|
    requires p in run[j].procs && run[j].procs[p].Opening? && run[i].db.nextOid in run[j].log
    ensures var oid := run[i].db.nextOid;
            && run[j].procs[p] == Opening(oid, Upload(run[i].procs[p].body))
            && (forall m :: i < m < j && CommitsTo(run[m], events[m], oid) ==> events[m].p != p)
            && oid in run[j].db.blobs
            && run[j].db.blobs[oid] == Flatten(CommittedTo(run, events, oid, first, j))
  {
    var oid := run[i].db.nextOid;
    AfterInsert(run, events, p, i);
    RunFollows(run, events, p, first, j);
    LogGains(run, events, oid, first, j);
    assert run[j].log[oid] == CommittedTo(run, events, oid, first, j);
    RunKeepsInv(run, events, j);
    OthersCommit(run, events, p, oid, first, j);
  }

  /** A creating PUT whose body is committed: what is in front of its block is what the
      commits of others between its row insert and its handle opening brought, in their
      order; so its block is the whole content exactly if those brought no bytes. */
  lemma CreatorsBlock(run: seq<World>, events: seq<Event>, p: Pid, i: nat, j: nat, k: nat, after: nat)
    requires IsRun(run, events) && Inv(run[0])
    requires Creates(run, events, p, i) && i < j && OpensAndCommits(run, events, p, j, k) && after == k + 1
    ensures var oid, body := run[i].db.nextOid, run[i].procs[p].body.Whole();
            && run[k].procs[p].oid == oid && run[k].procs[p].body.Whole() == body
            && (forall m :: i < m < j && CommitsTo(run[m], events[m], oid) ==> events[m].p != p)
            && oid in run[after].db.blobs
            && run[after].db.blobs[oid] == Flatten(CommittedTo(run, events, oid, i + 1, j)) + body
            && (run[after].db.blobs[oid] == body <==> NoBytesTo(run, events, oid, i + 1, j))
  {
    var first, next, oid := i + 1, j + 1, run[i].db.nextOid;
    AfterInsert(run, events, p, i);
    RunFollows(run, events, p, first, j);
    RunFollows(run, events, p, first, k);
    OpenUntilCommit(run, events, p, j, next, k);
    CommittedBlock(run, events, p, j, k, after);
    BeforeTheBlock(run, events, p, i, first, j);
    EmptyIffNoBytes(run, events, oid, first, j);
    BlockIsAll(run[j].db.blobs[oid], run[k].procs[p].body.Whole());
  }

  lemma BlockIsAll(before: Bytes, body: Bytes)
    ensures before + body == body <==> before == []
  {
    assert before == [] ==> before + body == body;
    assert before != [] ==> |before + body| != |body|;
  }

  /** Some step takes the request to stage `s`. */
  lemma {:induction false} StageReached(run: seq<World>, events: seq<Event>, p: Pid, start: nat, end: nat, s: nat)
    returns (m: nat)
    requires IsRun(run, events) && start <= end < |run| && p in run[start].procs && p in run[end].procs
    requires Stage(run[start].procs[p]) < s <= Stage(run[end].procs[p])
    ensures start <= m < end && p in run[m].procs && p in run[m + 1].procs
    ensures Stage(run[m].procs[p]) < s <= Stage(run[m + 1].procs[p])
    decreases end
  {
    var k := end - 1;
    RunFollows(run, events, p, start, k);
    if Stage(run[k].procs[p]) < s {
      m := k;
    } else {
      m := StageReached(run, events, p, start, k, s);
    }
  }

  /** The commit that answers a creating PUT with Done. */
  lemma DoneByCommit(run: seq<World>, events: seq<Event>, p: Pid, i: nat, n: nat) returns (k: nat)
    requires IsRun(run, events) && Inv(run[0]) && Creates(run, events, p, i) && i < n < |run|
    requires p in run[n].procs && run[n].procs[p] == Finished(Done)
    ensures i < k < n && events[k] == EndOfBody(p, true)
    ensures p in run[k].procs && run[k].procs[p].Live() && Commits(run[k], run[k].procs[p])
  {
    var first := i + 1;
    AfterInsert(run, events, p, i);
    k := StageReached(run, events, p, first, n, 4);
    var after := k + 1;
    RunFollows(run, events, p, first, k);
    RunFollows(run, events, p, after, n);
    StepAt(run, events, k, after);
    DoneComesFrom(run[k], events[k], p);
  }

  lemma OpenedBy(w: World, e: Event, p: Pid)
    requires Enabled(w, e) && p in w.procs && w.procs[p].Opening?
    requires p in Apply(w, e).procs && Apply(w, e).procs[p].Live()
    ensures e == OpenHandle(p)
  {
  }

  /** A creating PUT that is answered Done has opened its handle and committed its body in
      between, and so is a block of the content (CreatorsBlock). */
  lemma DoneCreatorCommitted(run: seq<World>, events: seq<Event>, p: Pid, i: nat, n: nat) returns (j: nat, k: nat)
    requires IsRun(run, events) && Inv(run[0]) && Creates(run, events, p, i) && i < n < |run|
    requires p in run[n].procs && run[n].procs[p] == Finished(Done)
    ensures i < j < k < n && OpensAndCommits(run, events, p, j, k) && events[k] == EndOfBody(p, true)
  {
    var first := i + 1;
    AfterInsert(run, events, p, i);
    k := DoneByCommit(run, events, p, i, n);
    j := StageReached(run, events, p, first, k, 3);
    var next := j + 1;
    RunFollows(run, events, p, first, j);
    RunFollows(run, events, p, next, k);
    StepAt(run, events, j, next);
    OpenedBy(run[j], events[j], p);
  }

  // ---------------------------------------------------------------------------
  // How long the file lives, and what becomes of requests that outlive it
  // ---------------------------------------------------------------------------

  /** A file created at `now` is not collected before `now + ttl` has passed, and never if
      its bucket has no time to live. */
  lemma CreatedFileLives(run: seq<World>, events: seq<Event>, p: Pid, i: nat, n: nat)
    requires IsRun(run, events) && Inv(run[0]) && Creates(run, events, p, i) && i < n < |run|
    requires var ttl := run[i].db.buckets[run[i].procs[p].b];
             ttl.Some? ==> forall m :: i < m < n && events[m].Collect? ==> events[m].now <= events[i].now + ttl.value
    ensures run[i].db.nextId in run[n].db.files
    ensures run[n].db.files[run[i].db.nextId].Named(run[i].procs[p].b, run[i].procs[p].f)
  {
    var first, id := i + 1, run[i].db.nextId;
    AfterInsert(run, events, p, i);
    StepAt(run, events, i, first);
    if id !in run[n].db.files {
      var m := CollectedOnlyWhenDue(run, events, first, n, id);
      assert false;
    }
    RunExtends(run, events, first, n);
  }

  /** A request whose file is collected before it has finished is answered Internal, by
      whatever its next step is: never Done, and never Conflict. */
  lemma CollectedFails(w: World, e: Event, p: Pid)
    requires Inv(w) && Enabled(w, e) && IsStepOf(e, p) && p in w.procs
    requires || ((w.procs[p].Opening? || w.procs[p].Live()) && w.procs[p].oid !in w.db.blobs)
             || (w.procs[p].Selecting? && w.procs[p].job.CompareAll? && w.procs[p].b in w.db.buckets
                 && !HasFile(w.db, w.procs[p].b, w.procs[p].f))
    ensures Apply(w, e) == Set(w, p, Finished(Internal))
  {
  }

  // ---------------------------------------------------------------------------
  // A creation that came to nothing
  // ---------------------------------------------------------------------------

  /** How far a PUT of `body` to the name of the empty file `oid` can get. */
  predicate Rejected(proc: Proc, b: string, f: string, oid: Oid, body: Body) {
    match proc
    case PutStart(bucket, filename, upload) => bucket == b && filename == f && upload == body
    case Selecting(bucket, filename, job) => bucket == b && filename == f && job == CompareAll(body)
    case Opening(o, job) => o == oid && job == CompareAll(body)
    case Comparing(o, base, start, upload, _) => o == oid && base == [] && start == 0 && upload == body
    case Finished(r) => r == Conflict
    case _ => false
  }

  ghost predicate IsEmptyFile(db: Db, id: FileId, b: string, f: string, oid: Oid) {
    && b in db.buckets && id in db.files && db.files[id].Named(b, f) && db.files[id].blob == oid
    && oid in db.blobs && db.blobs[oid] == []
  }

  lemma ChunkRejected(db: Db, proc: Proc, b: string, f: string, oid: Oid, body: Body)
    requires ProcOk(db, proc) && proc.Comparing? && Rejected(proc, b, f, oid, body) && body.Whole() != []
    ensures proc.matched < |body.chunks| && Rejected(Chunk(proc), b, f, oid, body)
  {
    assert body.chunks[..|body.chunks|] == body.chunks;
  }

  lemma StepRejects(w: World, e: Event, q: Pid, id: FileId, b: string, f: string, oid: Oid, body: Body)
    requires Inv(w) && Enabled(w, e) && IsEmptyFile(w.db, id, b, f, oid) && body.Whole() != []
    requires q in w.procs && Rejected(w.procs[q], b, f, oid, body)
    ensures q in Apply(w, e).procs
    ensures Rejected(Apply(w, e).procs[q], b, f, oid, body) || e == Drop(q)
  {
    if !IsStepOf(e, q) {
      OtherStep(w, e, q);
    } else if w.procs[q].Comparing? {
      assert ProcOk(w.db, w.procs[q]);
      ChunkRejected(w.db, w.procs[q], b, f, oid, body);
    } else if w.procs[q].Selecting? {
      SameFile(w.db, b, f, id);
    } else if w.procs[q].PutStart? {
      assert HasFile(w.db, b, f);
    }
  }

  /** The row a creation inserted, while it is there. */
  lemma RowStays(run: seq<World>, events: seq<Event>, p: Pid, i: nat, m: nat, n: nat)
    requires IsRun(run, events) && Inv(run[0]) && Creates(run, events, p, i) && i < m <= n < |run|
    requires run[i].db.nextId in run[n].db.files
    ensures var id, oid := run[i].db.nextId, run[i].db.nextOid;
            && Inv(run[m]) && run[i].procs[p].b in run[m].db.buckets
            && id in run[m].db.files && run[m].db.files[id].Named(run[i].procs[p].b, run[i].procs[p].f)
            && run[m].db.files[id].blob == oid && oid in run[m].db.blobs && oid in run[m].log
  {
    AfterInsert(run, events, p, i);
    RunKeepsInv(run, events, m);
    RunExtends(run, events, i + 1, m);
    RunExtends(run, events, m, n);
  }

  /** As long as no bytes are committed to the new file it is there, and empty. */
  lemma StaysEmpty(run: seq<World>, events: seq<Event>, p: Pid, i: nat, m: nat, n: nat)
    requires IsRun(run, events) && Inv(run[0]) && Creates(run, events, p, i) && i < m <= n < |run|
    requires run[i].db.nextId in run[n].db.files
    requires NoBytesTo(run, events, run[i].db.nextOid, i + 1, n)
    ensures IsEmptyFile(run[m].db, run[i].db.nextId, run[i].procs[p].b, run[i].procs[p].f, run[i].db.nextOid)
  {
    var first, oid := i + 1, run[i].db.nextOid;
    AfterInsert(run, events, p, i);
    RowStays(run, events, p, i, m, n);
    LogGains(run, events, oid, first, m);
    assert run[m].log[oid] == CommittedTo(run, events, oid, first, m);
    EmptyIffNoBytes(run, events, oid, first, m);
  }

  ghost predicate Dropped(events: seq<Event>, q: Pid, start: nat, end: nat) {
    exists m :: start <= m < end && m < |events| && events[m] == Drop(q)
  }

  /** A creating PUT that is broken off, by whatever step or failure, takes the name: as long
      as nobody commits bytes to the empty file it left, and it is not collected, the file
      stays empty, and no PUT with bytes in its body is answered Done, whatever other
      requests do meanwhile; it ends in Conflict unless it is itself broken off. */
  lemma {:induction false} AbortedCreationTakesTheName(
    run: seq<World>, events: seq<Event>, p: Pid, i: nat, q: Pid, a: nat, n: nat, body: Body)
    requires IsRun(run, events) && Inv(run[0]) && Creates(run, events, p, i) && i < a <= n < |run|
    requires run[i].db.nextId in run[n].db.files
    requires NoBytesTo(run, events, run[i].db.nextOid, i + 1, n)
    requires q in run[a].procs && run[a].procs[q] == PutStart(run[i].procs[p].b, run[i].procs[p].f, body)
    requires body.Whole() != []
    ensures IsEmptyFile(run[n].db, run[i].db.nextId, run[i].procs[p].b, run[i].procs[p].f, run[i].db.nextOid)
    ensures q in run[n].procs && run[n].procs[q] != Finished(Done)
    ensures Rejected(run[n].procs[q], run[i].procs[p].b, run[i].procs[p].f, run[i].db.nextOid, body)
            || (run[n].procs[q] == Finished(Internal) && Dropped(events, q, a, n))
    decreases n
  {
    var id, oid, b, f := run[i].db.nextId, run[i].db.nextOid, run[i].procs[p].b, run[i].procs[p].f;
    StaysEmpty(run, events, p, i, n, n);
    if a < n {
      var k := n - 1;
      StaysEmpty(run, events, p, i, k, n);
      AbortedCreationTakesTheName(run, events, p, i, q, a, k, body);
      StepAt(run, events, k, n);
      if Rejected(run[k].procs[q], b, f, oid, body) {
        StepRejects(run[k], events[k], q, id, b, f, oid, body);
        assert events[k] == Drop(q) ==> Dropped(events, q, a, n);
      } else {
        StepFollows(run[k], events[k], q);
      }
    }
  }
}
