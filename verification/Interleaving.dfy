/** All requests at once: the store as a transition system whose steps are single
    transactions, single chunks and single handle openings, in any order. */
module Interleaving {
  import opened ByteStrings
  import opened LargeObjects
  import opened Tables
  import opened FileHandles
  import opened Service
  import opened Maintenance

  type Pid = nat

  /** What a request does with the file once it has a handle. */
  datatype Job =
    Upload(upload: Body) | CompareAll(upload: Body) | AppendAt(rule: AppendRule, offset: u64, upload: Body) | Explore

  /** Where one request has got to. `base` is the committed content when its handle was
      opened, `content` what its open transaction sees. */
  datatype Proc =
    | PutStart(b: string, f: string, body: Body)
    | Selecting(b: string, f: string, job: Job)
    | Opening(oid: Oid, job: Job)
    | Writing(oid: Oid, base: Bytes, content: Bytes, body: Body, sent: nat)
    | Comparing(oid: Oid, base: Bytes, start: nat, body: Body, matched: nat)
    | Exploring(oid: Oid, base: Bytes, emitted: nat)
    | Finished(response: Response)
  {
    /** Has an open handle. */
    predicate Live() { Writing? || Comparing? || Exploring? }
  }

  /** `log` is history only: for each object the bodies committed to it, in order. */
  datatype World = World(db: Db, procs: map<Pid, Proc>, log: map<Oid, seq<Bytes>>)

  datatype Event =
    | Arrive(p: Pid, request: Proc)
    | Insert(p: Pid, now: int)
    | Select(p: Pid)
    | OpenHandle(p: Pid)
    | NextChunk(p: Pid)
    | EndOfBody(p: Pid, answered: bool)
    | Emit(p: Pid, n: nat)
    | Drop(p: Pid)
    | Collect(now: int, batch: set<FileId>)
    | CreateBucket(name: string, ttl: Option<int>)

  /** At most one handle to a file is open at a time: OpenHandle waits for that. */
  ghost predicate NoHandleOn(procs: map<Pid, Proc>, oid: Oid) {
    forall q :: q in procs && procs[q].Live() ==> procs[q].oid != oid
  }

  ghost predicate Enabled(w: World, e: Event) {
    match e
    case Arrive(p, request) =>
      p !in w.procs &&
      (request.PutStart? || (request.Selecting? && (request.job.AppendAt? || request.job.Explore?)))
    case Insert(p, _) => p in w.procs && w.procs[p].PutStart?
    case Select(p) => p in w.procs && w.procs[p].Selecting?
    case OpenHandle(p) => p in w.procs && w.procs[p].Opening? && NoHandleOn(w.procs, w.procs[p].oid)
    case NextChunk(p) =>
      p in w.procs &&
      ((w.procs[p].Writing? && w.procs[p].sent < |w.procs[p].body.chunks|) ||
       (w.procs[p].Comparing? && w.procs[p].matched < |w.procs[p].body.chunks|))
    case EndOfBody(p, _) =>
      p in w.procs &&
      ((w.procs[p].Writing? && w.procs[p].sent == |w.procs[p].body.chunks|) ||
       (w.procs[p].Comparing? && w.procs[p].matched == |w.procs[p].body.chunks|))
    case Emit(p, n) =>
      p in w.procs && w.procs[p].Exploring? && w.procs[p].emitted + n <= |w.procs[p].base| &&
      (n == 0 ==> w.procs[p].emitted == |w.procs[p].base|)
    case Drop(p) => p in w.procs && !w.procs[p].Finished?
    case Collect(now, batch) => IsBatch(w.db, now, batch)
    case CreateBucket(name, _) => name !in w.db.buckets
  }

  /** What a request does when its handle opens on committed content `base`. */
  function FirstPhase(oid: Oid, base: Bytes, job: Job): Proc {
    match job
    case Upload(body) => Writing(oid, base, base, body, 0)
    case CompareAll(body) => Comparing(oid, base, 0, body, 0)
    case AppendAt(rule, offset, body) =>
      if rule.Appends(offset, |base|) then Writing(oid, base, base, body, 0)
      else if offset > I64_MAX then Finished(Internal)
      else Comparing(oid, base, offset, body, 0)
    case Explore => Exploring(oid, base, 0)
  }

  /** One chunk of the body written to, or compared with, the file. */
  function Chunk(proc: Proc): Proc
    requires (proc.Writing? && proc.sent < |proc.body.chunks|) || (proc.Comparing? && proc.matched < |proc.body.chunks|)
  {
    if proc.Writing? then
      var content := proc.content + proc.body.chunks[proc.sent];
      if |content| > I64_MAX then Finished(Internal)
      else proc.(content := content, sent := proc.sent + 1)
    else
      var c := proc.body.chunks[proc.matched];
      var rest := Tail(proc.base, proc.start + |Flatten(proc.body.chunks[..proc.matched])|);
      if |rest| < |c| || rest[..|c|] != c then Finished(Conflict)
      else proc.(matched := proc.matched + 1)
  }

  /** How a comparison ends when all chunks have matched. */
  function Compared(proc: Proc): Response
    requires proc.Comparing?
  {
    if proc.body.broken then Internal
    else if Tail(proc.base, proc.start + |proc.body.Whole()|) == [] then Done
    else Conflict
  }

  /** The end of the body commits. */
  predicate Commits(w: World, proc: Proc) {
    proc.Writing? && !proc.body.broken && proc.oid in w.db.blobs
  }

  function Set(w: World, p: Pid, proc: Proc): World {
    w.(procs := w.procs[p := proc])
  }

  /** The bodies committed to an object so far. */
  function LogOf(w: World, oid: Oid): seq<Bytes> {
    if oid in w.log then w.log[oid] else []
  }

  ghost function Inserted(w: World, p: Pid, now: int): World
    requires Enabled(w, Insert(p, now))
  {
    var (b, f, body) := (w.procs[p].b, w.procs[p].f, w.procs[p].body);
    if b !in w.db.buckets then Set(w, p, Finished(BucketDoesNotExist))
    else if HasFile(w.db, b, f) then Set(w, p, Selecting(b, f, CompareAll(body)))
    else
      Set(w.(db := Claimed(w.db, now, b, f), log := w.log[w.db.nextOid := []]), p,
          Opening(w.db.nextOid, Upload(body)))
  }

  ghost function Selected(w: World, p: Pid): World
    requires Enabled(w, Select(p))
  {
    var (b, f, job) := (w.procs[p].b, w.procs[p].f, w.procs[p].job);
    if b !in w.db.buckets then Set(w, p, Finished(BucketDoesNotExist))
    else if HasFile(w.db, b, f) then Set(w, p, Opening(OidOf(w.db, b, f), job))
    else Set(w, p, Finished(if job.CompareAll? then Internal else FileDoesNotExist))
  }

  ghost function HandleOpened(w: World, p: Pid): World
    requires Enabled(w, OpenHandle(p))
  {
    var (oid, job) := (w.procs[p].oid, w.procs[p].job);
    Set(w, p, if oid in w.db.blobs then FirstPhase(oid, w.db.blobs[oid], job) else Finished(Internal))
  }

  ghost function ChunkDone(w: World, p: Pid): World
    requires Enabled(w, NextChunk(p))
  {
    Set(w, p, if w.procs[p].oid in w.db.blobs then Chunk(w.procs[p]) else Finished(Internal))
  }

  ghost function Ended(w: World, p: Pid, answered: bool): World
    requires Enabled(w, EndOfBody(p, answered))
  {
    var proc := w.procs[p];
    if proc.oid !in w.db.blobs then Set(w, p, Finished(Internal))
    else if proc.Comparing? then Set(w, p, Finished(Compared(proc)))
    else if proc.body.broken then Set(w, p, Finished(Internal))
    else
      Set(w.(db := SetBlob(w.db, proc.oid, Some(proc.content)),
             log := w.log[proc.oid := LogOf(w, proc.oid) + [proc.body.Whole()]]),
          p, Finished(if answered then Done else Internal))
  }

  ghost function Emitted(w: World, p: Pid, n: nat): World
    requires Enabled(w, Emit(p, n))
  {
    var proc := w.procs[p];
    if proc.oid !in w.db.blobs then Set(w, p, Finished(Internal))
    else if n == 0 then Set(w, p, Finished(Done))
    else Set(w, p, proc.(emitted := proc.emitted + n))
  }

  ghost function Apply(w: World, e: Event): World
    requires Enabled(w, e)
  {
    match e
    case Arrive(p, request) => Set(w, p, request)
    case Insert(p, now) => Inserted(w, p, now)
    case Select(p) => Selected(w, p)
    case OpenHandle(p) => HandleOpened(w, p)
    case NextChunk(p) => ChunkDone(w, p)
    case EndOfBody(p, answered) => Ended(w, p, answered)
    case Emit(p, n) => Emitted(w, p, n)
    case Drop(p) => Set(w, p, Finished(Internal))
    case Collect(now, batch) => w.(db := DeleteFiles(w.db, batch), log := w.log - BlobsOf(w.db, batch))
    case CreateBucket(name, ttl) => w.(db := w.db.(buckets := w.db.buckets[name := ttl]))
  }

  // ---------------------------------------------------------------------------
  // The invariant
  // ---------------------------------------------------------------------------

  /** What is true of one request: its object is not yet to be created; while its handle is
      open its base is what is committed (or the file is gone), it has written exactly the
      chunks it has sent, and what it has compared has matched. */
  ghost predicate ProcOk(db: Db, proc: Proc) {
    match proc
    case Opening(oid, _) => oid < db.nextOid
    case Writing(oid, base, content, body, sent) =>
      && oid < db.nextOid && (oid in db.blobs ==> base == db.blobs[oid])
      && sent <= |body.chunks| && content == base + Flatten(body.chunks[..sent]) && |content| <= I64_MAX
    case Comparing(oid, base, start, body, matched) =>
      && oid < db.nextOid && (oid in db.blobs ==> base == db.blobs[oid])
      && start <= I64_MAX && matched <= |body.chunks| && Flatten(body.chunks[..matched]) <= Tail(base, start)
    case Exploring(oid, base, emitted) =>
      && oid < db.nextOid && (oid in db.blobs ==> base == db.blobs[oid])
      && emitted <= |base|
    case _ => true
  }

  ghost predicate Exclusive(procs: map<Pid, Proc>) {
    forall p, q ::
      p in procs && q in procs && procs[p].Live() && procs[q].Live() && procs[p].oid == procs[q].oid ==> p == q
  }

  /** Committed content is exactly what was committed: the bodies, in commit order. */
  ghost predicate Logged(db: Db, log: map<Oid, seq<Bytes>>) {
    && log.Keys == db.blobs.Keys
    && forall oid :: oid in db.blobs ==> db.blobs[oid] == Flatten(log[oid])
  }

  ghost predicate Inv(w: World) {
    && Consistent(w.db)
    && Logged(w.db, w.log)
    && Exclusive(w.procs)
    && forall p :: p in w.procs ==> ProcOk(w.db, w.procs[p])
  }

  /** A step of one request that commits nothing. */
  lemma QuietStepKeepsInv(w: World, p: Pid, proc: Proc)
    requires Inv(w) && ProcOk(w.db, proc)
    requires proc.Live() ==>
               NoHandleOn(w.procs, proc.oid) || (p in w.procs && w.procs[p].Live() && w.procs[p].oid == proc.oid)
    ensures Inv(Set(w, p, proc))
  {
  }

  /** A change of the database that leaves alone every object a request may hold. */
  lemma DbStepKeepsProcs(db: Db, db': Db, proc: Proc)
    requires ProcOk(db, proc) && db.nextOid <= db'.nextOid
    requires proc.Live() && proc.oid in db'.blobs ==> proc.oid in db.blobs && db'.blobs[proc.oid] == db.blobs[proc.oid]
    ensures ProcOk(db', proc)
  {
  }

  /** The frame of every step that changes the database: the other requests do not notice. */
  lemma DbStepKeepsInv(w: World, db': Db, log': map<Oid, seq<Bytes>>, procs': map<Pid, Proc>)
    requires Inv(w) && Consistent(db') && Logged(db', log') && w.db.nextOid <= db'.nextOid
    requires forall q :: q in procs' ==>
               || (q in w.procs && procs'[q] == w.procs[q])
               || (!procs'[q].Live() && ProcOk(db', procs'[q]))
    requires forall q :: q in procs' && procs'[q].Live() && procs'[q].oid in db'.blobs ==>
               procs'[q].oid in w.db.blobs && db'.blobs[procs'[q].oid] == w.db.blobs[procs'[q].oid]
    ensures Inv(World(db', procs', log'))
  {
    forall q | q in procs'
      ensures ProcOk(db', procs'[q])
    {
      if q in w.procs && procs'[q] == w.procs[q] {
        DbStepKeepsProcs(w.db, db', w.procs[q]);
      }
    }
  }

  lemma InsertKeepsInv(w: World, p: Pid, now: int)
    requires Inv(w) && Enabled(w, Insert(p, now))
    ensures Inv(Inserted(w, p, now))
  {
    var (b, f) := (w.procs[p].b, w.procs[p].f);
    if b !in w.db.buckets {
      QuietStepKeepsInv(w, p, Finished(BucketDoesNotExist));
    } else if HasFile(w.db, b, f) {
      QuietStepKeepsInv(w, p, Selecting(b, f, CompareAll(w.procs[p].body)));
    } else {
      var w' := Inserted(w, p, now);
      InsertKeepsConsistent(w.db, b, f, DeleteAfter(now, w.db.buckets[b]));
      DbStepKeepsInv(w, w'.db, w'.log, w'.procs);
    }
  }

  lemma ChunkKeepsOk(db: Db, proc: Proc)
    requires ProcOk(db, proc)
    requires (proc.Writing? && proc.sent < |proc.body.chunks|) || (proc.Comparing? && proc.matched < |proc.body.chunks|)
    ensures ProcOk(db, Chunk(proc))
  {
    if proc.Writing? {
      FlattenTake(proc.body.chunks, proc.sent);
    } else {
      var done, c := Flatten(proc.body.chunks[..proc.matched]), proc.body.chunks[proc.matched];
      FlattenTake(proc.body.chunks, proc.matched);
      var whole := Tail(proc.base, proc.start);
      var rest := Tail(proc.base, proc.start + |done|);
      assert rest == whole[|done|..];
      if |c| <= |rest| && rest[..|c|] == c {
        assert whole[..|done|] == done;
        assert whole[..|done| + |c|] == done + c;
      }
    }
  }

  lemma CommitKeepsLogged(db: Db, log: map<Oid, seq<Bytes>>, oid: Oid, body: Bytes)
    requires Logged(db, log) && oid in db.blobs
    ensures Logged(SetBlob(db, oid, Some(db.blobs[oid] + body)), log[oid := log[oid] + [body]])
  {
    FlattenSnoc(log[oid], body);
  }

  /** What a commit does, in terms of the request: its whole body at the end of the file. */
  lemma CommitAppendsBody(w: World, p: Pid, answered: bool)
    requires Inv(w) && Enabled(w, EndOfBody(p, answered)) && Commits(w, w.procs[p])
    ensures var w' := Ended(w, p, answered);
            var proc := w.procs[p];
            && |w.db.blobs[proc.oid] + proc.body.Whole()| <= I64_MAX
            && w'.log == w.log[proc.oid := w.log[proc.oid] + [proc.body.Whole()]]
            && w'.db == SetBlob(w.db, proc.oid, Some(w.db.blobs[proc.oid] + proc.body.Whole()))
            && w'.procs == w.procs[p := Finished(if answered then Done else Internal)]
  {
    var proc := w.procs[p];
    assert ProcOk(w.db, proc);
    assert proc.body.chunks[..proc.sent] == proc.body.chunks;
  }

  /** A file nobody has a handle on any more has `body` added to it. */
  lemma GrowKeepsInv(w: World, oid: Oid, body: Bytes)
    requires Inv(w) && oid in w.db.blobs && NoHandleOn(w.procs, oid)
    requires |w.db.blobs[oid] + body| <= I64_MAX
    ensures Inv(World(SetBlob(w.db, oid, Some(w.db.blobs[oid] + body)), w.procs, w.log[oid := w.log[oid] + [body]]))
  {
    SetBlobKeepsConsistent(w.db, oid, Some(w.db.blobs[oid] + body));
    CommitKeepsLogged(w.db, w.log, oid, body);
    DbStepKeepsInv(w, SetBlob(w.db, oid, Some(w.db.blobs[oid] + body)), w.log[oid := w.log[oid] + [body]], w.procs);
  }

  lemma CommitKeepsInv(w: World, p: Pid, answered: bool)
    requires Inv(w) && Enabled(w, EndOfBody(p, answered)) && Commits(w, w.procs[p])
    ensures Inv(Ended(w, p, answered))
  {
    CommitAppendsBody(w, p, answered);
    var closed := Set(w, p, Finished(if answered then Done else Internal));
    QuietStepKeepsInv(w, p, Finished(if answered then Done else Internal));
    GrowKeepsInv(closed, w.procs[p].oid, w.procs[p].body.Whole());
  }

  lemma CollectKeepsInv(w: World, now: int, batch: set<FileId>)
    requires Inv(w) && IsBatch(w.db, now, batch)
    ensures Inv(Apply(w, Collect(now, batch)))
  {
    var w' := Apply(w, Collect(now, batch));
    DeleteKeepsConsistent(w.db, batch);
    DbStepKeepsInv(w, w'.db, w'.log, w'.procs);
  }

  lemma BucketKeepsInv(w: World, name: string, ttl: Option<int>)
    requires Inv(w)
    ensures Inv(w.(db := w.db.(buckets := w.db.buckets[name := ttl])))
  {
    var db' := w.db.(buckets := w.db.buckets[name := ttl]);
    assert db'.files == w.db.files && db'.blobs == w.db.blobs;
    DbStepKeepsInv(w, db', w.log, w.procs);
  }

  lemma OpenKeepsInv(w: World, p: Pid)
    requires Inv(w) && Enabled(w, OpenHandle(p))
    ensures Inv(HandleOpened(w, p))
  {
    var (oid, job) := (w.procs[p].oid, w.procs[p].job);
    if oid in w.db.blobs {
      var proc := FirstPhase(oid, w.db.blobs[oid], job);
      assert Flatten([]) == [];
      assert w.db.blobs[oid] + [] == w.db.blobs[oid];
      QuietStepKeepsInv(w, p, proc);
    } else {
      QuietStepKeepsInv(w, p, Finished(Internal));
    }
  }

  lemma NextChunkKeepsInv(w: World, p: Pid)
    requires Inv(w) && Enabled(w, NextChunk(p))
    ensures Inv(ChunkDone(w, p))
  {
    ChunkKeepsOk(w.db, w.procs[p]);
    QuietStepKeepsInv(w, p, if w.procs[p].oid in w.db.blobs then Chunk(w.procs[p]) else Finished(Internal));
  }

  lemma EndKeepsInv(w: World, p: Pid, answered: bool)
    requires Inv(w) && Enabled(w, EndOfBody(p, answered))
    ensures Inv(Ended(w, p, answered))
  {
    if Commits(w, w.procs[p]) {
      CommitKeepsInv(w, p, answered);
    } else {
      QuietStepKeepsInv(w, p, Ended(w, p, answered).procs[p]);
    }
  }

  /** Every step of every request, in any order, keeps the invariant. */
  lemma StepKeepsInv(w: World, e: Event)
    requires Inv(w) && Enabled(w, e)
    ensures Inv(Apply(w, e))
  {
    match e {
      case Insert(p, now) => InsertKeepsInv(w, p, now);
      case OpenHandle(p) => OpenKeepsInv(w, p);
      case NextChunk(p) => NextChunkKeepsInv(w, p);
      case EndOfBody(p, answered) => EndKeepsInv(w, p, answered);
      case Collect(now, batch) => CollectKeepsInv(w, now, batch);
      case CreateBucket(name, ttl) => BucketKeepsInv(w, name, ttl);
      case Arrive(p, request) => QuietStepKeepsInv(w, p, request);
      case Select(p) => SelectKeepsInv(w, p);
      case Emit(p, n) => QuietStepKeepsInv(w, p, Apply(w, e).procs[p]);
      case Drop(p) => QuietStepKeepsInv(w, p, Finished(Internal));
    }
  }

  lemma SelectKeepsInv(w: World, p: Pid)
    requires Inv(w) && Enabled(w, Select(p))
    ensures Inv(Selected(w, p))
  {
    var (b, f, job) := (w.procs[p].b, w.procs[p].f, w.procs[p].job);
    if b !in w.db.buckets {
      QuietStepKeepsInv(w, p, Finished(BucketDoesNotExist));
    } else if HasFile(w.db, b, f) {
      QuietStepKeepsInv(w, p, Opening(OidOf(w.db, b, f), job));
    } else {
      QuietStepKeepsInv(w, p, Finished(if job.CompareAll? then Internal else FileDoesNotExist));
    }
  }
}
