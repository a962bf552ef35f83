/** Every interleaving of requests refines a store that is simply, for each file name, the
    list of bodies committed to it. */
module Refinement {
  import opened ByteStrings
  import opened LargeObjects
  import opened Tables
  import opened FileHandles
  import opened Service
  import opened Interleaving

  type Name = (string, string)

  type Store = map<Name, seq<Bytes>>

  datatype Label =
    | Quiet
    | Created(name: Name)
    | Committed(name: Name, body: Bytes)
    | Matched(name: Name, start: nat, body: Bytes)
    | Read(name: Name, content: Bytes)
    | Collected(names: set<Name>)

  /** What the abstract store can do: create a file that is not there, add one whole body at
      the end of one that is, find a body in it, read it, drop files. Finding and reading
      tell the truth. */
  ghost predicate Allows(s: Store, act: Label) {
    match act
    case Quiet => true
    case Created(name) => name !in s
    case Committed(name, _) => name in s
    case Matched(name, start, body) => name in s && Tail(Flatten(s[name]), start) == body
    case Read(name, content) => name in s && Flatten(s[name]) == content
    case Collected(names) => names <= s.Keys
  }

  /** The store afterwards: only creating, committing and collecting change it. */
  ghost function After(s: Store, act: Label): Store {
    match act
    case Created(name) => s[name := []]
    case Committed(name, body) => if name in s then s[name := s[name] + [body]] else s
    case Collected(names) => s - names
    case _ => s
  }

  function NameOfRow(row: Row): Name {
    (row.bucket, row.filename)
  }

  ghost function Names(files: map<FileId, Row>): set<Name> {
    set id | id in files :: NameOfRow(files[id])
  }

  ghost function RowNamed(files: map<FileId, Row>, name: Name): (id: FileId)
    requires name in Names(files)
    ensures id in files && NameOfRow(files[id]) == name
  {
    var id :| id in files && NameOfRow(files[id]) == name;
    id
  }

  ghost predicate Good(db: Db, log: map<Oid, seq<Bytes>>) {
    Consistent(db) && Logged(db, log)
  }

  /** The bodies committed to each file since it was created. */
  ghost function Abs(db: Db, log: map<Oid, seq<Bytes>>): (s: Store)
    requires Good(db, log)
    ensures s.Keys == Names(db.files)
  {
    map name | name in Names(db.files) :: log[db.files[RowNamed(db.files, name)].blob]
  }

  ghost function NameOf(db: Db, oid: Oid): (name: Name)
    requires Consistent(db) && oid in db.blobs
    ensures name in Names(db.files)
  {
    assert HasOwner(db.files, oid);
    var id :| OwnedBy(db.files, oid, id);
    NameOfRow(db.files[id])
  }

  lemma AbsOfRow(db: Db, log: map<Oid, seq<Bytes>>, id: FileId)
    requires Good(db, log) && id in db.files
    ensures NameOfRow(db.files[id]) in Names(db.files)
    ensures Abs(db, log)[NameOfRow(db.files[id])] == log[db.files[id].blob]
    ensures NameOf(db, db.files[id].blob) == NameOfRow(db.files[id])
  {
    var name := NameOfRow(db.files[id]);
    var same := RowNamed(db.files, name);
    assert SameName(db.files, same, id);
    assert HasOwner(db.files, db.files[id].blob);
    var owner :| OwnedBy(db.files, db.files[id].blob, owner)
                 && NameOf(db, db.files[id].blob) == NameOfRow(db.files[owner]);
    assert SameBlob(db.files, owner, id);
  }

  lemma AbsOfObject(db: Db, log: map<Oid, seq<Bytes>>, oid: Oid)
    requires Good(db, log) && oid in db.blobs
    ensures NameOf(db, oid) in Abs(db, log) && Abs(db, log)[NameOf(db, oid)] == log[oid]
  {
    assert HasOwner(db.files, oid);
    var id :| OwnedBy(db.files, oid, id);
    AbsOfRow(db, log, id);
  }

  ghost predicate RowHeld(db: Db, log: map<Oid, seq<Bytes>>, s: Store, id: FileId) {
    && id in db.files && db.files[id].blob in log
    && NameOfRow(db.files[id]) in s && s[NameOfRow(db.files[id])] == log[db.files[id].blob]
  }

  /** A store that has every row's log under the row's name, and no other name, is the one. */
  lemma AbsIs(db: Db, log: map<Oid, seq<Bytes>>, s: Store)
    requires Good(db, log)
    requires forall id {:trigger RowHeld(db, log, s, id)} :: id in db.files ==> RowHeld(db, log, s, id)
    requires s.Keys <= Names(db.files)
    ensures Abs(db, log) == s
  {
    forall name | name in Names(db.files)
      ensures name in s && s[name] == Abs(db, log)[name]
    {
      var id := RowNamed(db.files, name);
      assert RowHeld(db, log, s, id);
    }
  }

  /** Same rows, same log: same store. */
  lemma SameAbs(db: Db, db': Db, log: map<Oid, seq<Bytes>>)
    requires Good(db, log) && Good(db', log) && db'.files == db.files
    ensures Abs(db', log) == Abs(db, log)
  {
  }

  lemma NamesOfMore(files: map<FileId, Row>, id: FileId, row: Row)
    requires id !in files
    ensures Names(files) + {NameOfRow(row)} <= Names(files[id := row])
  {
    forall n | n in Names(files) + {NameOfRow(row)}
      ensures n in Names(files[id := row])
    {
      var i := if n == NameOfRow(row) then id else RowNamed(files, n);
      assert i in files[id := row] && NameOfRow(files[id := row][i]) == n;
    }
  }

  lemma RowsAfterInsert(db: Db, log: map<Oid, seq<Bytes>>, id: FileId, row: Row, db': Db, i: FileId)
    requires Good(db, log) && id !in db.files && db'.files == db.files[id := row]
    requires row.blob !in db.blobs && NameOfRow(row) !in Names(db.files)
    requires i in db'.files
    ensures RowHeld(db', log[row.blob := []], Abs(db, log)[NameOfRow(row) := []], i)
  {
    if i != id {
      AbsOfRow(db, log, i);
    }
  }

  lemma NewRowAbs(db: Db, log: map<Oid, seq<Bytes>>, id: FileId, row: Row, db': Db)
    requires Good(db, log) && Good(db', log[row.blob := []])
    requires id !in db.files && db'.files == db.files[id := row]
    requires row.blob !in db.blobs && NameOfRow(row) !in Names(db.files)
    ensures Abs(db', log[row.blob := []]) == Abs(db, log)[NameOfRow(row) := []]
  {
    var s' := Abs(db, log)[NameOfRow(row) := []];
    forall i | i in db'.files
      ensures RowHeld(db', log[row.blob := []], s', i)
    {
      RowsAfterInsert(db, log, id, row, db', i);
    }
    NamesOfMore(db.files, id, row);
    AbsIs(db', log[row.blob := []], s');
  }

  lemma NamesAreFiles(db: Db, b: string, f: string)
    ensures (b, f) in Names(db.files) ==> HasFile(db, b, f)
  {
    if (b, f) in Names(db.files) {
      assert db.files[RowNamed(db.files, (b, f))].Named(b, f);
    }
  }

  lemma InsertAbs(db: Db, b: string, f: string, deleteAfter: Option<int>, log: map<Oid, seq<Bytes>>)
    requires Good(db, log) && !HasFile(db, b, f)
    ensures var db', log' := InsertFile(db, b, f, deleteAfter), log[db.nextOid := []];
            Good(db', log') && (b, f) !in Abs(db, log) && Abs(db', log') == Abs(db, log)[(b, f) := []]
  {
    InsertKeepsConsistent(db, b, f, deleteAfter);
    NamesAreFiles(db, b, f);
    NewRowAbs(db, log, db.nextId, Row(b, f, db.nextOid, deleteAfter), InsertFile(db, b, f, deleteAfter));
  }

  lemma GrowAbs(db: Db, log: map<Oid, seq<Bytes>>, oid: Oid, body: Bytes)
    requires Good(db, log) && oid in db.blobs && |db.blobs[oid] + body| <= I64_MAX
    ensures var db', log' := SetBlob(db, oid, Some(db.blobs[oid] + body)), log[oid := log[oid] + [body]];
            var name := NameOf(db, oid);
            && Good(db', log') && name in Abs(db, log)
            && Abs(db', log') == Abs(db, log)[name := Abs(db, log)[name] + [body]]
  {
    var db', log' := SetBlob(db, oid, Some(db.blobs[oid] + body)), log[oid := log[oid] + [body]];
    SetBlobKeepsConsistent(db, oid, Some(db.blobs[oid] + body));
    CommitKeepsLogged(db, log, oid, body);
    var s, name := Abs(db, log), NameOf(db, oid);
    AbsOfObject(db, log, oid);
    var s' := s[name := s[name] + [body]];
    assert HasOwner(db.files, oid);
    var owner :| OwnedBy(db.files, oid, owner);
    AbsOfRow(db, log, owner);
    forall id | id in db'.files
      ensures RowHeld(db', log', s', id)
    {
      AbsOfRow(db, log, id);
      if NameOfRow(db.files[id]) == name {
        assert SameName(db.files, id, owner);
      }
    }
    AbsIs(db', log', s');
  }

  ghost function NamesOf(db: Db, ids: set<FileId>): set<Name> {
    set id | id in ids && id in db.files :: NameOfRow(db.files[id])
  }

  lemma RowsAfterDelete(db: Db, log: map<Oid, seq<Bytes>>, ids: set<FileId>, id: FileId)
    requires Good(db, log) && id in DeleteFiles(db, ids).files
    ensures RowHeld(DeleteFiles(db, ids), log - BlobsOf(db, ids), Abs(db, log) - NamesOf(db, ids), id)
  {
    AbsOfRow(db, log, id);
    KeptBlob(db, ids, id);
    if NameOfRow(db.files[id]) in NamesOf(db, ids) {
      var j :| j in ids && j in db.files && NameOfRow(db.files[j]) == NameOfRow(db.files[id]);
      assert SameName(db.files, id, j);
    }
  }

  lemma NamesAfterDelete(files: map<FileId, Row>, ids: set<FileId>, name: Name)
    requires name in Names(files) && forall id :: id in ids && id in files ==> NameOfRow(files[id]) != name
    ensures name in Names(files - ids)
  {
    var id := RowNamed(files, name);
    assert id in files - ids;
  }

  lemma DeleteAbs(db: Db, log: map<Oid, seq<Bytes>>, ids: set<FileId>)
    requires Good(db, log)
    ensures var db', log' := DeleteFiles(db, ids), log - BlobsOf(db, ids);
            && Good(db', log') && NamesOf(db, ids) <= Abs(db, log).Keys
            && Abs(db', log') == Abs(db, log) - NamesOf(db, ids)
  {
    var db', log' := DeleteFiles(db, ids), log - BlobsOf(db, ids);
    DeleteKeepsConsistent(db, ids);
    var s' := Abs(db, log) - NamesOf(db, ids);
    forall id | id in db'.files
      ensures RowHeld(db', log', s', id)
    {
      RowsAfterDelete(db, log, ids, id);
    }
    forall name | name in s'
      ensures name in Names(db'.files)
    {
      NamesAfterDelete(db.files, ids, name);
    }
    AbsIs(db', log', s');
  }

  /** What a step does to the database: the changes of committed state there are. */
  datatype Change =
    | NoChange
    | NewRow(b: string, f: string, deleteAfter: Option<int>)
    | NewBody(oid: Oid, body: Bytes)
    | Removed(ids: set<FileId>)
    | NewBucket(bucket: string, ttl: Option<int>)

  ghost predicate Possible(db: Db, c: Change) {
    match c
    case NewRow(b, f, _) => !HasFile(db, b, f)
    case NewBody(oid, body) => oid in db.blobs && |db.blobs[oid] + body| <= I64_MAX
    case NewBucket(bucket, _) => bucket !in db.buckets
    case _ => true
  }

  ghost function Changed(db: Db, log: map<Oid, seq<Bytes>>, c: Change): (Db, map<Oid, seq<Bytes>>)
    requires Good(db, log) && Possible(db, c)
  {
    match c
    case NoChange => (db, log)
    case NewRow(b, f, deleteAfter) => (InsertFile(db, b, f, deleteAfter), log[db.nextOid := []])
    case NewBody(oid, body) => (SetBlob(db, oid, Some(db.blobs[oid] + body)), log[oid := log[oid] + [body]])
    case Removed(ids) => (DeleteFiles(db, ids), log - BlobsOf(db, ids))
    case NewBucket(bucket, ttl) => (db.(buckets := db.buckets[bucket := ttl]), log)
  }

  ghost function ActOf(db: Db, c: Change): Label
    requires Consistent(db) && Possible(db, c)
  {
    match c
    case NewRow(b, f, _) => Label.Created((b, f))
    case NewBody(oid, body) => Committed(NameOf(db, oid), body)
    case Removed(ids) => Collected(NamesOf(db, ids))
    case _ => Quiet
  }

  lemma ChangeRefines(db: Db, log: map<Oid, seq<Bytes>>, c: Change)
    requires Good(db, log) && Possible(db, c)
    ensures var (db', log') := Changed(db, log, c);
            && Good(db', log')
            && Allows(Abs(db, log), ActOf(db, c))
            && Abs(db', log') == After(Abs(db, log), ActOf(db, c))
  {
    match c {
      case NoChange =>
      case NewRow(b, f, deleteAfter) => InsertAbs(db, b, f, deleteAfter, log);
      case NewBody(oid, body) => GrowAbs(db, log, oid, body);
      case Removed(ids) => DeleteAbs(db, log, ids);
      case NewBucket(bucket, ttl) => SameAbs(db, db.(buckets := db.buckets[bucket := ttl]), log);
    }
  }

  ghost function ChangeOf(w: World, e: Event): Change
    requires Enabled(w, e)
  {
    match e
    case Insert(p, now) =>
      var (b, f) := (w.procs[p].b, w.procs[p].f);
      if b !in w.db.buckets || HasFile(w.db, b, f) then NoChange else NewRow(b, f, DeleteAfter(now, w.db.buckets[b]))
    case EndOfBody(p, _) =>
      if Commits(w, w.procs[p]) then NewBody(w.procs[p].oid, w.procs[p].body.Whole()) else NoChange
    case Collect(_, batch) => Removed(batch)
    case CreateBucket(name, ttl) => NewBucket(name, ttl)
    case _ => NoChange
  }

  lemma StepIsChange(w: World, e: Event)
    requires Inv(w) && Enabled(w, e)
    ensures Possible(w.db, ChangeOf(w, e))
    ensures (Apply(w, e).db, Apply(w, e).log) == Changed(w.db, w.log, ChangeOf(w, e))
  {
    if e.EndOfBody? && Commits(w, w.procs[e.p]) {
      CommitAppendsBody(w, e.p, e.answered);
    }
  }

  /** The step is a comparison that ends in Done. */
  predicate FindsMatch(w: World, e: Event) {
    && e.EndOfBody? && e.p in w.procs && w.procs[e.p].Comparing? && w.procs[e.p].oid in w.db.blobs
    && w.procs[e.p].matched == |w.procs[e.p].body.chunks| && Compared(w.procs[e.p]) == Done
  }

  /** The step is a read that ends in Done. */
  predicate FinishesRead(w: World, e: Event) {
    && e.Emit? && e.n == 0 && e.p in w.procs && w.procs[e.p].Exploring? && w.procs[e.p].oid in w.db.blobs
    && w.procs[e.p].emitted == |w.procs[e.p].base|
  }

  /** What a step is to the abstract store: its change of the database, or the finding of a
      comparison or a read that ends in Done. */
  ghost function LabelOf(w: World, e: Event): Label
    requires Consistent(w.db) && Enabled(w, e) && Possible(w.db, ChangeOf(w, e))
  {
    if FindsMatch(w, e) then Matched(NameOf(w.db, w.procs[e.p].oid), w.procs[e.p].start, w.procs[e.p].body.Whole())
    else if FinishesRead(w, e) then Read(NameOf(w.db, w.procs[e.p].oid), w.procs[e.p].base[..w.procs[e.p].emitted])
    else ActOf(w.db, ChangeOf(w, e))
  }

  /** The comparison that ends in Done has seen the file from its start offset to its end. */
  lemma MatchedIsTrue(db: Db, proc: Proc)
    requires ProcOk(db, proc) && proc.Comparing? && proc.matched == |proc.body.chunks|
    requires Compared(proc) == Done
    ensures Tail(proc.base, proc.start) == proc.body.Whole()
  {
    var whole, file := proc.body.Whole(), Tail(proc.base, proc.start);
    assert proc.body.chunks[..proc.matched] == proc.body.chunks;
    assert Tail(proc.base, proc.start + |whole|) == file[|whole|..];
    assert file == file[..|whole|] + file[|whole|..];
  }

  /** The refinement: each step of any request, in any state that can be reached, is its
      labelled step of the abstract store. */
  lemma StepRefines(w: World, e: Event)
    requires Inv(w) && Enabled(w, e)
    ensures Possible(w.db, ChangeOf(w, e))
    ensures var w', s, act := Apply(w, e), Abs(w.db, w.log), LabelOf(w, e);
            && Inv(w')
            && Allows(s, act)
            && Abs(w'.db, w'.log) == After(s, act)
  {
    StepKeepsInv(w, e);
    StepIsChange(w, e);
    ChangeRefines(w.db, w.log, ChangeOf(w, e));
    if FindsMatch(w, e) {
      MatchAllowed(w.db, w.log, w.procs[e.p]);
    } else if FinishesRead(w, e) {
      ReadAllowed(w.db, w.log, w.procs[e.p]);
    }
  }

  lemma MatchAllowed(db: Db, log: map<Oid, seq<Bytes>>, proc: Proc)
    requires Good(db, log) && ProcOk(db, proc) && proc.Comparing? && proc.matched == |proc.body.chunks|
    requires proc.oid in db.blobs && Compared(proc) == Done
    ensures Allows(Abs(db, log), Matched(NameOf(db, proc.oid), proc.start, proc.body.Whole()))
  {
    AbsOfObject(db, log, proc.oid);
    MatchedIsTrue(db, proc);
  }

  lemma ReadAllowed(db: Db, log: map<Oid, seq<Bytes>>, proc: Proc)
    requires Good(db, log) && ProcOk(db, proc) && proc.Exploring? && proc.emitted == |proc.base|
    requires proc.oid in db.blobs
    ensures Allows(Abs(db, log), Read(NameOf(db, proc.oid), proc.base[..proc.emitted]))
  {
    AbsOfObject(db, log, proc.oid);
  }

  /** The only steps that answer Done. */
  lemma DoneComesFrom(w: World, e: Event, p: Pid)
    requires Inv(w) && Enabled(w, e)
    requires p in Apply(w, e).procs && Apply(w, e).procs[p] == Finished(Done)
    requires p in w.procs ==> w.procs[p] != Finished(Done)
    ensures p in w.procs && w.procs[p].Live() && w.procs[p].oid in w.db.blobs
    ensures || (e == EndOfBody(p, true) && Commits(w, w.procs[p]))
            || (e.EndOfBody? && e.p == p && w.procs[p].Comparing? && Compared(w.procs[p]) == Done)
            || (e == Emit(p, 0) && w.procs[p].Exploring?)
  {
  }

  /** A response Done is never given without cause: the step that gives it commits the
      whole body, or has found it in the file, or has read the file to its end. */
  lemma SuccessIsBacked(w: World, e: Event, p: Pid)
    requires Inv(w) && Enabled(w, e)
    requires p in Apply(w, e).procs && Apply(w, e).procs[p] == Finished(Done)
    requires p in w.procs ==> w.procs[p] != Finished(Done)
    ensures p in w.procs && w.procs[p].Live() && w.procs[p].oid in w.db.blobs
    ensures Possible(w.db, ChangeOf(w, e))
    ensures var proc := w.procs[p];
            var name := NameOf(w.db, proc.oid);
            match proc
            case Writing(_, _, _, body, _) => !body.broken && LabelOf(w, e) == Committed(name, body.Whole())
            case Comparing(_, _, start, body, _) => !body.broken && LabelOf(w, e) == Matched(name, start, body.Whole())
            case Exploring(_, base, emitted) => LabelOf(w, e) == Read(name, base[..emitted])
            case _ => false
  {
    DoneComesFrom(w, e, p);
    StepIsChange(w, e);
  }
}
