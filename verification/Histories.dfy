/** What holds over whole runs of the service, with requests interleaved in any order. */
module Histories {
  import opened ByteStrings
  import opened Tables
  import opened Service
  import opened Maintenance
  import opened Interleaving
  import opened Refinement

  /** One step: any that is enabled. */
  ghost predicate Next(w: World, e: Event, w': World) {
    Enabled(w, e) && w' == Apply(w, e)
  }

  ghost predicate IsRun(run: seq<World>, events: seq<Event>) {
    && |run| == |events| + 1
    && forall i :: 0 <= i < |events| ==> Next(run[i], events[i], run[i + 1])
  }

  /** A fresh installation: no buckets, no files, no requests. */
  const EMPTY_SERVICE := World(Db(map[], map[], map[], 0, 0), map[], map[])

  lemma InitialInv()
    ensures Inv(EMPTY_SERVICE) && Abs(EMPTY_SERVICE.db, EMPTY_SERVICE.log) == map[]
  {
  }

  lemma {:induction false} RunKeepsInv(run: seq<World>, events: seq<Event>, i: nat)
    requires IsRun(run, events) && Inv(run[0]) && i < |run|
    ensures Inv(run[i])
  {
    if i > 0 {
      var k := i - 1;
      RunKeepsInv(run, events, k);
      assert Next(run[k], events[k], run[k + 1]);
      StepKeepsInv(run[k], events[k]);
    }
  }

  /** What is known about one step of a run. */
  lemma StepAt(run: seq<World>, events: seq<Event>, k: nat, next: nat)
    requires IsRun(run, events) && Inv(run[0]) && k < |events| && next == k + 1
    ensures Inv(run[k]) && Inv(run[next])
    ensures Enabled(run[k], events[k]) && run[next] == Apply(run[k], events[k])
  {
    RunKeepsInv(run, events, k);
    RunKeepsInv(run, events, next);
    assert Next(run[k], events[k], run[k + 1]);
  }

  /** Buckets stay as they are, identifiers are never used twice, rows never change, and a file that is
      still there has only had bodies added at its end. */
  ghost predicate Extends(w: World, w': World) {
    && (forall b :: b in w.db.buckets ==> b in w'.db.buckets && w'.db.buckets[b] == w.db.buckets[b])
    && w.db.nextId <= w'.db.nextId && w.db.nextOid <= w'.db.nextOid
    && (forall id :: id in w'.db.files && id < w.db.nextId ==> id in w.db.files && w'.db.files[id] == w.db.files[id])
    && (forall oid :: oid in w'.log && oid < w.db.nextOid ==> oid in w.log && w.log[oid] <= w'.log[oid])
  }

  lemma StepExtends(w: World, e: Event)
    requires Inv(w) && Enabled(w, e)
    ensures Extends(w, Apply(w, e))
  {
    StepIsChange(w, e);
    ChangeExtends(w.db, w.log, ChangeOf(w, e), Apply(w, e).procs, w.procs);
  }

  lemma ChangeExtends(db: Db, log: map<Oid, seq<Bytes>>, c: Change, procs': map<Pid, Proc>, procs: map<Pid, Proc>)
    requires Good(db, log) && Possible(db, c)
    ensures var (db', log') := Changed(db, log, c); Extends(World(db, procs, log), World(db', procs', log'))
  {
  }

  lemma FlattenPrefix(a: seq<Bytes>, b: seq<Bytes>)
    requires a <= b
    ensures Flatten(a) <= Flatten(b)
  {
    FlattenTakePrefix(b, |a|);
  }

  lemma RunStepExtends(run: seq<World>, events: seq<Event>, k: nat, next: nat)
    requires IsRun(run, events) && Inv(run[0]) && k < |events| && next == k + 1
    ensures Extends(run[k], run[next])
  {
    StepAt(run, events, k, next);
    StepExtends(run[k], events[k]);
  }

  lemma {:induction false} RunExtends(run: seq<World>, events: seq<Event>, i: nat, j: nat)
    requires IsRun(run, events) && Inv(run[0]) && i <= j < |run|
    ensures Extends(run[i], run[j])
    decreases j - i
  {
    if i < j {
      var k := j - 1;
      RunExtends(run, events, i, k);
      RunStepExtends(run, events, k, j);
      ExtendsTransitive(run[i], run[k], run[j]);
    }
  }

  /** Earlier committed content is a prefix of later content for as long as the file lives,
      whatever requests, failures and collections come in between. */
  lemma ContentOnlyGrows(run: seq<World>, events: seq<Event>, i: nat, j: nat, id: FileId)
    requires IsRun(run, events) && Inv(run[0]) && i <= j < |run|
    requires id in run[i].db.files && id in run[j].db.files
    ensures run[j].db.files[id] == run[i].db.files[id]
    ensures var oid := run[i].db.files[id].blob;
            && oid in run[i].db.blobs && oid in run[j].db.blobs
            && run[i].db.blobs[oid] <= run[j].db.blobs[oid]
  {
    RunKeepsInv(run, events, i);
    RunKeepsInv(run, events, j);
    RunExtends(run, events, i, j);
    ContentExtends(run[i], run[j], id);
  }

  lemma ExtendsTransitive(a: World, b: World, c: World)
    requires Extends(a, b) && Extends(b, c)
    ensures Extends(a, c)
  {
  }

  lemma ContentExtends(w: World, w': World, id: FileId)
    requires Inv(w) && Inv(w') && Extends(w, w') && id in w.db.files && id in w'.db.files
    ensures w'.db.files[id] == w.db.files[id]
    ensures var oid := w.db.files[id].blob;
            oid in w.db.blobs && oid in w'.db.blobs && w.db.blobs[oid] <= w'.db.blobs[oid]
  {
    var oid := w.db.files[id].blob;
    FlattenPrefix(w.log[oid], w'.log[oid]);
  }

  // ---------------------------------------------------------------------------
  // Collection
  // ---------------------------------------------------------------------------

  lemma StepCollectsWhatIsDue(w: World, e: Event, id: FileId)
    requires Inv(w) && Enabled(w, e) && id in w.db.files && id !in Apply(w, e).db.files
    ensures e.Collect? && w.db.files[id].deleteAfter.Some? && w.db.files[id].deleteAfter.value < e.now
  {
    StepIsChange(w, e);
    if e.Collect? {
      BatchIsDue(w.db, e.now, e.batch);
    }
  }

  /** A file only ever disappears in a collection that runs after its time: in between `i`
      and `j`, whatever requests do to it meanwhile. */
  lemma {:induction false} CollectedOnlyWhenDue(run: seq<World>, events: seq<Event>, i: nat, j: nat, id: FileId)
    returns (m: nat)
    requires IsRun(run, events) && Inv(run[0]) && i <= j < |run|
    requires id in run[i].db.files && id !in run[j].db.files
    ensures i <= m < j && events[m].Collect?
    ensures run[i].db.files[id].deleteAfter.Some? && run[i].db.files[id].deleteAfter.value < events[m].now
    decreases j
  {
    var k := j - 1;
    RunKeepsInv(run, events, i);
    if id in run[k].db.files {
      m := k;
      StepAt(run, events, k, j);
      RunExtends(run, events, i, k);
      StepCollectsWhatIsDue(run[k], events[k], id);
    } else {
      m := CollectedOnlyWhenDue(run, events, i, k, id);
    }
  }

  // ---------------------------------------------------------------------------
  // Refinement over runs
  // ---------------------------------------------------------------------------

  /** The step from `w` to `w'` is the step `act` of the abstract store. */
  ghost predicate StepsAbstractly(w: World, act: Label, w': World) {
    && Inv(w) && Inv(w')
    && Allows(Abs(w.db, w.log), act)
    && Abs(w'.db, w'.log) == After(Abs(w.db, w.log), act)
  }

  ghost function LabelAt(w: World, e: Event): Label {
    if Inv(w) && Enabled(w, e) then
      StepIsChange(w, e);
      LabelOf(w, e)
    else Quiet
  }

  /** What each step of the run is to the abstract store. */
  ghost function Labels(run: seq<World>, events: seq<Event>): (labels: seq<Label>)
    requires IsRun(run, events)
    ensures |labels| == |events|
    ensures forall i :: 0 <= i < |events| ==> labels[i] == LabelAt(run[i], events[i])
  {
    seq(|events|, i requires 0 <= i < |events| => LabelAt(run[i], events[i]))
  }

  /** Every run of the service, all requests interleaved, is a run of the abstract store. */
  lemma RunRefines(run: seq<World>, events: seq<Event>, i: nat)
    requires IsRun(run, events) && Inv(run[0]) && i < |events|
    ensures StepsAbstractly(run[i], Labels(run, events)[i], run[i + 1])
  {
    StepAt(run, events, i, i + 1);
    StepRefines(run[i], events[i]);
  }

  /** What a label makes of the bodies a name holds; None: the name holds no file. */
  function More(before: Option<seq<Bytes>>, act: Label, name: Name): Option<seq<Bytes>> {
    match act
    case Created(created) => if created == name then Some([]) else before
    case Committed(written, body) =>
      if written == name && before.Some? then Some(before.value + [body]) else before
    case Collected(names) => if name in names then None else before
    case _ => before
  }

  /** What the labels say a name holds: nothing unless it was created and not collected
      since; otherwise the bodies committed to it since, in commit order. */
  function BodiesOf(labels: seq<Label>, name: Name): Option<seq<Bytes>> {
    if labels == [] then None
    else More(BodiesOf(labels[..|labels| - 1], name), labels[|labels| - 1], name)
  }

  ghost predicate Holds(s: Store, name: Name, bodies: Option<seq<Bytes>>) {
    (name in s <==> bodies.Some?) && (name in s ==> s[name] == bodies.value)
  }

  lemma AfterHoldsMore(s: Store, name: Name, before: Option<seq<Bytes>>, act: Label)
    requires Allows(s, act) && Holds(s, name, before)
    ensures Holds(After(s, act), name, More(before, act, name))
  {
  }

  lemma BodiesOfNext(labels: seq<Label>, k: nat, next: nat, name: Name)
    requires k < |labels| && next == k + 1
    ensures BodiesOf(labels[..next], name) == More(BodiesOf(labels[..k], name), labels[k], name)
  {
    assert labels[..next][..k] == labels[..k];
  }

  /** The state is consistent and `name` holds `bodies` in it. */
  ghost predicate HoldsIn(w: World, name: Name, bodies: Option<seq<Bytes>>) {
    Inv(w) && Holds(Abs(w.db, w.log), name, bodies)
  }

  lemma StepHoldsMore(w: World, act: Label, w': World, name: Name, bodies: Option<seq<Bytes>>)
    requires StepsAbstractly(w, act, w') && HoldsIn(w, name, bodies)
    ensures HoldsIn(w', name, More(bodies, act, name))
  {
    AfterHoldsMore(Abs(w.db, w.log), name, bodies, act);
  }

  lemma {:induction false} StoreIsBodies(run: seq<World>, events: seq<Event>, n: nat, name: Name)
    requires IsRun(run, events) && run[0] == EMPTY_SERVICE && n < |run|
    ensures HoldsIn(run[n], name, BodiesOf(Labels(run, events)[..n], name))
  {
    InitialInv();
    if n > 0 {
      var k, labels := n - 1, Labels(run, events);
      StoreIsBodies(run, events, k, name);
      RunRefines(run, events, k);
      BodiesOfNext(labels, k, n, name);
      StepHoldsMore(run[k], labels[k], run[n], name, BodiesOf(labels[..k], name));
    }
  }

  /** In every state a fresh service can reach, a file is there exactly if it was created
      and not collected since, and its content is then the bodies committed to it since it
      was created, one after the other. */
  lemma ContentIsCommittedBodies(run: seq<World>, events: seq<Event>, n: nat, b: string, f: string)
    requires IsRun(run, events) && run[0] == EMPTY_SERVICE && n < |run|
    ensures Inv(run[n])
    ensures var bodies := BodiesOf(Labels(run, events)[..n], (b, f));
            && (HasFile(run[n].db, b, f) <==> bodies.Some?)
            && (HasFile(run[n].db, b, f) ==> Content(run[n].db, b, f) == Flatten(bodies.value))
  {
    StoreIsBodies(run, events, n, (b, f));
    NamesAreFiles(run[n].db, b, f);
    if HasFile(run[n].db, b, f) {
      AbsOfRow(run[n].db, run[n].log, IdOf(run[n].db, b, f));
    }
  }
}
