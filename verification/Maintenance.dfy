/** Garbage collection: batches of expired files, and the task that runs them. */
module Maintenance {
  import opened ByteStrings
  import opened Tables
  import opened FileHandles

  const BATCH_SIZE: nat := 1000

  function ExpiredFiles(db: Db, now: int): set<FileId> {
    set id | id in db.files && db.files[id].Expired(now)
  }

  /** `order by delete_after asc limit 1000` over the expired files: as many as there are,
      up to the limit, and none that expires later than one left out. */
  ghost predicate IsBatch(db: Db, now: int, batch: set<FileId>) {
    && batch <= ExpiredFiles(db, now)
    && |batch| == Min(BATCH_SIZE, |ExpiredFiles(db, now)|)
    && forall x, y :: x in batch && y in ExpiredFiles(db, now) && y !in batch ==>
         db.files[x].deleteAfter.value <= db.files[y].deleteAfter.value
  }

  lemma SubsetSize<T>(small: set<T>, big: set<T>)
    requires small <= big
    ensures |small| <= |big|
    ensures |big - small| == |big| - |small|
  {
    assert big == small + (big - small);
  }

  lemma DueFiles(db: Db, now: int)
    ensures ExpiredFiles(db, now) ==
            set id | id in db.files && db.files[id].deleteAfter.Some? && db.files[id].deleteAfter.value < now
  {
  }

  ghost predicate NoneLater(db: Db, batch: set<FileId>, id: FileId)
    requires id in db.files && db.files[id].deleteAfter.Some?
  {
    forall x :: x in batch ==>
      x in db.files && db.files[x].deleteAfter.Some? && db.files[x].deleteAfter.value <= db.files[id].deleteAfter.value
  }

  /** A due file is left out of a batch only by 1000 files that are due no later. */
  lemma LeftOut(db: Db, now: int, batch: set<FileId>, id: FileId)
    requires IsBatch(db, now, batch)
    requires id in db.files && id !in batch
    requires db.files[id].deleteAfter.Some? && db.files[id].deleteAfter.value < now
    ensures |batch| == 1000 && |ExpiredFiles(db, now)| > 1000
    ensures NoneLater(db, batch, id)
  {
    assert id in ExpiredFiles(db, now);
    SubsetSize(batch + {id}, ExpiredFiles(db, now));
    assert |batch + {id}| == |batch| + 1;
  }

  /** What a batch is: only files that are due, at most 1000... */
  lemma BatchIsDue(db: Db, now: int, batch: set<FileId>)
    requires IsBatch(db, now, batch)
    ensures forall id :: id in batch ==>
              id in db.files && db.files[id].deleteAfter.Some? && db.files[id].deleteAfter.value < now
    ensures |batch| <= 1000
  {
  }

  /** ...and all that are due unless there are 1000 of them that are due no later. */
  lemma OthersAreNot(db: Db, now: int, batch: set<FileId>)
    requires IsBatch(db, now, batch)
    ensures forall id :: id in db.files && id !in batch && db.files[id].deleteAfter.Some? ==>
              now <= db.files[id].deleteAfter.value || (|batch| == 1000 && NoneLater(db, batch, id))
  {
    forall id | id in db.files && id !in batch && db.files[id].deleteAfter.Some? && db.files[id].deleteAfter.value < now
      ensures |batch| == 1000 && NoneLater(db, batch, id)
    {
      LeftOut(db, now, batch, id);
    }
  }

  /** The earliest-expiring of some expired files. */
  method Earliest(db: Database, ids: set<FileId>) returns (first: FileId)
    requires ids != {} && forall id :: id in ids ==> id in db.files && db.files[id].deleteAfter.Some?
    ensures first in ids
    ensures forall id :: id in ids ==> db.files[first].deleteAfter.value <= db.files[id].deleteAfter.value
  {
    first :| first in ids;
    var todo := ids - {first};
    while todo != {}
      invariant todo <= ids && first in ids
      invariant forall id :: id in ids && id !in todo ==>
                  db.files[first].deleteAfter.value <= db.files[id].deleteAfter.value
    {
      var id :| id in todo;
      if db.files[id].deleteAfter.value < db.files[first].deleteAfter.value {
        first := id;
      }
      todo := todo - {id};
    }
  }

  /** Takes the earliest of what is left until there are enough. */
  method TakeEarliest(db: Database, now: int) returns (batch: set<FileId>)
    ensures IsBatch(db.State(), now, batch)
  {
    var expired := ExpiredFiles(db.State(), now);
    var rest := expired;
    batch := {};
    while |batch| < BATCH_SIZE && rest != {}
      invariant batch + rest == expired && batch !! rest && |batch| <= BATCH_SIZE
      invariant forall x, y :: x in batch && y in rest ==>
                  db.files[x].deleteAfter.value <= db.files[y].deleteAfter.value
      decreases |rest|
    {
      var id := Earliest(db, rest);
      rest := rest - {id};
      batch := batch + {id};
    }
    assert |batch + rest| == |batch| + |rest|;
  }

  method SelectBatch(db: Database, now: int) returns (batch: set<FileId>)
    ensures IsBatch(db.State(), now, batch)
    ensures forall id :: id in batch ==>
              id in db.files && db.files[id].deleteAfter.Some? && db.files[id].deleteAfter.value < now
    ensures |batch| <= 1000
    ensures forall id :: id in db.files && id !in batch && db.files[id].deleteAfter.Some? ==>
              now <= db.files[id].deleteAfter.value || (|batch| == 1000 && NoneLater(db.State(), batch, id))
  {
    batch := TakeEarliest(db, now);
    BatchIsDue(db.State(), now, batch);
    OthersAreNot(db.State(), now, batch);
  }

  /** What one run of the batch statement leaves, when it is executed. */
  ghost predicate Swept(db: Db, now: int, db': Db) {
    exists batch :: IsBatch(db, now, batch) && db' == DeleteFiles(db, batch)
  }

  /** The row and its bytes are as before. */
  ghost predicate Keeps(db: Db, db': Db, id: FileId) {
    && id in db.files && id in db'.files && db'.files[id] == db.files[id]
    && Lookup(db', db.files[id].blob) == Lookup(db, db.files[id].blob)
  }

  lemma KeysGone(db: Db, batch: set<FileId>)
    requires batch <= db.files.Keys
    ensures db.files.Keys - DeleteFiles(db, batch).files.Keys == batch
  {
  }

  /** The files a sweep has deleted. */
  lemma SweepsABatch(db: Db, now: int, db': Db) returns (gone: set<FileId>)
    requires Swept(db, now, db')
    ensures gone == db.files.Keys - db'.files.Keys && IsBatch(db, now, gone) && db' == DeleteFiles(db, gone)
  {
    gone :| IsBatch(db, now, gone) && db' == DeleteFiles(db, gone);
    KeysGone(db, gone);
  }

  /** What a sweep does: only files that are due go, at most 1000, and unless 1000 go none
      that is due is left; the other rows, and their bytes, stay as they are. */
  lemma SweepTakesWhatIsDue(db: Db, now: int, db': Db) returns (gone: set<FileId>)
    requires OwnBlobs(db.files) && Swept(db, now, db')
    ensures gone == db.files.Keys - db'.files.Keys && db'.buckets == db.buckets
    ensures |gone| <= 1000
    ensures forall id :: id in gone ==> db.files[id].deleteAfter.Some? && db.files[id].deleteAfter.value < now
    ensures forall id :: id in db.files && id !in gone ==>
              && Keeps(db, db', id)
              && (db.files[id].deleteAfter.Some? ==> now <= db.files[id].deleteAfter.value || |gone| == 1000)
  {
    gone := SweepsABatch(db, now, db');
    BatchIsDue(db, now, gone);
    forall id | id in db.files && id !in gone
      ensures Keeps(db, db', id)
      ensures db.files[id].deleteAfter.Some? ==> now <= db.files[id].deleteAfter.value || |gone| == 1000
    {
      KeptBlob(db, gone, id);
      if db.files[id].deleteAfter.Some? && db.files[id].deleteAfter.value < now {
        LeftOut(db, now, gone, id);
      }
    }
  }

  /** One statement: a failed one deletes nothing. */
  method DeleteOldFilesBatch(db: Database, now: int, fate: QueryFate) returns (ok: bool)
    requires Consistent(db.State())
    modifies db
    ensures Consistent(db.State())
    ensures ok <==> fate.Works?
    ensures if fate.Fails? then db.State() == old(db.State()) else Swept(old(db.State()), now, db.State())
  {
    if !fate.Fails? {
      var batch := SelectBatch(db, now);
      DeleteKeepsConsistent(db.State(), batch);
      db.DeleteRows(batch);
    }
    ok := fate.Works?;
  }

  /** One wake-up of the task: the interval ticks, or the service is terminating. */
  datatype Wakeup = Wakeup(cancelled: bool, now: int, fate: QueryFate)

  /** The states the store goes through, from wake-up to wake-up. */
  ghost predicate IsSweep(run: seq<Db>, wakeups: seq<Wakeup>) {
    && |run| == |wakeups| + 1
    && forall i :: 0 <= i < |wakeups| ==>
         if wakeups[i].fate.Fails? then run[i + 1] == run[i] else Swept(run[i], wakeups[i].now, run[i + 1])
  }

  ghost predicate AllTicking(wakeups: seq<Wakeup>) {
    forall i :: 0 <= i < |wakeups| ==> !wakeups[i].cancelled
  }

  /** `start_maintenance_tasks`: sweeps at every tick, errors or not, until it is cancelled;
      nothing is deleted from then on. `wakeups` are the wake-ups to come. */
  method MaintenanceTask(db: Database, wakeups: seq<Wakeup>) returns (ghost run: seq<Db>)
    requires Consistent(db.State())
    modifies db
    ensures Consistent(db.State())
    ensures 0 < |run| <= |wakeups| + 1 && run[0] == old(db.State()) && run[|run| - 1] == db.State()
    ensures IsSweep(run, wakeups[..|run| - 1]) && AllTicking(wakeups[..|run| - 1])
    ensures |run| <= |wakeups| ==> wakeups[|run| - 1].cancelled
  {
    run := [db.State()];
    var i := 0;
    while i < |wakeups|
      invariant 0 <= i <= |wakeups| && |run| == i + 1
      invariant run[0] == old(db.State()) && run[i] == db.State() && Consistent(db.State())
      invariant IsSweep(run, wakeups[..i]) && AllTicking(wakeups[..i])
    {
      if wakeups[i].cancelled {
        break;
      }
      var ok := DeleteOldFilesBatch(db, wakeups[i].now, wakeups[i].fate);
      run := run + [db.State()];
      i := i + 1;
    }
  }

  // ---------------------------------------------------------------------------
  // Drain
  // ---------------------------------------------------------------------------

  /** However much later it is, a sweep takes files that had expired by `since` first: of
      those it deletes as many as the batch holds, or all. */
  lemma SweepTakesOldestFirst(db: Db, now: int, since: int, batch: set<FileId>)
    requires IsBatch(db, now, batch) && since <= now
    ensures var old0, new0 := ExpiredFiles(db, since), ExpiredFiles(DeleteFiles(db, batch), since);
            && new0 == old0 - batch
            && |new0| == (if |old0| <= BATCH_SIZE then 0 else |old0| - BATCH_SIZE)
  {
    var due, rest := ExpiredFiles(db, since), ExpiredFiles(DeleteFiles(db, batch), since);
    var expired := ExpiredFiles(db, now);
    assert rest == due - batch;
    assert due <= expired;
    SubsetSize(due, expired);
    if rest != {} {
      var y :| y in rest;
      forall x | x in batch
        ensures x in due
      {
        assert db.files[x].deleteAfter.value <= db.files[y].deleteAfter.value;
      }
      SubsetSize(batch, due);
    } else {
      SubsetSize(due, batch);
    }
  }

  /** How many of the wake-ups get their statement executed. */
  function Executed(wakeups: seq<Wakeup>): nat {
    if wakeups == [] then 0
    else (if wakeups[0].fate.Fails? then 0 else 1) + Executed(wakeups[1..])
  }

  lemma SweepKeepsOthers(db: Db, now: int, db': Db, id: FileId)
    requires Consistent(db) && Swept(db, now, db')
    requires id in db.files && !db.files[id].Expired(now)
    ensures Consistent(db') && Keeps(db, db', id)
  {
    var batch :| IsBatch(db, now, batch) && db' == DeleteFiles(db, batch);
    DeleteKeepsConsistent(db, batch);
    KeptBlob(db, batch, id);
  }

  lemma SweepRunTail(run: seq<Db>, wakeups: seq<Wakeup>)
    requires IsSweep(run, wakeups) && wakeups != []
    ensures IsSweep(run[1..], wakeups[1..])
    ensures if wakeups[0].fate.Fails? then run[1] == run[0] else Swept(run[0], wakeups[0].now, run[1])
  {
    assert run[0 + 1] == run[1];
  }

  /** Drain: whatever the clock does from `since` on, each executed sweep takes 1000 of the
      files that were due by `since`, until none is left; failed sweeps cost nothing. */
  lemma {:induction false} Drain(run: seq<Db>, wakeups: seq<Wakeup>, since: int)
    requires IsSweep(run, wakeups)
    requires forall i :: 0 <= i < |wakeups| ==> since <= wakeups[i].now
    ensures var due0, due := ExpiredFiles(run[0], since), ExpiredFiles(run[|wakeups|], since);
            && due0 == (set id | id in run[0].files && run[0].files[id].deleteAfter.Some?
                                 && run[0].files[id].deleteAfter.value < since)
            && due == (set id | id in run[|wakeups|].files && run[|wakeups|].files[id].deleteAfter.Some?
                                && run[|wakeups|].files[id].deleteAfter.value < since)
            && |due| == if |due0| <= 1000 * Executed(wakeups) then 0 else |due0| - 1000 * Executed(wakeups)
    decreases |wakeups|
  {
    if wakeups != [] {
      SweepRunTail(run, wakeups);
      if !wakeups[0].fate.Fails? {
        var batch :| IsBatch(run[0], wakeups[0].now, batch) && run[1] == DeleteFiles(run[0], batch);
        SweepTakesOldestFirst(run[0], wakeups[0].now, since, batch);
      }
      Drain(run[1..], wakeups[1..], since);
      assert run[1..][|wakeups| - 1] == run[|wakeups|];
    }
  }

  /** A file that is not due at any of the sweeps is never touched, nor are its bytes. */
  lemma {:induction false} UnexpiredSurvive(run: seq<Db>, wakeups: seq<Wakeup>, id: FileId)
    requires IsSweep(run, wakeups) && Consistent(run[0]) && id in run[0].files
    requires run[0].files[id].deleteAfter.Some? ==>
               forall i :: 0 <= i < |wakeups| ==> wakeups[i].now <= run[0].files[id].deleteAfter.value
    ensures Consistent(run[|wakeups|]) && Keeps(run[0], run[|wakeups|], id)
    ensures id in run[|wakeups|].files && run[|wakeups|].files[id] == run[0].files[id]
    decreases |wakeups|
  {
    if wakeups != [] {
      SweepRunTail(run, wakeups);
      if !wakeups[0].fate.Fails? {
        SweepKeepsOthers(run[0], wakeups[0].now, run[1], id);
      }
      assert Keeps(run[0], run[1], id);
      UnexpiredSurvive(run[1..], wakeups[1..], id);
      assert run[1..][|wakeups| - 1] == run[|wakeups|];
    }
  }
}
