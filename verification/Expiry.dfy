/** When a file that a PUT creates is collected. */
module Expiry {
  import opened ByteStrings
  import opened Tables
  import opened FileHandles
  import opened Service
  import opened Maintenance

  /** A file created at `now` in a bucket with time to live `ttl` is there, with its bytes,
      after any sweeps up to `now + ttl`; in a bucket without one, after any sweeps. */
  lemma CreatedFileLives(db: Db, now: int, b: string, f: string, run: seq<Db>, wakeups: seq<Wakeup>)
    requires Consistent(db) && b in db.buckets && !HasFile(db, b, f)
    requires IsSweep(run, wakeups) && run[0] == Claimed(db, now, b, f)
    requires db.buckets[b].Some? ==>
               forall i :: 0 <= i < |wakeups| ==> wakeups[i].now <= now + db.buckets[b].value
    ensures db.nextId in run[|wakeups|].files && run[|wakeups|].files[db.nextId].Named(b, f)
    ensures Keeps(run[0], run[|wakeups|], db.nextId)
  {
    ClaimedIsEmpty(db, now, b, f);
    UnexpiredSurvive(run, wakeups, db.nextId);
  }

  /** A sweep after `now + ttl` collects it, unless there are more than 1000 files that were
      due by then. */
  lemma CreatedFileGoes(db: Db, now: int, b: string, f: string, t: int, db': Db)
    requires Consistent(db) && b in db.buckets && !HasFile(db, b, f)
    requires db.buckets[b].Some? && now + db.buckets[b].value < t
    requires Swept(Claimed(db, now, b, f), t, db')
    requires var files := Claimed(db, now, b, f).files;
             |set id | id in files && files[id].deleteAfter.Some? && files[id].deleteAfter.value < t| <= 1000
    ensures db.nextId !in db'.files
  {
    var db1 := Claimed(db, now, b, f);
    ClaimedIsEmpty(db, now, b, f);
    DueFiles(db1, t);
    var batch :| IsBatch(db1, t, batch) && db' == DeleteFiles(db1, batch);
    if db.nextId !in batch {
      LeftOut(db1, t, batch, db.nextId);
    }
  }
}
