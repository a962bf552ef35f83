/** The database: buckets, file rows and large objects, with the unique index on
    (bucket, filename) and the trigger that unlinks a row's large object with the row. */
module Tables {
  import opened ByteStrings
  import opened LargeObjects

  type Oid = nat
  type FileId = nat

  datatype Row = Row(bucket: string, filename: string, blob: Oid, deleteAfter: Option<int>) {

    predicate Named(b: string, f: string) {
      bucket == b && filename == f
    }

    /** `delete_after is not null and delete_after < now()` */
    predicate Expired(now: int) {
      deleteAfter.Some? && deleteAfter.value < now
    }
  }

  /** Committed database state. `buckets` maps a name to its default time to live.
      `nextId` and `nextOid` stand for `gen_random_uuid()` and `lo_create(0)`: they are
      identifiers no row and no object ever had. */
  datatype Db = Db(
    buckets: map<string, Option<int>>,
    files: map<FileId, Row>,
    blobs: map<Oid, Bytes>,
    nextId: nat,
    nextOid: nat)

  ghost predicate HasFile(db: Db, b: string, f: string) {
    exists id :: id in db.files && db.files[id].Named(b, f)
  }

  ghost predicate SameName(files: map<FileId, Row>, i: FileId, j: FileId) {
    i in files && j in files && files[i].Named(files[j].bucket, files[j].filename)
  }

  ghost predicate SameBlob(files: map<FileId, Row>, i: FileId, j: FileId) {
    i in files && j in files && files[i].blob == files[j].blob
  }

  ghost predicate UniqueNames(files: map<FileId, Row>) {
    forall i, j {:trigger SameName(files, i, j)} :: SameName(files, i, j) ==> i == j
  }

  ghost predicate OwnBlobs(files: map<FileId, Row>) {
    forall i, j {:trigger SameBlob(files, i, j)} :: SameBlob(files, i, j) ==> i == j
  }

  ghost predicate OwnedBy(files: map<FileId, Row>, oid: Oid, id: FileId) {
    id in files && files[id].blob == oid
  }

  ghost predicate HasOwner(files: map<FileId, Row>, oid: Oid) {
    exists id :: OwnedBy(files, oid, id)
  }

  /** Rows and large objects are in bijection, and names are unique. */
  ghost predicate Consistent(db: Db) {
    && UniqueNames(db.files)
    && OwnBlobs(db.files)
    && (forall id :: id in db.files ==> db.files[id].blob in db.blobs)
    && (forall oid {:trigger HasOwner(db.files, oid)} :: oid in db.blobs ==> HasOwner(db.files, oid))
    && (forall id :: id in db.files ==> id < db.nextId)
    && (forall oid :: oid in db.blobs ==> oid < db.nextOid)
    && (forall oid :: oid in db.blobs ==> |db.blobs[oid]| <= I64_MAX)
  }

  /** The row and the empty large object one `insert into files` statement leaves, or the
      unchanged database when the unique index refuses the name. */
  ghost function InsertFile(db: Db, b: string, f: string, deleteAfter: Option<int>): Db {
    if HasFile(db, b, f) then db else
    db.(files := db.files[db.nextId := Row(b, f, db.nextOid, deleteAfter)],
        blobs := db.blobs[db.nextOid := []],
        nextId := db.nextId + 1,
        nextOid := db.nextOid + 1)
  }

  function Lookup(db: Db, oid: Oid): Option<Bytes> {
    if oid in db.blobs then Some(db.blobs[oid]) else None
  }

  /** The database after a transaction that holds `content` for object `oid` commits. */
  function SetBlob(db: Db, oid: Oid, content: Option<Bytes>): Db {
    if content.Some? && oid in db.blobs then db.(blobs := db.blobs[oid := content.value]) else db
  }

  lemma SetBlobSame(db: Db, oid: Oid)
    ensures SetBlob(db, oid, Lookup(db, oid)) == db
  {
    if oid in db.blobs {
      assert db.blobs[oid := db.blobs[oid]] == db.blobs;
    }
  }

  function BlobsOf(db: Db, ids: set<FileId>): set<Oid> {
    set id | id in ids && id in db.files :: db.files[id].blob
  }

  function DeleteFiles(db: Db, ids: set<FileId>): Db {
    db.(files := db.files - ids, blobs := db.blobs - BlobsOf(db, ids))
  }

  lemma NewRowKeepsKeys(files: map<FileId, Row>, id: FileId, row: Row)
    requires UniqueNames(files) && OwnBlobs(files) && id !in files
    requires forall i :: i in files ==> files[i].blob != row.blob && !files[i].Named(row.bucket, row.filename)
    ensures UniqueNames(files[id := row]) && OwnBlobs(files[id := row])
  {
    var files' := files[id := row];
    forall i, j | SameName(files', i, j)
      ensures i == j
    {
      assert i != id && j != id ==> SameName(files, i, j);
    }
    forall i, j | SameBlob(files', i, j)
      ensures i == j
    {
      assert i != id && j != id ==> SameBlob(files, i, j);
    }
  }

  lemma FewerRowsKeepKeys(files: map<FileId, Row>, ids: set<FileId>)
    requires UniqueNames(files) && OwnBlobs(files)
    ensures UniqueNames(files - ids) && OwnBlobs(files - ids)
    ensures forall i, j {:trigger SameBlob(files, i, j)} :: i in ids && j !in ids ==> !SameBlob(files, i, j)
  {
    forall i, j | SameName(files - ids, i, j)
      ensures i == j
    {
      assert SameName(files, i, j);
    }
    forall i, j | SameBlob(files - ids, i, j)
      ensures i == j
    {
      assert SameBlob(files, i, j);
    }
  }

  lemma InsertKeepsConsistent(db: Db, b: string, f: string, deleteAfter: Option<int>)
    requires Consistent(db)
    ensures Consistent(InsertFile(db, b, f, deleteAfter))
  {
    if !HasFile(db, b, f) {
      var db' := InsertFile(db, b, f, deleteAfter);
      NewRowKeepsKeys(db.files, db.nextId, Row(b, f, db.nextOid, deleteAfter));
      forall oid | oid in db'.blobs
        ensures HasOwner(db'.files, oid)
      {
        if oid in db.blobs {
          assert HasOwner(db.files, oid);
          var id :| OwnedBy(db.files, oid, id);
          assert OwnedBy(db'.files, oid, id);
        } else {
          assert OwnedBy(db'.files, oid, db.nextId);
        }
      }
    }
  }

  lemma InsertLeavesFile(db: Db, b: string, f: string, deleteAfter: Option<int>)
    ensures HasFile(InsertFile(db, b, f, deleteAfter), b, f)
  {
    if !HasFile(db, b, f) {
      assert InsertFile(db, b, f, deleteAfter).files[db.nextId].Named(b, f);
    }
  }

  lemma DeleteKeepsConsistent(db: Db, ids: set<FileId>)
    requires Consistent(db)
    ensures Consistent(DeleteFiles(db, ids))
  {
    var db' := DeleteFiles(db, ids);
    FewerRowsKeepKeys(db.files, ids);
    forall id | id in db'.files
      ensures db'.files[id].blob in db'.blobs
    {
      KeptBlob(db, ids, id);
    }
    forall oid | oid in db'.blobs
      ensures HasOwner(db'.files, oid)
    {
      assert HasOwner(db.files, oid);
      var id :| OwnedBy(db.files, oid, id);
      assert OwnedBy(db'.files, oid, id);
    }
  }

  /** Deleting other rows does not unlink a row's object. */
  lemma KeptBlob(db: Db, ids: set<FileId>, id: FileId)
    requires OwnBlobs(db.files) && id in db.files && id !in ids
    ensures db.files[id].blob !in BlobsOf(db, ids)
  {
    forall other | other in ids && other in db.files
      ensures db.files[other].blob != db.files[id].blob
    {
      assert !SameBlob(db.files, other, id);
    }
  }

  lemma SetBlobKeepsConsistent(db: Db, oid: Oid, content: Option<Bytes>)
    requires Consistent(db)
    requires content.Some? ==> |content.value| <= I64_MAX
    ensures Consistent(SetBlob(db, oid, content))
  {
    var db' := SetBlob(db, oid, content);
    assert db'.files == db.files && db'.blobs.Keys == db.blobs.Keys;
  }

  class Database {
    var buckets: map<string, Option<int>>
    var files: map<FileId, Row>
    var blobs: map<Oid, Bytes>
    var nextId: nat
    var nextOid: nat

    constructor ()
      ensures State() == Db(map[], map[], map[], 0, 0)
      ensures Consistent(State())
    {
      buckets, files, blobs, nextId, nextOid := map[], map[], map[], 0, 0;
    }

    function State(): Db
      reads this
    {
      Db(buckets, files, blobs, nextId, nextOid)
    }

    /** `insert into buckets`, false when the unique index on the name refuses it. */
    method InsertBucket(name: string, ttl: Option<int>) returns (created: bool)
      modifies this
      ensures created <==> name !in old(buckets)
      ensures State() == if created then old(State()).(buckets := old(buckets)[name := ttl]) else old(State())
      ensures old(Consistent(State())) ==> Consistent(State())
    {
      created := name !in buckets;
      if created {
        buckets := buckets[name := ttl];
      }
    }

    /** `select id, blob from files where bucket_id = $1 and filename = $2` */
    method SelectFile(b: string, f: string) returns (r: Option<FileId>)
      ensures r.Some? <==> HasFile(State(), b, f)
      ensures r.Some? ==> r.value in files && files[r.value].Named(b, f)
    {
      var todo := files.Keys;
      while todo != {}
        invariant todo <= files.Keys
        invariant forall id :: id in files && id !in todo ==> !files[id].Named(b, f)
      {
        var id :| id in todo;
        if files[id].Named(b, f) {
          return Some(id);
        }
        todo := todo - {id};
      }
      r := None;
    }

    /** `insert into files ... lo_create(0)`: the object is made while the row is being
        built, and goes again with the statement when the unique index refuses the row. */
    method InsertRow(b: string, f: string, deleteAfter: Option<int>) returns (r: Option<FileId>)
      modifies this
      ensures r.None? <==> old(HasFile(State(), b, f))
      ensures State() == old(InsertFile(State(), b, f, deleteAfter))
      ensures r.Some? ==> r.value == old(nextId)
    {
      var before := blobs;
      blobs := blobs[nextOid := []];
      var clash := SelectFile(b, f);
      if clash.Some? {
        blobs := before;
        r := None;
      } else {
        files := files[nextId := Row(b, f, nextOid, deleteAfter)];
        r := Some(nextId);
        nextId, nextOid := nextId + 1, nextOid + 1;
      }
    }

    /** Deletes rows one by one; the `files_delete` trigger runs `lo_manage(blob)` for each. */
    method DeleteRows(ids: set<FileId>)
      requires ids <= files.Keys
      modifies this
      ensures State() == DeleteFiles(old(State()), ids)
    {
      var todo := ids;
      ghost var done := {};
      assert BlobsOf(old(State()), {}) == {};
      while todo != {}
        invariant done !! todo && done + todo == ids
        invariant State() == DeleteFiles(old(State()), done)
      {
        var id :| id in todo;
        DeleteOneMore(old(State()), done, id);
        blobs := blobs - {files[id].blob};
        files := files - {id};
        todo, done := todo - {id}, done + {id};
      }
    }
  }

  lemma DeleteOneMore(db: Db, done: set<FileId>, id: FileId)
    requires id in db.files
    ensures DeleteFiles(db, done + {id}).files == DeleteFiles(db, done).files - {id}
    ensures DeleteFiles(db, done + {id}).blobs == DeleteFiles(db, done).blobs - {db.files[id].blob}
  {
    assert BlobsOf(db, done + {id}) == BlobsOf(db, done) + {db.files[id].blob};
  }
}
