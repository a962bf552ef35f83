/** File handles and the bucket operations that hand them out. */
module FileHandles {
  import opened ByteStrings
  import opened LargeObjects
  import opened Tables
  import opened Polls
  import opened BlobHandles

  /** How a query outside a handle's own transaction goes; such a statement commits by
      itself, so a lost answer does not undo it. */
  datatype QueryFate = Works | Fails | AnswerLost

  /** How the database meets the queries of one request, the polls of its handle included. */
  datatype Env = Env(bucket: QueryFate, insert: QueryFate, select: QueryFate, open: QueryFate, ticks: seq<Tick>) {
    ghost predicate Calm() {
      bucket.Works? && insert.Works? && select.Works? && open.Works? && AllClean(ticks)
    }
  }

  datatype OpenResult = Opened(file: FileHandle) | DoesNotExist | OpenFailed

  datatype CreateResult = Created(file: FileHandle) | FileExists | CreateFailed

  /** What an append means: the data at the end, or a transaction nothing can be
      committed from any more. */
  ghost predicate AppendGives(tx0: Option<Transaction>, data: Bytes, tx1: Option<Transaction>, r: Result<()>) {
    && (r.Ok? ==>
          && Usable(tx0)
          && var content := tx0.value.blob.content + data;
          && |content| <= I64_MAX
          && tx1 == Some(Transaction(OpenObject(content, |content|), false)))
    && (r.Err? ==> !Usable(tx1))
  }

  datatype FileHandle = FileHandle(blob: BlobHandle, id: FileId) {

    /** A handle just opened on the committed content of row `id`. */
    ghost predicate Fresh(db: Database, ticks: seq<Tick>)
      reads db, blob
    {
      && id in db.files && db.files[id].blob in db.blobs
      && blob.db == db && blob.oid == db.files[id].blob && blob.ticks == ticks && blob.seeks == []
      && blob.View() == Handle(Some(Transaction(OpenObject(db.blobs[blob.oid], 0), false)), None, 0)
    }

    /** Seeks to the end, then writes all of `data`. */
    method Append(data: Bytes) returns (r: Result<()>)
      requires blob.state.None?
      modifies blob`inner, blob`state, blob`ticks, blob`position, blob`seeks, blob.db`blobs
      ensures blob.state.None? && blob.db.State() == old(blob.db.State())
      ensures blob.seeks == old(blob.seeks) + [End(0)]
      ensures AppendGives(old(blob.inner), data, blob.inner, r)
      ensures (AllClean(old(blob.ticks)) && old(Usable(blob.inner) && blob.Durable().Some?)
               && |old(blob.inner).value.blob.content| + |data| <= I64_MAX) ==> r.Ok?
      ensures AllClean(old(blob.ticks)) ==> AllClean(blob.ticks)
      ensures AllAnswered(old(blob.ticks)) ==> AllAnswered(blob.ticks)
    {
      var end := blob.Seek(End(0));
      if end.Err? {
        return Err(end.error);
      }
      r := blob.WriteAll(data);
      OverlayAtEnd(old(blob.inner).value.blob.content, data);
    }

    method Commit() returns (r: Result<()>)
      requires blob.state.None?
      modifies blob`inner, blob`state, blob`ticks, blob.db`blobs
      ensures blob.db.State() == SetBlob(old(blob.db.State()), blob.oid, blob.Durable())
      ensures CloseGives(old(blob.inner), old(blob.Durable()), blob.inner, blob.Durable(), r)
      ensures AllAnswered(old(blob.ticks)) && r.Err? ==> blob.Durable() == old(blob.Durable())
      ensures AllClean(old(blob.ticks)) && old(Usable(blob.inner) && blob.Durable().Some?) ==> r.Ok?
    {
      r := blob.Shutdown();
    }

    /** `select updated_at from files where id = $1` in the handle's transaction; true when
        there is an answer. */
    method Metadata(fate: QueryFate) returns (found: bool)
      requires Usable(blob.inner)
      ensures found <==> fate.Works? && id in blob.db.files
    {
      found := fate.Works? && id in blob.db.files;
    }
  }

  method OpenHandle(db: Database, id: FileId, fate: QueryFate, ticks: seq<Tick>) returns (r: OpenResult)
    requires id in db.files
    ensures if fate.Works? && db.files[id].blob in db.blobs then r.Opened? else r.OpenFailed?
    ensures r.Opened? ==> fresh(r.file.blob) && r.file.id == id && r.file.Fresh(db, ticks)
  {
    if !fate.Works? || db.files[id].blob !in db.blobs {
      return OpenFailed;
    }
    var blob := new BlobHandle(db, db.files[id].blob, ticks);
    r := Opened(FileHandle(blob, id));
  }

  /** `Bucket::file` */
  method OpenFile(db: Database, b: string, f: string, env: Env) returns (r: OpenResult)
    requires Consistent(db.State())
    ensures r.DoesNotExist? <==> env.select.Works? && !HasFile(db.State(), b, f)
    ensures r.Opened? <==> env.select.Works? && HasFile(db.State(), b, f) && env.open.Works?
    ensures r.Opened? ==> fresh(r.file.blob) && r.file.Fresh(db, env.ticks) && db.files[r.file.id].Named(b, f)
  {
    var row := db.SelectFile(b, f);
    if !env.select.Works? {
      return OpenFailed;
    }
    if row.None? {
      return DoesNotExist;
    }
    r := OpenHandle(db, row.value, env.open, env.ticks);
  }

  function DeleteAfter(now: int, ttl: Option<int>): Option<int> {
    if ttl.Some? then Some(now + ttl.value) else None
  }

  /** `Bucket::create_file`: inserts the row, then opens a handle, in two transactions. */
  method CreateFile(db: Database, b: string, ttl: Option<int>, f: string, now: int, env: Env) returns (r: CreateResult)
    requires Consistent(db.State())
    modifies db
    ensures Consistent(db.State())
    ensures env.insert.Fails? ==> db.State() == old(db.State()) && r.CreateFailed?
    ensures !env.insert.Fails? ==> db.State() == old(InsertFile(db.State(), b, f, DeleteAfter(now, ttl)))
    ensures !env.insert.Fails? ==> HasFile(db.State(), b, f)
    ensures r.FileExists? <==> env.insert.Works? && old(HasFile(db.State(), b, f))
    ensures r.Created? <==> env.insert.Works? && !old(HasFile(db.State(), b, f)) && env.open.Works?
    ensures r.Created? ==>
              && fresh(r.file.blob) && r.file.Fresh(db, env.ticks)
              && r.file.id == old(db.nextId) && r.file.blob.oid == old(db.nextOid)
  {
    if env.insert.Fails? {
      return CreateFailed;
    }
    InsertKeepsConsistent(db.State(), b, f, DeleteAfter(now, ttl));
    InsertLeavesFile(db.State(), b, f, DeleteAfter(now, ttl));
    var row := db.InsertRow(b, f, DeleteAfter(now, ttl));
    if env.insert.AnswerLost? {
      return CreateFailed;
    }
    if row.None? {
      return FileExists;
    }
    var handle := OpenHandle(db, row.value, env.open, env.ticks);
    r := if handle.Opened? then Created(handle.file) else CreateFailed;
  }
}
