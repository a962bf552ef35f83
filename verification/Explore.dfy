/** Reading a file back: `get_explore` and the stream of its response body. */
module Explore {
  import opened ByteStrings
  import opened LargeObjects
  import opened Tables
  import opened Polls
  import opened BlobHandles
  import opened FileHandles
  import opened Service
  import opened Api
  import opened ClientProperties

  const BUFFER_SIZE := 64 * 1024

  /** `length` is the Content-Length header; `complete` is false when the body broke off. */
  datatype ExploreResponse = Streamed(length: nat, chunks: seq<Bytes>, complete: bool) | Refused(why: Response)

  predicate Buffered(chunks: seq<Bytes>) {
    forall i :: 0 <= i < |chunks| ==> 0 < |chunks[i]| <= BUFFER_SIZE
  }

  /** The stream of the response body: one read per chunk, until a read gives nothing. */
  method StreamFile(file: BlobHandle) returns (chunks: seq<Bytes>, complete: bool)
    requires file.state.None? && Usable(file.inner) && file.inner.value.blob.cursor == 0
    modifies file`inner, file`state, file`ticks, file.db`blobs
    ensures file.db.State() == old(file.db.State())
    ensures forall i :: 0 <= i < |chunks| ==> 0 < |chunks[i]| <= 65536
    ensures Flatten(chunks) <= old(file.inner.value.blob.content)
    ensures complete ==> Flatten(chunks) == old(file.inner.value.blob.content)
    ensures AllClean(old(file.ticks)) && old(file.Durable().Some?) ==> complete
  {
    ghost var content := file.inner.value.blob.content;
    ghost var at := 0;
    chunks := [];
    while true
      invariant at <= |content| && Buffered(chunks) && Flatten(chunks) == content[..at]
      invariant file.state.None? && file.db.State() == old(file.db.State())
      invariant file.inner == Some(Transaction(OpenObject(content, at), false))
      invariant AllClean(old(file.ticks)) ==> AllClean(file.ticks)
      decreases |content| - at
    {
      var data := file.Read(BUFFER_SIZE);
      if data.Err? {
        complete := false;
        return;
      }
      if data.value == [] {
        complete := true;
        return;
      }
      FlattenSnoc(chunks, data.value);
      assert content[..at] + data.value == content[..at + |data.value|];
      chunks := chunks + [data.value];
      at := at + |data.value|;
    }
  }

  /** GET `/explore/:bucketName/:filename` */
  method GetExplore(db: Database, b: string, f: string, metadata: QueryFate, env: Env) returns (r: ExploreResponse)
    requires Consistent(db.State())
    modifies db
    ensures db.State() == old(db.State())
    ensures r.Streamed? ==>
              && b in db.buckets && HasFile(db.State(), b, f)
              && var content := Content(old(db.State()), b, f);
              && r.length == |content|
              && (forall i :: 0 <= i < |r.chunks| ==> 0 < |r.chunks[i]| <= 65536)
              && Flatten(r.chunks) <= content
              && (r.complete ==> Flatten(r.chunks) == content)
    ensures r == Refused(BucketDoesNotExist) <==> env.bucket.Works? && b !in db.buckets
    ensures r == Refused(FileDoesNotExist) <==>
              env.bucket.Works? && b in db.buckets && env.select.Works? && !HasFile(db.State(), b, f)
    ensures r.Refused? ==> r.why in {BucketDoesNotExist, FileDoesNotExist, Internal}
    ensures r.Streamed? ==> env.bucket.Works? && env.select.Works? && env.open.Works? && metadata.Works?
    ensures env.Calm() && metadata.Works? ==>
              if b !in db.buckets then r == Refused(BucketDoesNotExist)
              else if !HasFile(db.State(), b, f) then r == Refused(FileDoesNotExist)
              else r.Streamed? && r.complete
  {
    if !env.bucket.Works? {
      return Refused(Internal);
    }
    if b !in db.buckets {
      return Refused(BucketDoesNotExist);
    }
    var existing := OpenFile(db, b, f, env);
    if existing.DoesNotExist? {
      return Refused(FileDoesNotExist);
    }
    if existing.OpenFailed? {
      return Refused(Internal);
    }
    var file := existing.file;
    SameFile(db.State(), b, f, file.id);
    var length := file.blob.Seek(End(0));
    if length.Err? {
      return Refused(Internal);
    }
    var rewound := file.blob.Seek(Start(0));
    if rewound.Err? {
      return Refused(Internal);
    }
    var found := file.Metadata(metadata);
    if !found {
      return Refused(Internal);
    }
    var chunks, complete := StreamFile(file.blob);
    r := Streamed(length.value, chunks, complete);
  }

  /** Round trip, whatever fails: after a creating PUT that succeeded, an explore that gets
      as far as streaming announces the length of the uploaded body and sends a first part
      of it, in chunks of its own, or all of it; and if nothing fails, it gets there. */
  method PutThenExplore(db: Database, now: int, b: string, f: string, body: Body,
                        env: Env, metadata: QueryFate, env2: Env)
    returns (put: Response, r: ExploreResponse)
    requires Consistent(db.State()) && b in db.buckets && !HasFile(db.State(), b, f)
    modifies db
    ensures put == Done ==> db.State() == Put(old(db.State()), now, b, f, body).0
    ensures put == Done && r.Streamed? ==>
              && r.length == |body.Whole()| && Flatten(r.chunks) <= body.Whole()
              && (r.complete ==> Flatten(r.chunks) == body.Whole())
    ensures put == Done && r.Refused? ==> r.why == Internal
    ensures env.Calm() && !CannotStore(body, 0) ==> put == Done
    ensures put == Done && metadata.Works? && env2.Calm() ==> r.Streamed? && r.complete
  {
    PutCreates(db.State(), now, b, f, body);
    put := PutWrite(db, now, b, f, body, env);
    r := GetExplore(db, b, f, metadata, env2);
  }
}
