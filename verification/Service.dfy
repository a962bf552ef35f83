/** What the write requests mean when the database answers every query: the response and
    the store afterwards, as functions of the store before and of the request. */
module Service {
  import opened ByteStrings
  import opened LargeObjects
  import opened Tables
  import opened FileHandles

  /** A request body as it arrives: its chunks, then the end of the stream or a failure. */
  datatype Body = Body(chunks: seq<Bytes>, broken: bool) {
    function Whole(): Bytes { Flatten(chunks) }
  }

  datatype Response = Done | BucketDoesNotExist | FileDoesNotExist | Conflict | Internal

  /** Result of matching a body against a file; StreamFailed: the body broke off first. */
  datatype Verdict = Matches | LengthMismatch | DataMismatch | StreamFailed

  /** The file from `start` on; nothing when `start` is past its end. */
  function Tail(content: Bytes, start: nat): Bytes {
    if start <= |content| then content[start..] else []
  }

  /** Chunk by chunk: each chunk against the bytes the file has next, then the file's end. */
  function RangeVerdict(rest: Bytes, body: Body): Verdict
    decreases |body.chunks|
  {
    if body.chunks == [] then
      if body.broken then StreamFailed else if rest == [] then Matches else LengthMismatch
    else
      var c := body.chunks[0];
      if |rest| < |c| then LengthMismatch
      else if rest[..|c|] != c then DataMismatch
      else RangeVerdict(rest[|c|..], body.(chunks := body.chunks[1..]))
  }

  /** What is left to decide once `i` chunks have matched, up to offset `at` of the file. */
  function VerdictFrom(content: Bytes, at: nat, body: Body, i: nat): Verdict
    requires i <= |body.chunks|
  {
    RangeVerdict(Tail(content, at), body.(chunks := body.chunks[i..]))
  }

  lemma VerdictFromStart(content: Bytes, start: nat, body: Body)
    ensures VerdictFrom(content, start, body, 0) == RangeVerdict(Tail(content, start), body)
  {
    assert body.chunks[0..] == body.chunks;
  }

  /** One step of the comparison. */
  lemma VerdictStep(content: Bytes, at: nat, body: Body, i: nat, next: nat, j: nat)
    requires i < |body.chunks| && next == at + |body.chunks[i]| && j == i + 1
    ensures var c, rest := body.chunks[i], Tail(content, at);
            VerdictFrom(content, at, body, i) ==
            if |rest| < |c| then LengthMismatch
            else if rest[..|c|] != c then DataMismatch
            else VerdictFrom(content, next, body, j)
  {
    var c, rest := body.chunks[i], Tail(content, at);
    assert body.chunks[i..][1..] == body.chunks[j..];
    if |c| <= |rest| {
      assert rest[|c|..] == Tail(content, next);
    }
  }

  lemma VerdictAtEnd(content: Bytes, at: nat, body: Body)
    ensures VerdictFrom(content, at, body, |body.chunks|) ==
            if body.broken then StreamFailed else if Tail(content, at) == [] then Matches else LengthMismatch
  {
    assert body.chunks[|body.chunks|..] == [];
  }

  function Judged(v: Verdict): Response {
    match v
    case Matches => Done
    case LengthMismatch | DataMismatch => Conflict
    case StreamFailed => Internal
  }

  /** When an append request appends rather than compares. The handler's rule is Shipped;
      README.md documents Readme. */
  datatype AppendRule = Shipped | Readme {
    predicate Appends(offset: u64, size: nat) {
      match this
      case Shipped => size < offset
      case Readme => offset == size
    }
  }

  ghost function IdOf(db: Db, b: string, f: string): (id: FileId)
    requires HasFile(db, b, f)
    ensures id in db.files && db.files[id].Named(b, f)
  {
    var id :| id in db.files && db.files[id].Named(b, f);
    id
  }

  ghost function OidOf(db: Db, b: string, f: string): (oid: Oid)
    requires HasFile(db, b, f)
    ensures Consistent(db) ==> oid in db.blobs
  {
    db.files[IdOf(db, b, f)].blob
  }

  /** The committed content of the file. */
  ghost function Content(db: Db, b: string, f: string): Bytes
    requires Consistent(db) && HasFile(db, b, f)
  {
    db.blobs[OidOf(db, b, f)]
  }

  /** Names are unique, so any row of that name is the file. */
  lemma SameFile(db: Db, b: string, f: string, id: FileId)
    requires Consistent(db) && id in db.files && db.files[id].Named(b, f)
    ensures HasFile(db, b, f) && IdOf(db, b, f) == id && Content(db, b, f) == db.blobs[db.files[id].blob]
  {
    assert SameName(db.files, IdOf(db, b, f), id);
  }

  /** A body that cannot be written in full after `size` bytes. */
  predicate CannotStore(body: Body, size: nat) {
    body.broken || size + |body.Whole()| > I64_MAX
  }

  /** The store with the empty file a PUT creates before it writes. */
  ghost function Claimed(db: Db, now: int, b: string, f: string): Db {
    if b in db.buckets then InsertFile(db, b, f, DeleteAfter(now, db.buckets[b])) else db
  }

  ghost function Put(db: Db, now: int, b: string, f: string, body: Body): (Db, Response)
    requires Consistent(db)
  {
    if b !in db.buckets then (db, BucketDoesNotExist)
    else if HasFile(db, b, f) then (db, Judged(RangeVerdict(Content(db, b, f), body)))
    else
      var created := Claimed(db, now, b, f);
      if CannotStore(body, 0) then (created, Internal)
      else (SetBlob(created, db.nextOid, Some(body.Whole())), Done)
  }

  /** What an append request does to the content of an existing file. */
  function AppendTo(rule: AppendRule, content: Bytes, offset: u64, body: Body): (Bytes, Response) {
    if rule.Appends(offset, |content|) then
      if CannotStore(body, |content|) then (content, Internal) else (content + body.Whole(), Done)
    else if offset > I64_MAX then (content, Internal)
    else (content, Judged(RangeVerdict(Tail(content, offset), body)))
  }

  ghost function Append(rule: AppendRule, db: Db, b: string, f: string, offset: u64, body: Body): (Db, Response)
    requires Consistent(db)
  {
    if b !in db.buckets then (db, BucketDoesNotExist)
    else if !HasFile(db, b, f) then (db, FileDoesNotExist)
    else
      var (content, r) := AppendTo(rule, Content(db, b, f), offset, body);
      (SetBlob(db, OidOf(db, b, f), Some(content)), r)
  }

  /** The file a PUT creates before it writes is the new row, and empty. */
  lemma ClaimedIsEmpty(db: Db, now: int, b: string, f: string)
    requires Consistent(db) && b in db.buckets && !HasFile(db, b, f)
    ensures var db1 := Claimed(db, now, b, f);
            && Consistent(db1) && b in db1.buckets && HasFile(db1, b, f)
            && OidOf(db1, b, f) == db.nextOid && Content(db1, b, f) == []
  {
    InsertKeepsConsistent(db, b, f, DeleteAfter(now, db.buckets[b]));
    var db1 := Claimed(db, now, b, f);
    assert db1.files[db.nextId].Named(b, f);
    SameFile(db1, b, f, db.nextId);
  }

  lemma PutKeepsConsistent(db: Db, now: int, b: string, f: string, body: Body)
    requires Consistent(db)
    ensures Consistent(Claimed(db, now, b, f)) && Consistent(Put(db, now, b, f, body).0)
  {
    if b in db.buckets {
      InsertKeepsConsistent(db, b, f, DeleteAfter(now, db.buckets[b]));
      if !CannotStore(body, 0) {
        SetBlobKeepsConsistent(Claimed(db, now, b, f), db.nextOid, Some(body.Whole()));
      }
    }
  }

  /** What a missing bucket and a missing file are answered. */
  lemma MissingAnswers(rule: AppendRule, db: Db, now: int, b: string, f: string, offset: u64, body: Body)
    requires Consistent(db)
    ensures Put(db, now, b, f, body).1 == BucketDoesNotExist <==> b !in db.buckets
    ensures Put(db, now, b, f, body).1 != FileDoesNotExist
    ensures Append(rule, db, b, f, offset, body).1 == BucketDoesNotExist <==> b !in db.buckets
    ensures Append(rule, db, b, f, offset, body).1 == FileDoesNotExist <==> b in db.buckets && !HasFile(db, b, f)
    ensures b !in db.buckets ==> Put(db, now, b, f, body).0 == db
    ensures b !in db.buckets || !HasFile(db, b, f) ==> Append(rule, db, b, f, offset, body).0 == db
  {
  }

  lemma AppendKeepsConsistent(rule: AppendRule, db: Db, b: string, f: string, offset: u64, body: Body)
    requires Consistent(db)
    ensures Consistent(Append(rule, db, b, f, offset, body).0)
  {
    if HasFile(db, b, f) {
      var (content, _) := AppendTo(rule, Content(db, b, f), offset, body);
      SetBlobKeepsConsistent(db, OidOf(db, b, f), Some(content));
    }
  }
}
