/** What a client sees over sequences of requests: idempotent PUT, the shipped append rule
    against the documented one, and at-least-once delivery. */
module ClientProperties {
  import opened ByteStrings
  import opened LargeObjects
  import opened Tables
  import opened FileHandles
  import opened Service
  import opened MatchProperties

  // ---------------------------------------------------------------------------
  // PUT: the first creator wins
  // ---------------------------------------------------------------------------

  datatype PutRequest = PutRequest(now: int, body: Body)

  /** A series of PUTs to one name, nothing else in between. */
  ghost function Puts(db: Db, b: string, f: string, requests: seq<PutRequest>): (r: (Db, seq<Response>))
    requires Consistent(db)
    ensures Consistent(r.0) && |r.1| == |requests|
    decreases |requests|
  {
    if requests == [] then (db, []) else
    var first := requests[0];
    PutKeepsConsistent(db, first.now, b, f, first.body);
    var (db1, r1) := Put(db, first.now, b, f, first.body);
    var (dbn, rs) := Puts(db1, b, f, requests[1..]);
    (dbn, [r1] + rs)
  }

  lemma PutCreates(db: Db, now: int, b: string, f: string, body: Body)
    requires Consistent(db) && b in db.buckets && !HasFile(db, b, f)
    ensures var (db1, r) := Put(db, now, b, f, body);
            && Consistent(db1) && HasFile(db1, b, f)
            && (r == Done <==> !CannotStore(body, 0))
            && Content(db1, b, f) == if CannotStore(body, 0) then [] else body.Whole()
  {
    PutKeepsConsistent(db, now, b, f, body);
    var (db1, _) := Put(db, now, b, f, body);
    assert db1.files[db.nextId].Named(b, f);
    SameFile(db1, b, f, db.nextId);
  }

  /** Once the file exists, PUTs answer by comparing with it and change nothing, broken
      bodies included. */
  lemma {:induction false} PutsOnExisting(db: Db, b: string, f: string, requests: seq<PutRequest>)
    requires Consistent(db) && b in db.buckets && HasFile(db, b, f)
    ensures var (db1, rs) := Puts(db, b, f, requests);
            && db1 == db
            && forall i :: 0 <= i < |requests| ==>
                 && (rs[i] == Done <==> !requests[i].body.broken && requests[i].body.Whole() == Content(db, b, f))
                 && (!requests[i].body.broken && rs[i] != Done ==> rs[i] == Conflict)
    decreases |requests|
  {
    if requests != [] {
      VerdictCharacterised(Content(db, b, f), requests[0].body);
      PutsOnExisting(db, b, f, requests[1..]);
    }
  }

  /** First creator wins: a complete PUT to a free name fixes the content for good; every
      later PUT, in whatever chunks, is Done exactly if it has the same bytes, and no later
      PUT changes the store. In particular repeating a PUT is idempotent. */
  lemma FirstCreatorWins(db: Db, b: string, f: string, first: PutRequest, later: seq<PutRequest>)
    requires Consistent(db) && b in db.buckets && !HasFile(db, b, f) && !CannotStore(first.body, 0)
    ensures var (db1, r1) := Put(db, first.now, b, f, first.body);
            && Consistent(db1)
            && r1 == Done
            && var (dbn, rs) := Puts(db1, b, f, later);
            && dbn == db1
            && HasFile(dbn, b, f) && Content(dbn, b, f) == first.body.Whole()
            && forall i :: 0 <= i < |later| ==>
                 (rs[i] == Done <==> !later[i].body.broken && later[i].body.Whole() == first.body.Whole())
  {
    PutCreates(db, first.now, b, f, first.body);
    var (db1, _) := Put(db, first.now, b, f, first.body);
    PutsOnExisting(db1, b, f, later);
  }

  /** A creating PUT that comes to nothing after its row is inserted, for whatever reason,
      leaves the name taken by an empty file: from then on a PUT succeeds exactly if it is
      complete and empty, one with bytes in it conflicts, and none changes the store. */
  lemma AbortedPutTakesTheName(db: Db, now: int, b: string, f: string, later: seq<PutRequest>)
    requires Consistent(db) && b in db.buckets && !HasFile(db, b, f)
    ensures var db1 := Claimed(db, now, b, f);
            && Consistent(db1)
            && var (dbn, rs) := Puts(db1, b, f, later);
            && dbn == db1
            && HasFile(dbn, b, f) && Content(dbn, b, f) == []
            && forall i :: 0 <= i < |later| ==>
                 && (later[i].body.Whole() != [] ==> rs[i] == Conflict)
                 && (rs[i] == Done <==> !later[i].body.broken && later[i].body.Whole() == [])
  {
    ClaimedIsEmpty(db, now, b, f);
    var db1 := Claimed(db, now, b, f);
    PutsOnExisting(db1, b, f, later);
    forall i | 0 <= i < |later| && later[i].body.Whole() != []
      ensures Puts(db1, b, f, later).1[i] == Conflict
    {
      ConflictsWithEmpty(db1, b, f, later, i);
    }
  }

  lemma {:induction false} ConflictsWithEmpty(db: Db, b: string, f: string, requests: seq<PutRequest>, i: nat)
    requires Consistent(db) && b in db.buckets && HasFile(db, b, f) && Content(db, b, f) == []
    requires i < |requests| && requests[i].body.Whole() != []
    ensures Puts(db, b, f, requests).1[i] == Conflict
    decreases i
  {
    if i == 0 {
      VerdictCharacterised([], requests[0].body);
    } else {
      PutsOnExisting(db, b, f, requests[..1]);
      ConflictsWithEmpty(db, b, f, requests[1..], i - 1);
    }
  }

  // ---------------------------------------------------------------------------
  // Append: the shipped rule
  // ---------------------------------------------------------------------------

  /** An append acts on the content of its file as AppendTo says, and on nothing else. */
  lemma AppendActsOnContent(rule: AppendRule, db: Db, b: string, f: string, offset: u64, body: Body)
    requires Consistent(db) && b in db.buckets && HasFile(db, b, f)
    ensures var (db1, r) := Append(rule, db, b, f, offset, body);
            && Consistent(db1) && HasFile(db1, b, f)
            && (Content(db1, b, f), r) == AppendTo(rule, Content(db, b, f), offset, body)
            && db1.files == db.files && db1.buckets == db.buckets
            && forall oid :: oid != OidOf(db, b, f) ==> Lookup(db1, oid) == Lookup(db, oid)
  {
    AppendKeepsConsistent(rule, db, b, f, offset, body);
    SameFile(Append(rule, db, b, f, offset, body).0, b, f, IdOf(db, b, f));
  }

  /** The same append request sent `k` times: the content then, and the response to one more. */
  function Replayed(content: Bytes, offset: u64, body: Body, k: nat): Bytes {
    if k == 0 then content else AppendTo(Shipped, Replayed(content, offset, body, k - 1), offset, body).0
  }

  /** How many sends of `size` bytes it takes to cover a gap of `gap` bytes. */
  function SendsToCover(gap: nat, size: nat): nat
    requires size > 0
  {
    (gap + size - 1) / size
  }

  lemma TimesMonotone(a: nat, b: nat, c: nat)
    requires a <= b
    ensures a * c <= b * c
  {
  }

  lemma QuotientBounds(n: nat, d: nat)
    requires d > 0
    ensures n / d * d <= n < n / d * d + d
  {
    assert n == n / d * d + n % d;
  }

  lemma CoverIffReached(gap: nat, size: nat, k: nat)
    requires size > 0
    ensures k < SendsToCover(gap, size) <==> k * size < gap
  {
    var m := SendsToCover(gap, size);
    QuotientBounds(gap + size - 1, size);
    if k < m {
      TimesMonotone(k + 1, m, size);
      assert (k + 1) * size == k * size + size;
    } else {
      TimesMonotone(m, k, size);
    }
  }

  /** How many bodies of `size` bytes still fit behind `n` bytes. */
  function SendsThatFit(n: nat, size: nat): nat
    requires size > 0 && n <= I64_MAX
  {
    (I64_MAX - n) / size
  }

  lemma FitsIffRoom(n: nat, size: nat, k: nat)
    requires size > 0 && n <= I64_MAX
    ensures k < SendsThatFit(n, size) <==> n + k * size + size <= I64_MAX
  {
    var m := SendsThatFit(n, size);
    QuotientBounds(I64_MAX - n, size);
    assert (k + 1) * size == k * size + size;
    if k < m {
      TimesMonotone(k + 1, m, size);
    } else {
      TimesMonotone(m, k, size);
    }
  }

  /** Below the offset the send appends if there is room; once the file reaches the offset
      it is shorter than a whole body from there, and the send conflicts. */
  lemma OneSend(now: Bytes, offset: u64, body: Body)
    requires !body.broken
    requires |now| < offset + |body.Whole()| && |now| <= I64_MAX
    ensures AppendTo(Shipped, now, offset, body) ==
            if |now| >= offset then (now, Conflict)
            else if |now| + |body.Whole()| <= I64_MAX then (now + body.Whole(), Done)
            else (now, Internal)
  {
    if offset <= |now| {
      CompleteBodyJudged(Tail(now, offset), body);
    }
  }

  lemma RepeatReaches(n: nat, offset: nat, b: Bytes, sent: nat)
    requires b != [] && n < offset && n <= I64_MAX
    requires sent <= SendsToCover(offset - n, |b|) && sent <= SendsThatFit(n, |b|)
    ensures n + |Repeat(b, sent)| < offset + |b|
    ensures n + |Repeat(b, sent)| <= I64_MAX
    ensures n + |Repeat(b, sent)| < offset <==> sent < SendsToCover(offset - n, |b|)
    ensures n + |Repeat(b, sent)| + |b| <= I64_MAX <==> sent < SendsThatFit(n, |b|)
  {
    RepeatLength(b, sent);
    CoverIffReached(offset - n, |b|, sent);
    FitsIffRoom(n, |b|, sent);
    if sent > 0 {
      CoverIffReached(offset - n, |b|, sent - 1);
      FitsIffRoom(n, |b|, sent - 1);
      assert (sent - 1) * |b| == sent * |b| - |b|;
    }
  }

  /** Replaying one append beyond the end under the shipped rule: the first sends, as many
      as it takes for the file to reach the offset, each append the body again, and every
      send after that conflicts; if the file is full before it reaches the offset, every
      send after that fails. None is ever acknowledged as the replay of an earlier one. */
  lemma {:induction false} ReplayCount(content: Bytes, offset: u64, body: Body, k: nat)
    requires !body.broken && body.Whole() != []
    requires |content| < offset && |content| <= I64_MAX
    ensures var toReach := SendsToCover(offset - |content|, |body.Whole()|);
            var toFill := SendsThatFit(|content|, |body.Whole()|);
            var now := Replayed(content, offset, body, k);
            && now == content + Repeat(body.Whole(), Min(k, Min(toReach, toFill)))
            && AppendTo(Shipped, now, offset, body) ==
               if k < Min(toReach, toFill) then (now + body.Whole(), Done)
               else (now, if toReach <= toFill then Conflict else Internal)
  {
    var b := body.Whole();
    var sent := Min(k, Min(SendsToCover(offset - |content|, |b|), SendsThatFit(|content|, |b|)));
    if k > 0 {
      ReplayCount(content, offset, body, k - 1);
      RepeatSnoc(b, k - 1);
    }
    var now := content + Repeat(b, sent);
    assert Replayed(content, offset, body, k) == now;
    RepeatReaches(|content|, offset, b, sent);
    OneSend(now, offset, body);
  }

  /** The two rules agree on a request exactly when it starts before the end, or is empty (at
      an offset a seek accepts), or cannot be carried out by either. */
  lemma ShippedAgreesWithReadme(content: Bytes, offset: u64, body: Body)
    requires |content| <= I64_MAX
    ensures AppendTo(Shipped, content, offset, body) == AppendTo(Readme, content, offset, body) <==>
              || offset < |content|
              || (body.Whole() == [] && offset <= I64_MAX)
              || (offset > I64_MAX && CannotStore(body, |content|))
  {
    VerdictCharacterised(Tail(content, offset), body);
    if body.Whole() == [] {
      assert content + body.Whole() == content;
    } else {
      assert |content + body.Whole()| > |content|;
    }
  }

  /** The documented contract, met by the documented rule. A request is Done exactly if it
      starts at the end, is complete and fits, and then it is appended; or if it starts
      elsewhere and repeats, complete, what the file ends in from there on. It conflicts
      exactly if it starts elsewhere, at an offset a seek accepts, and does not continue
      the file from there, or is complete and stops short. Only an append changes the file. */
  lemma ReadmeContract(content: Bytes, offset: u64, body: Body)
    ensures var (after, r) := AppendTo(Readme, content, offset, body);
            var rest := Tail(content, offset);
            && (r == Done <==>
                  if offset == |content| then !CannotStore(body, |content|)
                  else offset <= I64_MAX && !body.broken && body.Whole() == rest)
            && (r == Conflict <==>
                  && offset != |content| && offset <= I64_MAX
                  && (!(body.Whole() <= rest) || (!body.broken && body.Whole() != rest)))
            && r in {Done, Conflict, Internal}
            && after == if r == Done && offset == |content| then content + body.Whole() else content
  {
    VerdictCharacterised(Tail(content, offset), body);
  }

  /** The shipped rule breaks that contract in its main case: "x" appended to the one-byte
      file "m" at its end, offset 1, is refused. */
  lemma ShippedRefusesAppendAtEnd()
    ensures AppendTo(Shipped, [109], 1, Body([[120]], false)) == ([109], Conflict)
    ensures AppendTo(Readme, [109], 1, Body([[120]], false)) == ([109, 120], Done)
  {
    var body := Body([[120]], false);
    assert body.Whole() == [120];
    CompleteBodyJudged(Tail([109], 1), body);
    assert [109] + [120] == [109, 120];
  }

  // ---------------------------------------------------------------------------
  // Append: at-least-once delivery under the documented rule
  // ---------------------------------------------------------------------------

  /** One try to append a chunk: lost on the way, cut off after a first part, or carried
      out (its acknowledgement may be lost all the same). */
  datatype Attempt = Unsent | Cut(body: Body) | Sent(body: Body) {
    ghost predicate For(data: Bytes) {
      match this
      case Unsent => true
      case Cut(body) => body.broken && body.Whole() <= data
      case Sent(body) => !body.broken && body.Whole() == data
    }

    function Request(): Body {
      if Unsent? then Body([], true) else body
    }
  }

  /** All tries for one chunk, all at the same offset: the content after them and the responses. */
  function Tries(content: Bytes, offset: u64, attempts: seq<Attempt>): (r: (Bytes, seq<Response>))
    ensures |r.1| == |attempts|
    decreases |attempts|
  {
    if attempts == [] then (content, []) else
    var (content1, r1) :=
      if attempts[0].Unsent? then (content, Internal) else AppendTo(Readme, content, offset, attempts[0].Request());
    var (contentn, rs) := Tries(content1, offset, attempts[1..]);
    (contentn, [r1] + rs)
  }

  /** The client resends a chunk until it is acknowledged: the last try was carried out. */
  ghost predicate Delivers(data: Bytes, attempts: seq<Attempt>) {
    && attempts != [] && attempts[|attempts| - 1].Sent?
    && forall i :: 0 <= i < |attempts| ==> attempts[i].For(data)
  }

  lemma {:induction false} TriesAfterDelivery(base: Bytes, data: Bytes, attempts: seq<Attempt>)
    requires |base + data| <= I64_MAX
    requires forall i :: 0 <= i < |attempts| ==> attempts[i].For(data)
    ensures var (content, rs) := Tries(base + data, |base|, attempts);
            && content == base + data
            && forall i :: 0 <= i < |attempts| ==> if attempts[i].Sent? then rs[i] == Done else rs[i] == Internal
    decreases |attempts|
  {
    if attempts != [] {
      if !attempts[0].Unsent? {
        TryAfterDelivery(base, data, attempts[0]);
      }
      TriesAfterDelivery(base, data, attempts[1..]);
    }
  }

  lemma TryAfterDelivery(base: Bytes, data: Bytes, attempt: Attempt)
    requires |base + data| <= I64_MAX && attempt.For(data) && !attempt.Unsent?
    ensures AppendTo(Readme, base + data, |base|, attempt.body) ==
              (base + data, if attempt.Sent? then Done else Internal)
  {
    if data == [] {
      assert base + data == base;
      assert attempt.body.Whole() == [];
      assert base + attempt.body.Whole() == base;
    } else {
      assert Tail(base + data, |base|) == data;
      VerdictCharacterised(data, attempt.body);
    }
  }

  lemma {:induction false} TriesDeliverOnce(base: Bytes, data: Bytes, attempts: seq<Attempt>)
    requires |base + data| <= I64_MAX && Delivers(data, attempts)
    ensures var (content, rs) := Tries(base, |base|, attempts);
            && content == base + data
            && rs[|rs| - 1] == Done
            && forall i :: 0 <= i < |rs| ==> if attempts[i].Sent? then rs[i] == Done else rs[i] == Internal
    decreases |attempts|
  {
    if attempts[0].Sent? {
      TriesAfterDelivery(base, data, attempts[1..]);
    } else {
      TriesDeliverOnce(base, data, attempts[1..]);
    }
  }

  /** The whole upload: chunk after chunk, each at the offset where the one before ended. */
  function Uploaded(content: Bytes, offset: nat, chunks: seq<Bytes>, plan: seq<seq<Attempt>>)
    : (r: (Bytes, seq<seq<Response>>))
    requires |plan| == |chunks| && offset + |Flatten(chunks)| <= U64_MAX
    ensures |r.1| == |plan|
    decreases |chunks|
  {
    if chunks == [] then (content, []) else
    var (content1, r1) := Tries(content, offset, plan[0]);
    var (contentn, rs) := Uploaded(content1, offset + |chunks[0]|, chunks[1..], plan[1..]);
    (contentn, [r1] + rs)
  }

  /** At-least-once delivery is exactly-once in effect: whatever requests and
      acknowledgements are lost or cut off, the file ends up as the initial content and
      every chunk once, in order; every carried-out request is Done, and none conflicts. */
  lemma {:induction false} AtLeastOnceIsExactlyOnce(base: Bytes, chunks: seq<Bytes>, plan: seq<seq<Attempt>>)
    requires |plan| == |chunks| && |base| + |Flatten(chunks)| <= I64_MAX
    requires forall i :: 0 <= i < |chunks| ==> Delivers(chunks[i], plan[i])
    ensures var (content, rs) := Uploaded(base, |base|, chunks, plan);
            && content == base + Flatten(chunks)
            && forall i :: 0 <= i < |plan| ==>
                 && |rs[i]| == |plan[i]|
                 && forall j :: 0 <= j < |plan[i]| ==> rs[i][j] == if plan[i][j].Sent? then Done else Internal
    decreases |chunks|
  {
    if chunks == [] {
      assert base + Flatten(chunks) == base;
    } else {
      TriesDeliverOnce(base, chunks[0], plan[0]);
      AtLeastOnceIsExactlyOnce(base + chunks[0], chunks[1..], plan[1..]);
      assert base + Flatten(chunks) == base + chunks[0] + Flatten(chunks[1..]);
    }
  }
}
