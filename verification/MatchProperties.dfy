/** What the chunk-by-chunk comparison decides about the body as a whole. */
module MatchProperties {
  import opened ByteStrings
  import opened LargeObjects
  import opened Tables
  import opened Service

  /** Chunk `k` is the first that does not continue the file. */
  ghost predicate FailsAt(rest: Bytes, chunks: seq<Bytes>, k: nat) {
    && k < |chunks|
    && Flatten(chunks[..k]) <= rest
    && !(Flatten(chunks[..k + 1]) <= rest)
  }

  lemma PrefixAfter(c: Bytes, x: Bytes, rest: Bytes)
    requires c <= rest
    ensures c + x <= rest <==> x <= rest[|c|..]
  {
    assert rest == c + rest[|c|..];
  }

  lemma {:induction false} VerdictAllMatch(rest: Bytes, body: Body)
    requires body.Whole() <= rest
    ensures RangeVerdict(rest, body) ==
            if body.broken then StreamFailed else if body.Whole() == rest then Matches else LengthMismatch
    decreases |body.chunks|
  {
    if body.chunks != [] {
      var c, more := body.chunks[0], body.(chunks := body.chunks[1..]);
      assert body.Whole() == c + more.Whole();
      PrefixAfter(c, more.Whole(), rest);
      VerdictAllMatch(rest[|c|..], more);
    }
  }

  lemma {:induction false} VerdictFailsAt(rest: Bytes, body: Body, k: nat)
    requires FailsAt(rest, body.chunks, k)
    ensures RangeVerdict(rest, body) ==
            if |rest| < |Flatten(body.chunks[..k + 1])| then LengthMismatch else DataMismatch
    decreases k
  {
    var chunks := body.chunks;
    var c := chunks[0];
    if k == 0 {
      assert chunks[..1] == [c] && Flatten([c]) == c;
    } else {
      var more := chunks[1..];
      assert chunks[..k][1..] == more[..k - 1] && chunks[..k + 1][1..] == more[..k];
      assert Flatten(chunks[..k]) == c + Flatten(more[..k - 1]);
      assert Flatten(chunks[..k + 1]) == c + Flatten(more[..k]);
      PrefixAfter(c, Flatten(more[..k - 1]), rest);
      PrefixAfter(c, Flatten(more[..k]), rest);
      VerdictFailsAt(rest[|c|..], body.(chunks := more), k - 1);
    }
  }

  lemma {:induction false} SomeChunkFails(rest: Bytes, chunks: seq<Bytes>, n: nat) returns (k: nat)
    requires n <= |chunks| && !(Flatten(chunks[..n]) <= rest)
    ensures FailsAt(rest, chunks, k)
  {
    assert Flatten(chunks[..0]) == [];
    if Flatten(chunks[..n - 1]) <= rest {
      k := n - 1;
    } else {
      k := SomeChunkFails(rest, chunks, n - 1);
    }
  }

  /** The full result, without the recursion: it is Matches exactly when a complete body is
      what the file holds, and otherwise the first failing chunk decides, by whether the
      rest of the file is long enough for it. */
  lemma VerdictCharacterised(rest: Bytes, body: Body)
    ensures var v := RangeVerdict(rest, body);
            && (v == Matches <==> !body.broken && body.Whole() == rest)
            && (v == StreamFailed <==> body.broken && body.Whole() <= rest)
            && (v == LengthMismatch <==>
                  || (!body.broken && body.Whole() < rest)
                  || exists k: nat :: FailsAt(rest, body.chunks, k) && |rest| < |Flatten(body.chunks[..k + 1])|)
            && (v == DataMismatch <==>
                  exists k: nat :: FailsAt(rest, body.chunks, k) && |Flatten(body.chunks[..k + 1])| <= |rest|)
  {
    assert body.chunks[..|body.chunks|] == body.chunks;
    if body.Whole() <= rest {
      VerdictAllMatch(rest, body);
      forall k: nat | FailsAt(rest, body.chunks, k)
        ensures false
      {
        FlattenTakePrefix(body.chunks, k + 1);
      }
    } else {
      var k := SomeChunkFails(rest, body.chunks, |body.chunks|);
      forall j: nat | FailsAt(rest, body.chunks, j)
        ensures RangeVerdict(rest, body) ==
                  if |rest| < |Flatten(body.chunks[..j + 1])| then LengthMismatch else DataMismatch
      {
        VerdictFailsAt(rest, body, j);
      }
      assert FailsAt(rest, body.chunks, k);
    }
  }

  /** For a complete body the response depends on its bytes only. */
  lemma CompleteBodyJudged(rest: Bytes, body: Body)
    requires !body.broken
    ensures Judged(RangeVerdict(rest, body)) == if body.Whole() == rest then Done else Conflict
  {
    VerdictCharacterised(rest, body);
  }

  /** Responses and stores of PUT and of append do not depend on how a complete body was
      cut into chunks. */
  lemma ChunkingIndependence(db: Db, now: int, b: string, f: string,
                             rule: AppendRule, offset: u64, one: Body, two: Body)
    requires Consistent(db)
    requires !one.broken && !two.broken && one.Whole() == two.Whole()
    ensures Put(db, now, b, f, one) == Put(db, now, b, f, two)
    ensures Append(rule, db, b, f, offset, one) == Append(rule, db, b, f, offset, two)
  {
    if HasFile(db, b, f) {
      var content := Content(db, b, f);
      CompleteBodyJudged(content, one);
      CompleteBodyJudged(content, two);
      CompleteBodyJudged(Tail(content, offset), one);
      CompleteBodyJudged(Tail(content, offset), two);
    }
  }

  /** The verdict itself does depend on it: against "ab" the body "xyz" is too long as one
      chunk, but differs at once as "x", "yz". */
  lemma VerdictDependsOnChunking()
    ensures var one, two := Body([[120, 121, 122]], false), Body([[120], [121, 122]], false);
            && one.Whole() == two.Whole()
            && RangeVerdict([97, 98], one) == LengthMismatch
            && RangeVerdict([97, 98], two) == DataMismatch
  {
    assert [97, 98][..1] == [97] && [97] != [120];
    assert Flatten([[121, 122]]) == [121, 122];
    assert [[120], [121, 122]][1..] == [[121, 122]];
    assert Flatten([[120, 121, 122]]) == [120, 121, 122];
    assert Flatten([[120], [121, 122]]) == [120] + [121, 122];
  }
}
