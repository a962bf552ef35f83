/** Byte strings, as uploads and large objects hold them. */
module ByteStrings {

  type byte = b: int | 0 <= b < 256

  type Bytes = seq<byte>

  datatype Option<+T> = None | Some(value: T)

  function Min(a: int, b: int): int {
    if a <= b then a else b
  }

  /** The bytes of a chunked stream, in order. */
  function Flatten(chunks: seq<Bytes>): Bytes {
    if chunks == [] then [] else chunks[0] + Flatten(chunks[1..])
  }

  /** `b` written `k` times in a row. */
  function Repeat(b: Bytes, k: nat): Bytes {
    if k == 0 then [] else b + Repeat(b, k - 1)
  }

  lemma {:induction false} FlattenConcat(a: seq<Bytes>, b: seq<Bytes>)
    ensures Flatten(a + b) == Flatten(a) + Flatten(b)
  {
    if a == [] {
      assert a + b == b;
    } else {
      assert (a + b)[1..] == a[1..] + b;
      FlattenConcat(a[1..], b);
    }
  }

  lemma FlattenSnoc(a: seq<Bytes>, c: Bytes)
    ensures Flatten(a + [c]) == Flatten(a) + c
  {
    FlattenConcat(a, [c]);
    assert Flatten([c]) == c;
  }

  /** Sending one more chunk of a stream adds that chunk to the bytes sent. */
  lemma FlattenTake(chunks: seq<Bytes>, k: nat)
    requires k < |chunks|
    ensures Flatten(chunks[..k + 1]) == Flatten(chunks[..k]) + chunks[k]
  {
    assert chunks[..k + 1] == chunks[..k] + [chunks[k]];
    FlattenSnoc(chunks[..k], chunks[k]);
  }

  lemma FlattenTakePrefix(chunks: seq<Bytes>, k: nat)
    requires k <= |chunks|
    ensures Flatten(chunks) == Flatten(chunks[..k]) + Flatten(chunks[k..])
  {
    assert chunks == chunks[..k] + chunks[k..];
    FlattenConcat(chunks[..k], chunks[k..]);
  }

  lemma {:induction false} RepeatSnoc(b: Bytes, k: nat)
    ensures Repeat(b, k + 1) == Repeat(b, k) + b
  {
    if k > 0 {
      RepeatSnoc(b, k - 1);
    }
  }

  lemma {:induction false} RepeatLength(b: Bytes, k: nat)
    ensures |Repeat(b, k)| == k * |b|
  {
    if k > 0 {
      RepeatLength(b, k - 1);
      assert k * |b| == (k - 1) * |b| + |b|;
    }
  }
}
