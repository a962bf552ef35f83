/** PostgreSQL large objects as one transaction sees them through a descriptor:
    a byte string and a cursor, with `loread`, `lowrite` and `lo_lseek64`.
    An object is sparse: a write past its end fills the gap with zeros. */
module LargeObjects {
  import opened ByteStrings

  const I32_MAX := 0x7FFF_FFFF
  const U32_MAX := 0xFFFF_FFFF
  const I64_MAX := 0x7FFF_FFFF_FFFF_FFFF
  const U64_MAX := 0xFFFF_FFFF_FFFF_FFFF

  type u32 = x: int | 0 <= x <= U32_MAX
  type i32 = x: int | -I32_MAX - 1 <= x <= I32_MAX
  type u64 = x: int | 0 <= x <= U64_MAX
  type i64 = x: int | -I64_MAX - 1 <= x <= I64_MAX

  /** Rust's `n as i32` for a `u32`: the same 32 bits, read as two's complement. */
  function AsI32(n: u32): i32 {
    if n <= I32_MAX then n else n - U32_MAX - 1
  }

  /** Rust's `n as i64` for a `u64`: the same 64 bits, read as two's complement. */
  function AsI64(n: u64): i64 {
    if n <= I64_MAX then n else n - U64_MAX - 1
  }

  /** The casts keep the low 32 and 64 bits and read them as signed numbers. */
  lemma CastsKeepBits(n: u32, m: u64)
    ensures -0x8000_0000 <= AsI32(n) < 0x8000_0000 && (n - AsI32(n)) % 0x1_0000_0000 == 0
    ensures -0x8000_0000_0000_0000 <= AsI64(m) < 0x8000_0000_0000_0000
    ensures (m - AsI64(m)) % 0x1_0000_0000_0000_0000 == 0
  {
  }

  datatype SeekFrom = Start(n: u64) | Current(d: i64) | End(d: i64)

  datatype OpenObject = OpenObject(content: Bytes, cursor: nat) {

    function Available(): nat {
      if cursor <= |content| then |content| - cursor else 0
    }

    function Target(seek: SeekFrom): int {
      match seek
      case Start(n) => AsI64(n)
      case Current(d) => cursor + d
      case End(d) => |content| + d
    }

    /** `lo_lseek64` refuses an offset that is negative or does not fit its `i64` answer. */
    function SeekTo(seek: SeekFrom): Option<OpenObject> {
      var t := Target(seek);
      if 0 <= t <= I64_MAX then Some(this.(cursor := t)) else None
    }

    function ReadData(count: nat, limit: nat): Bytes {
      var k := Granted(Min(count, Available()), limit);
      if k == 0 then [] else content[cursor..cursor + k]
    }

    function Write(data: Bytes): OpenObject {
      OpenObject(Overlay(content, cursor, data), cursor + |data|)
    }
  }

  /** How much of `want` bytes one call moves: the database may stop short, but moves
      at least one byte when there is one to move. */
  function Granted(want: nat, limit: nat): (k: nat)
    ensures k <= want
    ensures k == 0 <==> want == 0
  {
    if want == 0 then 0 else if limit == 0 then 1 else Min(want, limit)
  }

  /** Every short answer is possible. */
  lemma AnyPartGranted(want: nat, k: nat)
    requires 0 < k <= want
    ensures Granted(want, k) == k
  {
  }

  function Zeros(n: nat): Bytes {
    seq(n, _ => 0)
  }

  /** `data` laid over `content` at offset `at`, zeros filling any gap before it. */
  function Overlay(content: Bytes, at: nat, data: Bytes): (r: Bytes)
    ensures data != [] ==> |r| == (if |content| <= at + |data| then at + |data| else |content|)
    ensures data == [] ==> r == content
  {
    if data == [] then content else
    var padded := if at <= |content| then content else content + Zeros(at - |content|);
    padded[..at] + data + (if at + |data| <= |content| then content[at + |data|..] else [])
  }

  /** Byte by byte: inside the written range the new data, elsewhere what was there, and
      zero in the gap between the old end and the write. */
  lemma OverlayAt(content: Bytes, at: nat, data: Bytes, k: nat)
    requires data != [] && k < |Overlay(content, at, data)|
    ensures Overlay(content, at, data)[k] ==
            if at <= k < at + |data| then data[k - at]
            else if k < |content| then content[k]
            else 0
  {
  }

  /** Only a write from past the end makes zeros; a write at the end appends. */
  lemma OverlayAtEnd(content: Bytes, data: Bytes)
    ensures Overlay(content, |content|, data) == content + data
  {
  }

  /** Two adjacent writes are one write of both. */
  lemma OverlayTwice(content: Bytes, at: nat, a: Bytes, b: Bytes)
    ensures Overlay(Overlay(content, at, a), at + |a|, b) == Overlay(content, at, a + b)
  {
    if a == [] {
      assert a + b == b;
    } else if b == [] {
      assert a + b == a;
    } else {
      var two := Overlay(Overlay(content, at, a), at + |a|, b);
      var one := Overlay(content, at, a + b);
      forall k: nat | k < |one|
        ensures two[k] == one[k]
      {
        OverlayAt(content, at, a + b, k);
        OverlayAt(Overlay(content, at, a), at + |a|, b, k);
        if k < |Overlay(content, at, a)| {
          OverlayAt(content, at, a, k);
        }
      }
    }
  }

  lemma WriteMore(o: OpenObject, data: Bytes, done: nat, n: nat)
    requires done + n <= |data|
    ensures o.Write(data[..done]).Write(data[done..][..n]) == o.Write(data[..done + n])
  {
    var more := data[done..][..n];
    assert data[..done] + more == data[..done + n];
    OverlayTwice(o.content, o.cursor, data[..done], more);
  }
}
