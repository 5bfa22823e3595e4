/** Fixed-width integers read from a file: little-endian `u32` and the
    checked `u32` addition that every pool offset goes through. */
module Bytes {
  import opened Results

  type byte = b: int | 0 <= b < 0x100

  type u32 = n: int | 0 <= n < 0x1_0000_0000

  /** `u32::from_le_bytes`: the first byte is the least significant. */
  function LeU32(bs: seq<byte>): u32
    requires |bs| == 4
  {
    bs[0] as int + 0x100 * bs[1] as int + 0x1_0000 * bs[2] as int + 0x100_0000 * bs[3] as int
  }

  /** The u32 stored little-endian at bytes i..i+4 of the file. */
  function U32At(data: seq<byte>, i: nat): u32
    requires i + 4 <= |data|
  {
    data[i] as int + 0x100 * data[i + 1] as int + 0x1_0000 * data[i + 2] as int + 0x100_0000 * data[i + 3] as int
  }

  /** The len bytes of data that start at offset, in file order; no bytes
      at all, wherever offset lies, when len is 0. */
  function Span(data: seq<byte>, offset: nat, len: nat): (r: seq<byte>)
    requires len == 0 || offset + len <= |data|
    ensures |r| == len
    decreases len
  {
    if len == 0 then [] else Span(data, offset, len - 1) + [data[offset + len - 1]]
  }

  /** Span is the slice data[offset..offset + len]. */
  lemma {:induction false} SpanSlice(data: seq<byte>, offset: nat, len: nat)
    requires offset + len <= |data|
    ensures Span(data, offset, len) == data[offset..offset + len]
    decreases len
  {
    if len > 0 {
      SpanSlice(data, offset, len - 1);
      assert data[offset..offset + len] == data[offset..offset + len - 1] + [data[offset + len - 1]];
    }
  }

  /** U32At is LeU32 on the four bytes at i. */
  lemma U32AtSpan(data: seq<byte>, i: nat)
    requires i + 4 <= |data|
    ensures LeU32(Span(data, i, 4)) == U32At(data, i)
  {
    assert Span(data, i, 4) == [data[i], data[i + 1], data[i + 2], data[i + 3]] by {
      assert Span(data, i, 2) == [data[i], data[i + 1]];
    }
  }

  /** `u32::to_le_bytes`, the inverse of LeU32. */
  function LeBytes(v: u32): (bs: seq<byte>)
    ensures |bs| == 4
  {
    [v % 0x100, v / 0x100 % 0x100, v / 0x1_0000 % 0x100, v / 0x100_0000]
  }

  /** Decoding the little-endian bytes of a value gives the value back. */
  lemma LeU32OfLeBytes(v: u32)
    ensures LeU32(LeBytes(v)) == v
  {
    var bs := LeBytes(v);
    var q1, q2, q3 := v / 0x100, v / 0x1_0000, v / 0x100_0000;
    assert q2 == q1 / 0x100;
    assert q3 == q2 / 0x100;
    assert v == bs[0] + 0x100 * q1;
    assert q1 == bs[1] + 0x100 * q2;
    assert q2 == bs[2] + 0x100 * q3;
  }

  /** Four bytes are recovered from the u32 they encode: from_le_bytes loses
      nothing, so the decoded integer is exactly the four bytes read. */
  lemma LeBytesOfLeU32(bs: seq<byte>)
    requires |bs| == 4
    ensures LeBytes(LeU32(bs)) == bs
  {
    var v := LeU32(bs);
    var t3: int := bs[3];
    var t2: int := bs[2] as int + 0x100 * t3;
    var t1: int := bs[1] as int + 0x100 * t2;
    assert v == bs[0] as int + 0x100 * t1;
    assert v % 0x100 == bs[0] && v / 0x100 == t1;
    assert t1 % 0x100 == bs[1] && t1 / 0x100 == t2;
    assert t2 % 0x100 == bs[2] && t2 / 0x100 == t3;
    assert v / 0x1_0000 == t1 / 0x100;
    assert v / 0x100_0000 == t2 / 0x100;
  }

  /** `a + b` on u32 in a debug build: an addition that does not fit panics. */
  function CheckedAdd(a: u32, b: u32): Result<u32> {
    if a + b < 0x1_0000_0000 then Ok(a + b) else Err(Overflow)
  }

  /** The sum a release build computes instead: wrapped to 32 bits. */
  function WrappingAdd(a: u32, b: u32): u32 {
    (a + b) % 0x1_0000_0000
  }

  /** The checked sum is refused exactly when the wrapped sum comes out below
      a, and otherwise the two agree: a debug build panics where a release
      build would silently wrap. */
  lemma CheckedAddWraps(a: u32, b: u32)
    ensures CheckedAdd(a, b).Ok? <==> WrappingAdd(a, b) >= a
    ensures CheckedAdd(a, b).Ok? ==> CheckedAdd(a, b).value == WrappingAdd(a, b)
  {
  }
}
