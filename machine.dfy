/**
 * Fixed-width integers as the Rust and Go sources use them, and their
 * little-endian byte encodings (`to_ne_bytes` on the little-endian targets
 * the bridges are built for).
 */
module Machine {
  const U16_LIMIT := 0x1_0000
  const U32_LIMIT := 0x1_0000_0000
  const I32_LIMIT := 0x8000_0000

  type Byte = x: int | 0 <= x < 0x100
  type U16 = x: int | 0 <= x < U16_LIMIT
  type U32 = x: int | 0 <= x < U32_LIMIT

  /** `x as i32` on a `u32`: the two's-complement reading of its 32 bits. */
  function AsI32(x: U32): (r: int)
    ensures -I32_LIMIT <= r < I32_LIMIT
    ensures r % U32_LIMIT == x
    ensures x < I32_LIMIT ==> r == x
  {
    if x < I32_LIMIT then x else x - U32_LIMIT
  }

  /** `i as u32` on an `i32`: its 32 bits read as unsigned; the inverse of AsI32. */
  function AsU32(i: int): (x: U32)
    requires -I32_LIMIT <= i < I32_LIMIT
    ensures AsI32(x) == i
  {
    if i >= 0 then i else i + U32_LIMIT
  }

  function LE16(v: U16): (b: seq<Byte>)
    ensures |b| == 2
  {
    [v % 0x100, v / 0x100]
  }

  function LE32(v: U32): (b: seq<Byte>)
    ensures |b| == 4
  {
    [v % 0x100, v / 0x100 % 0x100, v / 0x100 / 0x100 % 0x100, v / 0x100 / 0x100 / 0x100]
  }

  function ReadLE16(b: seq<Byte>, at: nat): U16
    requires at + 2 <= |b|
  {
    b[at] as int + 0x100 * b[at + 1] as int
  }

  function ReadLE32(b: seq<Byte>, at: nat): U32
    requires at + 4 <= |b|
  {
    b[at] as int + 0x100 * b[at + 1] as int + 0x1_0000 * b[at + 2] as int + 0x100_0000 * b[at + 3] as int
  }

  /** Reading back an encoded 16-bit value gives the value. */
  lemma ReadLE16Of(v: U16, pre: seq<Byte>, post: seq<Byte>)
    ensures ReadLE16(pre + LE16(v) + post, |pre|) == v
  {
    var b := pre + LE16(v) + post;
    assert b[|pre|] == v % 0x100 && b[|pre| + 1] == v / 0x100;
  }

  /** Reading back an encoded 32-bit value gives the value. */
  lemma ReadLE32Of(v: U32, pre: seq<Byte>, post: seq<Byte>)
    ensures ReadLE32(pre + LE32(v) + post, |pre|) == v
  {
    var b := pre + LE32(v) + post;
    var n := |pre|;
    assert b[n] == v % 0x100 && b[n + 1] == v / 0x100 % 0x100;
    assert b[n + 2] == v / 0x100 / 0x100 % 0x100 && b[n + 3] == v / 0x100 / 0x100 / 0x100;
    LE32Value(v);
  }

  /** The four bytes of a 32-bit value, weighted by their places, add up to it. */
  lemma LE32Value(v: U32)
    ensures v % 0x100 + 0x100 * (v / 0x100 % 0x100) + 0x1_0000 * (v / 0x100 / 0x100 % 0x100)
            + 0x100_0000 * (v / 0x100 / 0x100 / 0x100) == v
  {
    var q1 := v / 0x100;
    var q2 := q1 / 0x100;
    var q3 := q2 / 0x100;
    assert v == v % 0x100 + 0x100 * q1;
    assert q1 == q1 % 0x100 + 0x100 * q2;
    assert q2 == q2 % 0x100 + 0x100 * q3;
  }

  /** A value is read from the bytes it occupies; what follows them does not matter. */
  lemma ReadPrefix(b: seq<Byte>, c: seq<Byte>, at: nat)
    requires at + 2 <= |b|
    ensures ReadLE16(b + c, at) == ReadLE16(b, at)
    ensures at + 4 <= |b| ==> ReadLE32(b + c, at) == ReadLE32(b, at)
  {
    assert (b + c)[at] == b[at] && (b + c)[at + 1] == b[at + 1];
    if at + 4 <= |b| {
      assert (b + c)[at + 2] == b[at + 2] && (b + c)[at + 3] == b[at + 3];
    }
  }

  /** A value below 2^32 is unchanged by `as u32`. */
  lemma U32Small(x: int)
    requires 0 <= x < U32_LIMIT
    ensures x % U32_LIMIT == x
  {
  }
}
