/**
 * Key helpers of src/core/keys.go: Curve25519 private keys clamped as
 * section 5 of RFC 7748 prescribes, preshared keys, and the hex and base64
 * forms keys are stored and exported in.
 *
 * The random source and the X25519 scalar multiplication are not modelled:
 * the random bytes (or the error of reading them) and the multiplication are
 * parameters. Go's encoding/hex and encoding/base64 are stated here as the
 * functions they compute.
 */
module WgKeys {
  import opened Wrappers
  import opened Machine
  import opened Strings

  const KEY_LEN := 32

  // ---- Clamping ----

  /** Bitwise and of two naturals, one bit at a time from the lowest. */
  function BitAnd(a: nat, b: nat): (r: nat)
    ensures r <= a && r <= b
  {
    if a == 0 || b == 0 then 0 else 2 * BitAnd(a / 2, b / 2) + (if a % 2 == 1 && b % 2 == 1 then 1 else 0)
  }

  /** Bitwise or of two naturals, one bit at a time from the lowest. */
  function BitOr(a: nat, b: nat): (r: nat)
    ensures r >= a && r >= b
  {
    if a == 0 then b else if b == 0 then a else 2 * BitOr(a / 2, b / 2) + (if a % 2 == 1 || b % 2 == 1 then 1 else 0)
  }

  function Pow2(k: nat): (r: nat)
    ensures r >= 1
  {
    if k == 0 then 1 else 2 * Pow2(k - 1)
  }

  lemma HalfOdd(p: nat)
    requires p >= 1
    ensures (2 * p - 1) / 2 == p - 1 && (2 * p - 1) % 2 == 1
  {
  }

  lemma HalfSum(p: nat, l: nat)
    ensures (2 * p + l) / 2 == p + l / 2 && (2 * p + l) % 2 == l % 2
  {
  }

  /** Masking with `k` one-bits keeps a number below 2^k. */
  lemma {:induction false} AndOnes(l: nat, k: nat)
    requires l < Pow2(k)
    ensures BitAnd(l, Pow2(k) - 1) == l
  {
    if k > 0 && l > 0 {
      var p := Pow2(k - 1);
      HalfOdd(p);
      HalfSum(0, l);
      AndOnes(l / 2, k - 1);
    }
  }

  /** ... and clears the bit 2^k above it. */
  lemma {:induction false} AndOnesAbove(l: nat, k: nat)
    requires l < Pow2(k)
    ensures BitAnd(Pow2(k) + l, Pow2(k) - 1) == l
  {
    if k > 0 {
      var p := Pow2(k - 1);
      HalfOdd(p);
      HalfSum(p, l);
      HalfSum(0, l);
      AndOnesAbove(l / 2, k - 1);
    }
  }

  /** Setting bit 2^k of a number below 2^k adds it ... */
  lemma {:induction false} OrLow(l: nat, k: nat)
    requires l < Pow2(k)
    ensures BitOr(l, Pow2(k)) == Pow2(k) + l
  {
    if k > 0 && l > 0 {
      var p := Pow2(k - 1);
      HalfSum(p, 0);
      HalfSum(p, l);
      HalfSum(0, l);
      OrLow(l / 2, k - 1);
    }
  }

  /** ... and setting it when it is already set changes nothing. */
  lemma {:induction false} OrHigh(l: nat, k: nat)
    requires l < Pow2(k)
    ensures BitOr(Pow2(k) + l, Pow2(k)) == Pow2(k) + l
  {
    if k > 0 {
      var p := Pow2(k - 1);
      HalfSum(p, 0);
      HalfSum(p, l);
      OrHigh(l / 2, k - 1);
    }
  }

  lemma AndShift(a: nat, m: nat)
    ensures BitAnd(a, 2 * m) == 2 * BitAnd(a / 2, m)
  {
    assert (2 * m) / 2 == m && (2 * m) % 2 == 0;
  }

  /** `key[0] &= 248` clears the three low bits. */
  lemma Clamp0(b: Byte)
    ensures BitAnd(b, 248) == b - b % 8
  {
    AndShift(b, 124);
    AndShift(b / 2, 62);
    AndShift(b / 4, 31);
    assert Pow2(5) == 32;
    AndOnes(b / 8, 5);
    assert b / 2 / 2 == b / 4 && b / 4 / 2 == b / 8;
  }

  /** `key[31] &= 127; key[31] |= 64` clears the top bit and sets the next one. */
  lemma Clamp31(b: Byte)
    ensures BitOr(BitAnd(b, 127), 64) == b % 64 + 64
  {
    assert Pow2(7) == 128 && Pow2(6) == 64;
    Split128(b);
    var a := BitAnd(b, 127);
    if b >= 128 {
      AndOnesAbove(b - 128, 7);
    } else {
      AndOnes(b, 7);
    }
    Split64(a);
    if a >= 64 {
      OrHigh(a - 64, 6);
    } else {
      OrLow(a, 6);
    }
  }

  lemma Split128(b: Byte)
    ensures b >= 128 ==> b % 128 == b - 128 && (b - 128) % 64 == b % 64
    ensures b < 128 ==> b % 128 == b
  {
  }

  lemma Split64(a: nat)
    requires a < 128
    ensures a >= 64 ==> a - 64 == a % 64
    ensures a < 64 ==> a == a % 64
  {
  }

  /** `key[0] &= 248`: the byte with its three low bits cleared. */
  function ClampFirst(b: Byte): (r: Byte)
    ensures r == b - b % 8
    ensures r % 8 == 0
  {
    Clamp0(b);
    RoundDown8(b as int);
    BitAnd(b, 248)
  }

  lemma RoundDown8(x: int)
    ensures (x - x % 8) % 8 == 0
  {
  }

  /** `key[31] &= 127; key[31] |= 64`: the top bit cleared, the next one set. */
  function ClampLast(b: Byte): (r: Byte)
    ensures r == b % 64 + 64
    ensures 64 <= r < 128
  {
    Clamp31(b);
    BitOr(BitAnd(b, 127), 64)
  }

  /** The clamping of a 32-byte key: only its first and last bytes change. */
  function Clamped(key: seq<Byte>): (r: seq<Byte>)
    requires |key| == KEY_LEN
    ensures |r| == KEY_LEN
    ensures r[0] == key[0] - key[0] % 8 && r[31] == key[31] % 64 + 64
    ensures r[0] % 8 == 0 && 64 <= r[31] < 128
    ensures forall i :: 0 < i < KEY_LEN - 1 ==> r[i] == key[i]
  {
    key[0 := ClampFirst(key[0])][31 := ClampLast(key[31])]
  }

  lemma HighHalfMod(x: int)
    requires 64 <= x < 128
    ensures x % 64 + 64 == x
  {
  }

  /** Clamping a key twice changes nothing more. */
  lemma ClampedIdempotent(key: seq<Byte>)
    requires |key| == KEY_LEN
    ensures Clamped(Clamped(key)) == Clamped(key)
  {
    var c := Clamped(key);
    var d := Clamped(c);
    assert d[0] == c[0] by {
      assert c[0] % 8 == 0;
    }
    assert d[31] == c[31] by {
      HighHalfMod(c[31] as int);
    }
    assert forall i :: 0 <= i < KEY_LEN ==> d[i] == c[i];
  }

  /** The in-place clamping of `GeneratePrivateKey`. */
  method ClampInPlace(key: array<Byte>)
    requires key.Length == KEY_LEN
    modifies key
    ensures key[..] == Clamped(old(key[..]))
  {
    ghost var before := key[..];
    Clamp0(key[0]);
    Clamp31(key[31]);
    key[0] := BitAnd(key[0], 248);
    key[31] := BitAnd(key[31], 127);
    key[31] := BitOr(key[31], 64);
    assert key[..] == before[0 := ClampFirst(before[0])][31 := ClampLast(before[31])];
  }

  // ---- Hex ----

  predicate IsHexChar(c: char)
  {
    '0' <= c <= '9' || 'a' <= c <= 'f' || 'A' <= c <= 'F'
  }

  function HexValue(c: char): (v: nat)
    requires IsHexChar(c)
    ensures v < 16
  {
    if '0' <= c <= '9' then c as int - '0' as int
    else if 'a' <= c <= 'f' then c as int - 'a' as int + 10
    else c as int - 'A' as int + 10
  }

  /** The lower-case digit for `v`, as `hex.EncodeToString` writes it. */
  function HexDigit(v: nat): (c: char)
    requires v < 16
    ensures IsHexChar(c) && HexValue(c) == v
    ensures !('A' <= c <= 'F')
  {
    if v < 10 then ('0' as int + v) as char else ('a' as int + v - 10) as char
  }

  /** `hex.EncodeToString`: two lower-case digits per byte, high nibble first. */
  function HexEncode(b: seq<Byte>): (s: string)
    ensures |s| == 2 * |b|
    ensures forall i :: 0 <= i < |s| ==> IsHexChar(s[i]) && !('A' <= s[i] <= 'F')
  {
    if b == [] then "" else [HexDigit(b[0] / 16), HexDigit(b[0] % 16)] + HexEncode(b[1..])
  }

  /** Why `hex.DecodeString` fails: the first character that is not a digit, or an odd length. */
  datatype HexError = InvalidByte(c: char) | OddLength

  /**
   * `hex.DecodeString`, pair by pair: within a pair the first character is
   * checked before the second, and a lone last character is checked before
   * the odd length is reported.
   */
  function HexDecode(s: string): (r: Result<seq<Byte>, HexError>)
    decreases |s|
  {
    if |s| == 0 then Ok([])
    else if |s| == 1 then (if !IsHexChar(s[0]) then Err(InvalidByte(s[0])) else Err(OddLength))
    else if !IsHexChar(s[0]) then Err(InvalidByte(s[0]))
    else if !IsHexChar(s[1]) then Err(InvalidByte(s[1]))
    else match HexDecode(s[2..])
      case Ok(rest) => Ok([HexValue(s[0]) * 16 + HexValue(s[1])] + rest)
      case Err(e) => Err(e)
  }

  /** The string decodes iff it has even length and only hex digits; then to half as many bytes. */
  lemma {:induction false} HexDecodeIff(s: string)
    ensures HexDecode(s).Ok? <==> |s| % 2 == 0 && forall i :: 0 <= i < |s| ==> IsHexChar(s[i])
    ensures HexDecode(s).Ok? ==> |HexDecode(s).value| == |s| / 2
    decreases |s|
  {
    if |s| >= 2 {
      HexDecodeIff(s[2..]);
      if IsHexChar(s[0]) && IsHexChar(s[1]) && forall i :: 0 <= i < |s[2..]| ==> IsHexChar(s[2..][i]) {
        assert forall i :: 0 <= i < |s| ==> IsHexChar(s[i]) by {
          forall i | 0 <= i < |s| ensures IsHexChar(s[i]) {
            if i >= 2 {
              assert s[i] == s[2..][i - 2];
            }
          }
        }
      }
    }
  }

  /** An invalid character is reported as the first one, else an odd length. */
  lemma {:induction false} HexDecodeError(s: string, k: nat)
    requires k < |s| && !IsHexChar(s[k]) && forall i :: 0 <= i < k ==> IsHexChar(s[i])
    ensures HexDecode(s) == Err(InvalidByte(s[k]))
    decreases |s|
  {
    if k >= 2 {
      HexDecodeError(s[2..], k - 2);
    }
  }

  /** Decoding what `HexEncode` wrote gives the bytes back. */
  lemma {:induction false} HexRoundTrip(b: seq<Byte>)
    ensures HexDecode(HexEncode(b)) == Ok(b)
  {
    if b != [] {
      var s := HexEncode(b);
      assert s[2..] == HexEncode(b[1..]);
      HexRoundTrip(b[1..]);
      assert HexValue(s[0]) * 16 + HexValue(s[1]) == b[0];
      assert [b[0]] + b[1..] == b;
    }
  }

  /** The digit HexEncode writes for the value of `c`: `c` itself, lower-cased. */
  lemma DigitOfValue(c: char)
    requires IsHexChar(c)
    ensures HexDigit(HexValue(c)) == if 'A' <= c <= 'F' then (c as int + 32) as char else c
  {
  }

  /** Encoding what decoded gives the string back in its lower-case spelling. */
  lemma {:induction false} HexCanonical(s: string)
    requires HexDecode(s).Ok?
    ensures HexEncode(HexDecode(s).value) == ToLower(s)
    decreases |s|
  {
    if |s| >= 2 {
      HexCanonical(s[2..]);
      var rest := HexDecode(s[2..]).value;
      var v := HexValue(s[0]) * 16 + HexValue(s[1]);
      assert HexDecode(s).value == [v] + rest;
      HexEncodeCons(v, rest);
      PairCanonical(s[0], s[1]);
      ToLowerSplit(s);
    }
  }

  lemma HexEncodeCons(v: Byte, rest: seq<Byte>)
    ensures HexEncode([v] + rest) == [HexDigit(v / 16), HexDigit(v % 16)] + HexEncode(rest)
  {
    assert ([v] + rest)[1..] == rest;
  }

  /** One pair of digits re-encoded: the same two digits, lower-cased. */
  lemma PairCanonical(c0: char, c1: char)
    requires IsHexChar(c0) && IsHexChar(c1)
    ensures [HexDigit((HexValue(c0) * 16 + HexValue(c1)) / 16), HexDigit((HexValue(c0) * 16 + HexValue(c1)) % 16)]
         == ToLower([c0, c1])
  {
    var v := HexValue(c0) * 16 + HexValue(c1);
    assert v / 16 == HexValue(c0) && v % 16 == HexValue(c1);
    DigitOfValue(c0);
    DigitOfValue(c1);
  }

  lemma ToLowerSplit(s: string)
    requires |s| >= 2
    ensures ToLower(s) == ToLower([s[0], s[1]]) + ToLower(s[2..])
  {
    var l := ToLower([s[0], s[1]]) + ToLower(s[2..]);
    forall i | 0 <= i < |s|
      ensures ToLower(s)[i] == l[i]
    {
      if i >= 2 {
        assert s[i] == s[2..][i - 2];
      }
    }
  }

  // ---- Base64 ----

  /** The character for a six-bit group: A-Z, a-z, 0-9, '+', '/'. */
  function Sextet(v: nat): (c: char)
    requires v < 64
    ensures IsBase64Char(c)
  {
    if v < 26 then ('A' as int + v) as char
    else if v < 52 then ('a' as int + v - 26) as char
    else if v < 62 then ('0' as int + v - 52) as char
    else if v == 62 then '+'
    else '/'
  }

  predicate IsBase64Char(c: char)
  {
    'A' <= c <= 'Z' || 'a' <= c <= 'z' || '0' <= c <= '9' || c == '+' || c == '/'
  }

  // The four sextets of a group of three bytes x, y, z.
  function Hi6(x: Byte): (v: nat) ensures v < 64 { x / 4 }
  function Mid6(x: Byte, y: Byte): (v: nat) ensures v < 64 { x % 4 * 16 + y / 16 }
  // The last sextet when the group ends after x (Tail1) or after y (Tail2).
  function Tail1(x: Byte): (v: nat) ensures v < 64 { x % 4 * 16 }
  function Tail2(y: Byte): (v: nat) ensures v < 64 { y % 16 * 4 }
  function Low6(y: Byte, z: Byte): (v: nat) ensures v < 64 { y % 16 * 4 + z / 64 }
  function Last6(z: Byte): (v: nat) ensures v < 64 { z % 64 }

  /** `base64.StdEncoding.EncodeToString`: four characters per three bytes, the last group padded with '='. */
  function Base64Encode(b: seq<Byte>): (s: string)
    decreases |b|
  {
    if |b| == 0 then ""
    else if |b| == 1 then
      [Sextet(Hi6(b[0])), Sextet(Tail1(b[0])), '=', '=']
    else if |b| == 2 then
      [Sextet(Hi6(b[0])), Sextet(Mid6(b[0], b[1])), Sextet(Tail2(b[1])), '=']
    else
      [Sextet(Hi6(b[0])), Sextet(Mid6(b[0], b[1])), Sextet(Low6(b[1], b[2])), Sextet(Last6(b[2]))]
        + Base64Encode(b[3..])
  }

  function SextetValue(c: char): (v: Option<nat>)
    ensures v.Some? ==> v.value < 64 && Sextet(v.value) == c
  {
    if 'A' <= c <= 'Z' then Some(c as int - 'A' as int)
    else if 'a' <= c <= 'z' then Some(c as int - 'a' as int + 26)
    else if '0' <= c <= '9' then Some(c as int - '0' as int + 52)
    else if c == '+' then Some(62)
    else if c == '/' then Some(63)
    else None
  }

  lemma SextetInverse(v: nat)
    requires v < 64
    ensures SextetValue(Sextet(v)) == Some(v)
  {
  }

  // The three bytes of a group of four sextets a, b, c, d.
  function Byte0(a: nat, b: nat): (x: Byte) requires a < 64 && b < 64 { a * 4 + b / 16 }
  function Byte1(b: nat, c: nat): (y: Byte) requires b < 64 && c < 64 { b % 16 * 16 + c / 4 }
  function Byte2(c: nat, d: nat): (z: Byte) requires c < 64 && d < 64 { c % 4 * 64 + d }

  /**
   * One group of four characters; padding is accepted only in the final
   * group: "xx==" holds one byte, "xxx=" two.
   */
  function DecodeGroup(c0: char, c1: char, c2: char, c3: char, final: bool): (r: Option<seq<Byte>>)
    ensures r.Some? ==> 1 <= |r.value| <= 3 && (!final ==> |r.value| == 3)
  {
    var a, b, c, d := SextetValue(c0), SextetValue(c1), SextetValue(c2), SextetValue(c3);
    if a.None? || b.None? then None
    else if final && c2 == '=' && c3 == '=' then Some([Byte0(a.value, b.value)])
    else if c.None? then None
    else if final && c3 == '=' then Some([Byte0(a.value, b.value), Byte1(b.value, c.value)])
    else if d.None? then None
    else Some([Byte0(a.value, b.value), Byte1(b.value, c.value), Byte2(c.value, d.value)])
  }

  /** The inverse of Base64Encode on its own output, for the round trip. */
  function Base64Decode(s: string): (r: Option<seq<Byte>>)
    decreases |s|
  {
    if |s| == 0 then Some([])
    else if |s| < 4 then None
    else match DecodeGroup(s[0], s[1], s[2], s[3], |s| == 4)
      case None => None
      case Some(g) =>
        if |s| == 4 then Some(g)
        else match Base64Decode(s[4..])
          case Some(rest) => Some(g + rest)
          case None => None
  }

  /** Each byte comes back from the two sextets that hold its bits. */
  lemma BytesOfSextets(x: Byte, y: Byte, z: Byte)
    ensures Byte0(Hi6(x), Mid6(x, y)) == x
    ensures Byte1(Mid6(x, y), Low6(y, z)) == y
    ensures Byte2(Low6(y, z), Last6(z)) == z
  {
  }

  /** The final group for one byte: two sextets and two pads. */
  lemma GroupOne(x: Byte)
    ensures DecodeGroup(Sextet(Hi6(x)), Sextet(Tail1(x)), '=', '=', true) == Some([x])
  {
    SextetInverse(Hi6(x));
    SextetInverse(Tail1(x));
    assert Byte0(Hi6(x), Tail1(x)) == x;
  }

  /** The final group for two bytes: three sextets and one pad. */
  lemma GroupTwo(x: Byte, y: Byte)
    ensures DecodeGroup(Sextet(Hi6(x)), Sextet(Mid6(x, y)), Sextet(Tail2(y)), '=', true) == Some([x, y])
  {
    SextetInverse(Hi6(x));
    SextetInverse(Mid6(x, y));
    SextetInverse(Tail2(y));
    assert Byte0(Hi6(x), Mid6(x, y)) == x && Byte1(Mid6(x, y), Tail2(y)) == y;
  }

  /** A full group of three bytes, final or not. */
  lemma GroupThree(x: Byte, y: Byte, z: Byte, final: bool)
    ensures DecodeGroup(Sextet(Hi6(x)), Sextet(Mid6(x, y)), Sextet(Low6(y, z)), Sextet(Last6(z)), final) == Some([x, y, z])
  {
    SextetInverse(Hi6(x));
    SextetInverse(Mid6(x, y));
    SextetInverse(Low6(y, z));
    SextetInverse(Last6(z));
    BytesOfSextets(x, y, z);
  }

  lemma DecodeLast(s: string)
    requires |s| == 4
    ensures Base64Decode(s) == DecodeGroup(s[0], s[1], s[2], s[3], true)
  {
  }

  lemma DecodeNext(s: string, g: seq<Byte>, rest: seq<Byte>)
    requires |s| > 4
    requires DecodeGroup(s[0], s[1], s[2], s[3], false) == Some(g)
    requires Base64Decode(s[4..]) == Some(rest)
    ensures Base64Decode(s) == Some(g + rest)
  {
  }

  /** Four characters for every three bytes or part of three. */
  lemma {:induction false} Base64Length(b: seq<Byte>)
    ensures |Base64Encode(b)| == 4 * ((|b| + 2) / 3)
    decreases |b|
  {
    if |b| >= 3 {
      Base64Length(b[3..]);
      assert (|b| + 2) / 3 == (|b| - 1) / 3 + 1;
    }
  }

  lemma EncodeThree(b: seq<Byte>)
    requires |b| >= 3
    ensures b == [b[0], b[1], b[2]] + b[3..]
    ensures Base64Encode(b)[4..] == Base64Encode(b[3..])
    ensures |b| == 3 ==> |Base64Encode(b)| == 4
    ensures Base64Encode(b)[0] == Sextet(Hi6(b[0])) && Base64Encode(b)[1] == Sextet(Mid6(b[0], b[1]))
    ensures Base64Encode(b)[2] == Sextet(Low6(b[1], b[2])) && Base64Encode(b)[3] == Sextet(Last6(b[2]))
  {
    assert |b| == 3 ==> b[3..] == [];
  }

  lemma RoundTripOne(b: seq<Byte>)
    requires |b| == 1
    ensures Base64Decode(Base64Encode(b)) == Some(b)
  {
    var x := b[0];
    var s := [Sextet(Hi6(x)), Sextet(Tail1(x)), '=', '='];
    assert Base64Decode(s) == Some([x]) by {
      GroupOne(x);
      DecodeLast(s);
    }
    assert Base64Encode(b) == s;
    assert [x] == b;
  }

  lemma EncodeTwo(b: seq<Byte>)
    requires |b| == 2
    ensures Base64Encode(b) == [Sextet(Hi6(b[0])), Sextet(Mid6(b[0], b[1])), Sextet(Tail2(b[1])), '=']
  {
  }

  lemma RoundTripTwo(b: seq<Byte>)
    requires |b| == 2
    ensures Base64Decode(Base64Encode(b)) == Some(b)
  {
    EncodeTwo(b);
    DecodeTwo(b[0], b[1]);
    assert [b[0], b[1]] == b;
  }

  lemma DecodeTwo(x: Byte, y: Byte)
    ensures Base64Decode([Sextet(Hi6(x)), Sextet(Mid6(x, y)), Sextet(Tail2(y)), '=']) == Some([x, y])
  {
    GroupTwo(x, y);
    DecodeLast([Sextet(Hi6(x)), Sextet(Mid6(x, y)), Sextet(Tail2(y)), '=']);
  }

  lemma RoundTripGroup(b: seq<Byte>)
    requires |b| >= 3
    requires Base64Decode(Base64Encode(b[3..])) == Some(b[3..])
    ensures Base64Decode(Base64Encode(b)) == Some(b)
  {
    var x, y, z, rest := b[0], b[1], b[2], b[3..];
    var s := Base64Encode(b);
    EncodeThree(b);
    if |b| == 3 {
      assert Base64Decode(s) == Some([x, y, z]) by {
        GroupThree(x, y, z, true);
        DecodeLast(s);
      }
      assert [x, y, z] == b;
    } else {
      assert Base64Decode(s) == Some([x, y, z] + rest) by {
        GroupThree(x, y, z, false);
        DecodeNext(s, [x, y, z], rest);
      }
    }
  }

  /** Decoding what Base64Encode wrote gives the bytes back. */
  lemma {:induction false} Base64RoundTrip(b: seq<Byte>)
    ensures Base64Decode(Base64Encode(b)) == Some(b)
    decreases |b|
  {
    if |b| == 1 {
      RoundTripOne(b);
    } else if |b| == 2 {
      RoundTripTwo(b);
    } else if |b| >= 3 {
      Base64RoundTrip(b[3..]);
      RoundTripGroup(b);
    }
  }

  /** Every character of the encoding is from the alphabet or is padding. */
  lemma {:induction false} Base64Alphabet(b: seq<Byte>)
    ensures forall i :: 0 <= i < |Base64Encode(b)| ==> (IsBase64Char(Base64Encode(b)[i]) || Base64Encode(b)[i] == '=')
    decreases |b|
  {
    if |b| >= 3 {
      Base64Alphabet(b[3..]);
      var s := Base64Encode(b);
      forall i | 4 <= i < |s|
        ensures IsBase64Char(s[i]) || s[i] == '='
      {
        assert s[i] == Base64Encode(b[3..])[i - 4];
      }
    }
  }

  // ---- The exported operations ----

  /** What reading randomness gives: 32 bytes, or the error text. */
  type Entropy = Result<seq<Byte>, string>

  predicate WellFormedEntropy(random: Entropy)
  {
    random.Ok? ==> |random.value| == KEY_LEN
  }

  /** `GeneratePrivateKey`: clamp the random bytes in place and return them in hex. */
  method GeneratePrivateKey(random: Entropy) returns (r: Result<string, string>)
    requires WellFormedEntropy(random)
    ensures random.Err? ==> r == Err("random read: " + random.error)
    ensures random.Ok? ==> r == Ok(HexEncode(Clamped(random.value)))
  {
    if random.Err? {
      return Err("random read: " + random.error);
    }
    var key := new Byte[KEY_LEN](i requires 0 <= i < KEY_LEN => random.value[i]);
    assert key[..] == random.value;
    ClampInPlace(key);
    r := Ok(HexEncode(key[..]));
  }

  /** `GeneratePresharedKey`: the random bytes in hex. */
  function GeneratePresharedKey(random: Entropy): (r: Result<string, string>)
    requires WellFormedEntropy(random)
    ensures r.Ok? <==> random.Ok?
    ensures r.Ok? ==> |r.value| == 64 && HexDecode(r.value) == Ok(random.value)
    ensures r.Err? ==> r.error == "random read: " + random.error
  {
    if random.Err? then Err("random read: " + random.error)
    else
      HexRoundTrip(random.value);
      Ok(HexEncode(random.value))
  }

  /** A generated private key is 64 lower-case hex digits naming a clamped key. */
  lemma PrivateKeyShape(bytes: seq<Byte>)
    requires |bytes| == KEY_LEN
    ensures |HexEncode(Clamped(bytes))| == 64
    ensures forall i :: 0 <= i < 64 ==> IsHexChar(HexEncode(Clamped(bytes))[i]) && !('A' <= HexEncode(Clamped(bytes))[i] <= 'F')
    ensures HexDecode(HexEncode(Clamped(bytes))) == Ok(Clamped(bytes))
    ensures Clamped(bytes)[0] % 8 == 0 && 64 <= Clamped(bytes)[31] < 128
  {
    HexRoundTrip(Clamped(bytes));
  }

  const INVALID_PRIVATE_KEY := "invalid private key hex"

  /**
   * `DerivePublicKey`: the key must be hex for exactly 32 bytes; the scalar
   * multiplication by the base point is the parameter `x25519`.
   */
  function DerivePublicKey(privHex: string, x25519: seq<Byte> -> Result<seq<Byte>, string>): (r: Result<string, string>)
    ensures HexDecode(privHex).Err? || |HexDecode(privHex).value| != KEY_LEN ==> r == Err(INVALID_PRIVATE_KEY)
    ensures HexDecode(privHex).Ok? && |HexDecode(privHex).value| == KEY_LEN ==>
      r == (match x25519(HexDecode(privHex).value)
            case Ok(pub) => Ok(HexEncode(pub))
            case Err(e) => Err("x25519: " + e))
  {
    var priv := HexDecode(privHex);
    if priv.Err? || |priv.value| != KEY_LEN then Err(INVALID_PRIVATE_KEY)
    else match x25519(priv.value)
      case Ok(pub) => Ok(HexEncode(pub))
      case Err(e) => Err("x25519: " + e)
  }

  /** A key from GeneratePrivateKey always passes DerivePublicKey's validation. */
  lemma GeneratedKeyDerives(bytes: seq<Byte>, x25519: seq<Byte> -> Result<seq<Byte>, string>)
    requires |bytes| == KEY_LEN
    ensures DerivePublicKey(HexEncode(Clamped(bytes)), x25519) ==
      (match x25519(Clamped(bytes))
       case Ok(pub) => Ok(HexEncode(pub))
       case Err(e) => Err("x25519: " + e))
  {
    HexRoundTrip(Clamped(bytes));
  }

  /** `HexToBase64`: fails exactly when the hex does not decode, with the decoder's error. */
  function HexToBase64(hexStr: string): (r: Result<string, HexError>)
    ensures r.Err? <==> HexDecode(hexStr).Err?
    ensures r.Err? ==> r.error == HexDecode(hexStr).error
    ensures r.Ok? ==> HexDecode(hexStr).Ok? && Base64Decode(r.value) == Some(HexDecode(hexStr).value)
  {
    match HexDecode(hexStr)
    case Err(e) => Err(e)
    case Ok(b) =>
      Base64RoundTrip(b);
      Ok(Base64Encode(b))
  }

  /** A 64-digit key converts to the 44 characters of a WireGuard configuration key. */
  lemma KeyBase64Length(hexStr: string)
    requires |hexStr| == 64 && forall i :: 0 <= i < 64 ==> IsHexChar(hexStr[i])
    ensures HexToBase64(hexStr).Ok? && |HexToBase64(hexStr).value| == 44
  {
    HexDecodeIff(hexStr);
    var b := HexDecode(hexStr).value;
    KeyEncodedLength(b);
    assert HexToBase64(hexStr) == Ok(Base64Encode(b));
  }

  lemma KeyEncodedLength(b: seq<Byte>)
    requires |b| == KEY_LEN
    ensures |Base64Encode(b)| == 44
  {
    Base64Length(b);
    assert 4 * ((32 + 2) / 3) == 44;
  }
}
