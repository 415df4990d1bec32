/**
 * The address expansion behind the client IP pool of src/db/client.go:
 * `expandV4` and `expandV6` list the host addresses a network offers to
 * clients, as the text `net.IP.String` gives them. A network is what
 * `net.ParseCIDR` returns: its address (4 or 16 bytes) and its prefix length.
 */
module WgPool {
  import opened Machine
  import Route

  import opened Wrappers

  datatype IpNet = IpNet(ip: seq<Byte>, ones: nat)
  {
    /** A 4-byte address with at most 32 mask bits, or a 16-byte one with at most 128. */
    predicate Valid()
    {
      (|ip| == 4 && ones <= 32) || (|ip| == 16 && ones <= 128)
    }

    /** A 16-byte address of the form ::ffff:a.b.c.d. */
    predicate MappedV4()
    {
      |ip| == 16 && IsMapped(ip)
    }
  }

  /** A network as `net.ParseCIDR` can return it. */
  type Net = n: IpNet | n.Valid() witness IpNet([0, 0, 0, 0], 0)

  /** `net.ParseCIDR`, which is not part of this model: the network a text names, if any. */
  type CidrParser = string -> Option<Net>

  predicate IsMapped(b: seq<Byte>)
    requires |b| == 16
  {
    b[..12] == MAPPED_PREFIX
  }

  /** The first twelve bytes of an IPv4-mapped IPv6 address. */
  const MAPPED_PREFIX: seq<Byte> := [0, 0, 0, 0, 0, 0, 0, 0, 0, 0, 0xFF, 0xFF]

  function Pow2(n: nat): (r: nat)
    ensures r >= 1
  {
    if n == 0 then 1 else 2 * Pow2(n - 1)
  }

  // ---- IPv4 ----

  /** `binary.BigEndian.Uint32`. */
  function BigEndian(b: seq<Byte>): U32
    requires |b| == 4
  {
    b[0] as int * 0x100_0000 + b[1] as int * 0x1_0000 + b[2] as int * 0x100 + b[3] as int
  }

  /** `binary.BigEndian.PutUint32`. */
  function PutBigEndian(v: U32): (b: seq<Byte>)
    ensures |b| == 4
  {
    [v / 0x100_0000, v / 0x1_0000 % 0x100, v / 0x100 % 0x100, v % 0x100]
  }

  /** `baseInt + uint32(i)`: addition modulo 2^32. */
  function Wrap(x: nat): U32
  {
    x % U32_LIMIT
  }

  /** `ipNet.Contains` on a 4-byte network: the first `ones` bits agree. */
  predicate Contains4(v: U32, base: U32, ones: nat)
    requires ones <= 32
  {
    v / Pow2(32 - ones) == base / Pow2(32 - ones)
  }

  /** The hosts `expandV4` keeps among the candidates base+2 .. base+(n-1), in order. */
  function Hosts4(base: U32, ones: nat, n: nat): seq<U32>
    requires ones <= 32
    decreases n
  {
    if n <= 2 then []
    else Hosts4(base, ones, n - 1) + (if Contains4(Wrap(base + n - 1), base, ones) then [Wrap(base + n - 1)] else [])
  }

  /** The text of an IPv4 address. */
  function V4Text(v: U32): string
  {
    Route.DottedQuad(PutBigEndian(v))
  }

  function Texts4(vs: seq<U32>): (ts: seq<string>)
    ensures |ts| == |vs|
    ensures forall k :: 0 <= k < |vs| ==> ts[k] == V4Text(vs[k])
  {
    seq(|vs|, k requires 0 <= k < |vs| => V4Text(vs[k]))
  }

  /**
   * `(1 << (bits - ones)) - 2` on Go's 64-bit `int`: a shift of 64 or more
   * gives 0, and 1 << 63 wraps to -2^63, which the subtraction wraps back to
   * 2^63 - 2.
   */
  function HostCount(shift: nat): int
  {
    if shift >= 64 then -2 else Pow2(shift) - 2
  }

  /** `To4`: the 4-byte form of a 4-byte or IPv4-mapped address. */
  function To4(b: seq<Byte>): seq<Byte>
    requires |b| == 4 || (|b| == 16 && IsMapped(b))
  {
    if |b| == 4 then b else b[12..]
  }

  /** The mask bits `Contains` applies to a 4-byte address: the mask's last four bytes. */
  function Ones4(net: Net): (r: nat)
    ensures r <= 32
  {
    if |net.ip| == 4 then net.ones else if net.ones >= 96 then net.ones - 96 else 0
  }

  /** What `expandV4` returns for `net`, as numbers. */
  function V4Hosts(net: Net): seq<U32>
  {
    if !(|net.ip| == 4 || net.MappedV4()) then []
    else
      var hostCount := HostCount(8 * |net.ip| - net.ones);
      if hostCount <= 1 then []
      else Hosts4(BigEndian(To4(net.ip)), Ones4(net), hostCount + 1)
  }

  /**
   * `expandV4`: the addresses base+2 .. base+hostCount that the network
   * holds; nothing when the address has no 4-byte form or there is at most
   * one host.
   */
  method ExpandV4(net: Net) returns (ips: seq<string>)
    ensures ips == Texts4(V4Hosts(net))
  {
    if !(|net.ip| == 4 || net.MappedV4()) {
      return [];
    }
    var hostCount := HostCount(8 * |net.ip| - net.ones);
    if hostCount <= 1 {
      return [];
    }
    var base := BigEndian(To4(net.ip));
    var ones := Ones4(net);
    ips := [];
    var i := 2;
    while i <= hostCount
      invariant 2 <= i <= hostCount + 1
      invariant ips == Texts4(Hosts4(base, ones, i))
    {
      Hosts4Step(base, ones, i);
      ips := ips + Kept4(base, ones, i);
      i := i + 1;
    }
    assert i == hostCount + 1;
  }

  /** The text candidate base+i contributes: itself if the network holds it. */
  function Kept4(base: U32, ones: nat, i: nat): seq<string>
    requires ones <= 32
  {
    var ip := Wrap(base + i);
    if Contains4(ip, base, ones) then [V4Text(ip)] else []
  }

  lemma Hosts4Step(base: U32, ones: nat, i: nat)
    requires ones <= 32 && i >= 2
    ensures Texts4(Hosts4(base, ones, i + 1)) == Texts4(Hosts4(base, ones, i)) + Kept4(base, ones, i)
  {
    var ip := Wrap(base + i);
    TextsSnoc(Hosts4(base, ones, i), ip);
  }

  lemma TextsSnoc(vs: seq<U32>, v: U32)
    ensures Texts4(vs + [v]) == Texts4(vs) + [V4Text(v)]
  {
  }

  /** A block of 2^h addresses that starts at a multiple of 2^h lies below 2^32. */
  lemma BlockFits(base: U32, h: nat)
    requires h <= 32 && base % Pow2(h) == 0
    ensures base + Pow2(h) <= U32_LIMIT
  {
    Pow2Split(h);
    BlockBelow(base, Pow2(h), Pow2(32 - h));
  }

  lemma BlockBelow(base: nat, p: nat, q: nat)
    requires p >= 1 && base < p * q && base % p == 0
    ensures base + p <= p * q
  {
    var d := base / p;
    assert base == d * p;
    if d >= q {
      MulMono(q, d, p);
    }
    MulMono(d + 1, q, p);
  }

  lemma Pow2Split(h: nat)
    requires h <= 32
    ensures Pow2(h) * Pow2(32 - h) == U32_LIMIT
  {
    Pow2Add(h, 32 - h);
    Pow2Value32();
  }

  lemma {:induction false} Pow2Add(a: nat, b: nat)
    ensures Pow2(a) * Pow2(b) == Pow2(a + b)
    decreases a
  {
    if a > 0 {
      Pow2Add(a - 1, b);
      assert Pow2(a) * Pow2(b) == 2 * (Pow2(a - 1) * Pow2(b));
    }
  }

  lemma Pow2Value32()
    ensures Pow2(32) == U32_LIMIT
  {
    assert Pow2(8) == 256;
    Pow2Add(8, 8);
    Pow2Add(16, 16);
  }

  lemma MulMono(a: nat, b: nat, c: nat)
    requires a <= b
    ensures a * c <= b * c
  {
  }

  /** Euclidean division has one quotient and one remainder. */
  lemma DivUnique(x: int, p: int, q: int, r: int)
    requires p >= 1 && 0 <= r < p && x == q * p + r
    ensures x / p == q && x % p == r
  {
    var d, m := x / p, x % p;
    assert (d - q) * p == r - m;
    if d > q {
      MulMono(1, d - q, p);
    } else if d < q {
      MulMono(1, q - d, p);
    }
  }

  /** Every offset inside a block keeps the block's high bits. */
  lemma SameBlock(base: nat, i: nat, p: nat)
    requires p >= 1 && base % p == 0 && i < p
    ensures (base + i) / p == base / p
  {
    var q := base / p;
    assert base == q * p;
    DivUnique(base + i, p, q, i);
  }

  /**
   * On a network whose address has its host bits clear (as `net.ParseCIDR`
   * gives it), every candidate base+2 .. base+(n-1) is inside the network,
   * so the hosts are exactly those addresses.
   */
  lemma {:induction false} HostsAll(base: U32, ones: nat, n: nat)
    requires ones <= 32 && base % Pow2(32 - ones) == 0
    requires 2 <= n <= Pow2(32 - ones)
    ensures |Hosts4(base, ones, n)| == n - 2
    ensures forall k :: 0 <= k < n - 2 ==> Hosts4(base, ones, n)[k] == base + 2 + k
    decreases n
  {
    if n > 2 {
      var prev := Hosts4(base, ones, n - 1);
      HostsAll(base, ones, n - 1);
      assert Hosts4(base, ones, n) == prev + [base + n - 1] by {
        HostInside(base, ones, n - 1);
        HostsStep(base, ones, n);
      }
    }
  }

  /** One candidate more: an address inside the network is appended. */
  lemma HostsStep(base: U32, ones: nat, n: nat)
    requires ones <= 32 && n > 2 && base + n - 1 < U32_LIMIT
    requires Wrap(base + n - 1) == base + n - 1 && Contains4(base + n - 1, base, ones)
    ensures Hosts4(base, ones, n) == Hosts4(base, ones, n - 1) + [base + n - 1]
  {
  }

  lemma HostInside(base: U32, ones: nat, i: nat)
    requires ones <= 32 && base % Pow2(32 - ones) == 0 && i < Pow2(32 - ones)
    ensures base + i < U32_LIMIT && Wrap(base + i) == base + i
    ensures Contains4(base + i, base, ones)
  {
    BlockFits(base, 32 - ones);
    SameBlock(base, i, Pow2(32 - ones));
  }

  /** A /24 network offers its .2 to .254 addresses: 253 of them, in order. */
  lemma Slash24(net: Net)
    requires |net.ip| == 4 && net.ones == 24 && net.ip[3] == 0
    ensures |V4Hosts(net)| == 253
    ensures forall k :: 0 <= k < 253 ==> PutBigEndian(V4Hosts(net)[k]) == net.ip[..3] + [2 + k]
  {
    var base := BigEndian(net.ip);
    var hs := V4Hosts(net);
    assert hs == Hosts4(base, 24, 255) by {
      assert Pow2(8) == 256;
      assert HostCount(8 * |net.ip| - net.ones) == 254;
      assert To4(net.ip) == net.ip && Ones4(net) == 24;
    }
    assert |hs| == 253 && forall k :: 0 <= k < 253 ==> hs[k] as int == base as int + 2 + k by {
      assert Pow2(8) == 256;
      DivUnique(base, 256, net.ip[0] as int * 0x1_0000 + net.ip[1] as int * 0x100 + net.ip[2] as int, 0);
      HostsAll(base, 24, 255);
    }
    forall k | 0 <= k < 253 ensures PutBigEndian(hs[k]) == net.ip[..3] + [2 + k] {
      HostOfSlash24(net.ip, hs[k], k);
    }
  }

  lemma HostOfSlash24(b: seq<Byte>, h: U32, k: nat)
    requires |b| == 4 && b[3] == 0 && k < 253 && h as int == BigEndian(b) as int + 2 + k
    ensures PutBigEndian(h) == b[..3] + [2 + k]
  {
    BigEndianLow(b, 2 + k);
  }

  lemma BigEndianLow(b: seq<Byte>, j: nat)
    requires |b| == 4 && b[3] == 0 && j < 256
    ensures PutBigEndian(BigEndian(b) + j) == b[..3] + [j]
  {
    var v := BigEndian(b) + j;
    var b0, b1, b2 := b[0] as int, b[1] as int, b[2] as int;
    DivUnique(v, 0x100_0000, b0, b1 * 0x1_0000 + b2 * 0x100 + j);
    DivUnique(v, 0x1_0000, b0 * 0x100 + b1, b2 * 0x100 + j);
    DivUnique(v, 0x100, b0 * 0x1_0000 + b1 * 0x100 + b2, j);
    DivUnique(b0 * 0x100 + b1, 0x100, b0, b1);
    DivUnique(b0 * 0x1_0000 + b1 * 0x100 + b2, 0x100, b0 * 0x100 + b1, b2);
  }

  /**
   * No network has fewer than two hosts: for a prefix of 31 or 32 bits
   * `expandV4` returns nothing.
   */
  lemma TinyNetworks(net: Net)
    requires |net.ip| == 4 && net.ones >= 31
    ensures V4Hosts(net) == []
  {
    assert Pow2(1) == 2;
  }

  // ---- IPv6 ----

  /** A 16-byte address. */
  type Addr = b: seq<Byte> | |b| == 16 witness seq(16, k => 0)

  /** `To16`: a 4-byte address in its ::ffff:a.b.c.d form. */
  function To16(b: seq<Byte>): Addr
    requires |b| == 4 || |b| == 16
  {
    if |b| == 16 then b else MAPPED_PREFIX + b
  }

  /** The mask length of `net` on the 16-byte form of its address. */
  function Ones16(net: Net): nat
  {
    if |net.ip| == 4 then net.ones + 96 else net.ones
  }

  /** How many of the `n` mask bits fall in byte `k`. */
  function BitsAt(n: nat, k: nat): nat
  {
    if n <= 8 * k then 0 else if n >= 8 * k + 8 then 8 else n - 8 * k
  }

  /** The first `bits` bits of two bytes agree. */
  predicate MaskedEq(x: Byte, y: Byte, bits: nat)
    requires bits <= 8
  {
    x / Pow2(8 - bits) == y / Pow2(8 - bits)
  }

  /** `ipNet.Contains` on the 16-byte forms: the first `n` bits agree. */
  predicate Contains16(a: Addr, b: Addr, n: nat)
  {
    AgreeFrom(a, b, n, 0)
  }

  /** The masked bytes agree from byte `k` on. */
  predicate AgreeFrom(a: Addr, b: Addr, n: nat, k: nat)
    decreases 16 - k
  {
    k >= 16 || (MaskedEq(a[k], b[k], BitsAt(n, k)) && AgreeFrom(a, b, n, k + 1))
  }

  /** The candidate base[..15] + [i]. */
  function Candidate(base: Addr, i: Byte): Addr
  {
    base[..15] + [i]
  }

  /** The candidates that `expandV6` keeps among last bytes 2 .. n-1, in order. */
  function Hosts6(base: Addr, n16: nat, n: nat): seq<Addr>
    requires n <= 256
    decreases n
  {
    if n <= 2 then []
    else Hosts6(base, n16, n - 1) + (if Contains16(Candidate(base, n - 1), base, n16) then [Candidate(base, n - 1)] else [])
  }

  /** What `expandV6` returns for `net`, as addresses. */
  function V6Hosts(net: Net): seq<Addr>
  {
    Hosts6(To16(net.ip), Ones16(net), 255)
  }

  /** `net.IP.String` of a 16-byte address: dotted for ::ffff:a.b.c.d, RFC 5952 text otherwise. */
  function IpText(b: Addr): string
  {
    if IsMapped(b) then Route.DottedQuad(b[12..]) else V6Text(b)
  }

  function Texts16(hs: seq<Addr>): (ts: seq<string>)
    ensures |ts| == |hs|
  {
    seq(|hs|, k requires 0 <= k < |hs| => IpText(hs[k]))
  }

  /**
   * `expandV6`: the network's address with last byte 2 .. 254, each one the
   * network holds.
   */
  method ExpandV6(net: Net) returns (ips: seq<string>)
    ensures ips == Texts16(V6Hosts(net))
  {
    var base := To16(net.ip);
    var n16 := Ones16(net);
    ips := [];
    var i := 2;
    while i <= 254
      invariant 2 <= i <= 255
      invariant ips == Texts16(Hosts6(base, n16, i))
    {
      Hosts6Step(base, n16, i);
      ips := ips + Kept6(base, n16, i);
      i := i + 1;
    }
    assert i == 255;
  }

  /** The text of candidate `i` when the network holds it. */
  function Kept6(base: Addr, n16: nat, i: Byte): seq<string>
  {
    if Contains16(Candidate(base, i), base, n16) then [IpText(Candidate(base, i))] else []
  }

  lemma Hosts6Step(base: Addr, n16: nat, i: nat)
    requires 2 <= i < 256
    ensures Texts16(Hosts6(base, n16, i + 1)) == Texts16(Hosts6(base, n16, i)) + Kept6(base, n16, i)
  {
    var hs := Hosts6(base, n16, i);
    if Contains16(Candidate(base, i), base, n16) {
      assert Hosts6(base, n16, i + 1) == hs + [Candidate(base, i)];
      Texts16Snoc(hs, Candidate(base, i));
    } else {
      assert Hosts6(base, n16, i + 1) == hs;
    }
  }

  lemma Texts16Snoc(hs: seq<Addr>, h: Addr)
    ensures Texts16(hs + [h]) == Texts16(hs) + [IpText(h)]
  {
  }

  /**
   * Every host `expandV6` returns is the network's address with a last byte
   * from 2 to 254, in increasing order, so there are at most 253 of them.
   */
  lemma {:induction false} Hosts6Shape(base: Addr, n16: nat, n: nat)
    requires 2 <= n <= 255
    ensures |Hosts6(base, n16, n)| <= n - 2
    ensures forall k :: 0 <= k < |Hosts6(base, n16, n)| ==>
              Hosts6(base, n16, n)[k][..15] == base[..15] && 2 <= Hosts6(base, n16, n)[k][15] < n
    ensures forall j, k :: 0 <= j < k < |Hosts6(base, n16, n)| ==> Hosts6(base, n16, n)[j][15] < Hosts6(base, n16, n)[k][15]
    decreases n
  {
    if n > 2 {
      Hosts6Shape(base, n16, n - 1);
      assert Candidate(base, n - 1)[..15] == base[..15];
    }
  }

  lemma V6Shape(net: Net)
    ensures |V6Hosts(net)| <= 253
    ensures forall k :: 0 <= k < |V6Hosts(net)| ==>
              V6Hosts(net)[k][..15] == To16(net.ip)[..15] && 2 <= V6Hosts(net)[k][15] <= 254
  {
    Hosts6Shape(To16(net.ip), Ones16(net), 255);
  }

  /** A candidate differs from the network only in its last byte. */
  lemma CandidateInside(base: Addr, n16: nat, i: Byte)
    requires n16 <= 120
    ensures Contains16(Candidate(base, i), base, n16)
  {
    AgreeLast(Candidate(base, i), base, n16, 0);
  }

  /** Addresses that agree on their first 15 bytes agree under any mask of at most 120 bits. */
  lemma {:induction false} AgreeLast(a: Addr, b: Addr, n: nat, k: nat)
    requires n <= 120 && k <= 16 && a[..15] == b[..15]
    ensures AgreeFrom(a, b, n, k)
    decreases 16 - k
  {
    if k < 16 {
      AgreeLast(a, b, n, k + 1);
      if k < 15 {
        assert a[k] == a[..15][k];
      } else {
        assert Pow2(8) == 256;
      }
    }
  }

  /** A prefix of at most 120 bits keeps every candidate: exactly 253 hosts. */
  lemma {:induction false} Hosts6All(base: Addr, n16: nat, n: nat)
    requires n16 <= 120 && 2 <= n <= 255
    ensures |Hosts6(base, n16, n)| == n - 2
    decreases n
  {
    if n > 2 {
      Hosts6All(base, n16, n - 1);
      CandidateInside(base, n16, n - 1);
    }
  }

  lemma V6Full(net: Net)
    requires Ones16(net) <= 120
    ensures |V6Hosts(net)| == 253
  {
    Hosts6All(To16(net.ip), Ones16(net), 255);
  }

  /** What `expandSubnet` returns: the parse error, or the IPv4 or IPv6 hosts of the network. */
  function Expansion(cidr: string, family: int, parse: CidrParser): (r: Result<seq<string>, string>)
    ensures parse(cidr).None? ==> r == Err("parse cidr: invalid CIDR address: " + cidr)
    ensures parse(cidr).Some? && family == 4 ==> r == Ok(Texts4(V4Hosts(parse(cidr).value)))
    ensures parse(cidr).Some? && family != 4 ==> r == Ok(Texts16(V6Hosts(parse(cidr).value)))
  {
    match parse(cidr)
    case None => Err("parse cidr: invalid CIDR address: " + cidr)
    case Some(net) => Ok(if family == 4 then Texts4(V4Hosts(net)) else Texts16(V6Hosts(net)))
  }

  /** `expandSubnet`: parse the network text, then list its IPv4 or IPv6 hosts. */
  method ExpandSubnet(cidr: string, family: int, parse: CidrParser) returns (r: Result<seq<string>, string>)
    ensures r == Expansion(cidr, family, parse)
  {
    var net := parse(cidr);
    if net.None? {
      return Err("parse cidr: invalid CIDR address: " + cidr);
    }
    var ips;
    if family == 4 {
      ips := ExpandV4(net.value);
    } else {
      ips := ExpandV6(net.value);
    }
    return Ok(ips);
  }

  // ---- RFC 5952 text of an IPv6 address, as Go's netip writes it ----

  function Group(b: Addr, k: nat): nat
    requires k < 8
  {
    b[2 * k] as int * 0x100 + b[2 * k + 1] as int
  }

  function HexDigit(d: nat): char
    requires d < 16
  {
    "0123456789abcdef"[d]
  }

  /** `appendHex`: lower-case hex without leading zeros. */
  function Hex16(x: nat): string
    requires x < 0x1_0000
  {
    (if x >= 0x1000 then [HexDigit(x / 0x1000)] else [])
    + (if x >= 0x100 then [HexDigit(x / 0x100 % 16)] else [])
    + (if x >= 0x10 then [HexDigit(x / 0x10 % 16)] else [])
    + [HexDigit(x % 16)]
  }

  /** The number of zero groups from group `i` on. */
  function ZeroRun(b: Addr, i: nat): (l: nat)
    requires i <= 8
    ensures i + l <= 8
    decreases 8 - i
  {
    if i < 8 && Group(b, i) == 0 then 1 + ZeroRun(b, i + 1) else 0
  }

  /** The first longest run of two or more zero groups at or after `i`, or the best so far (`zs` 255 when none). */
  function LongestRun(b: Addr, i: nat, zs: nat, ze: nat): (r: (nat, nat))
    requires i <= 8
    requires zs == 255 || zs < ze <= 8
    ensures r.0 == 255 || r.0 < r.1 <= 8
    decreases 8 - i
  {
    if i >= 8 then (zs, ze)
    else
      var l := ZeroRun(b, i);
      var best := if zs == 255 then 0 else ze - zs;
      if l >= 2 && l > best then LongestRun(b, i + 1, i, i + l) else LongestRun(b, i + 1, zs, ze)
  }

  /** The groups from `i` on, with "::" in place of the run from `zs` to `ze`. */
  function Render6(b: Addr, i: nat, zs: nat, ze: nat): string
    requires i <= 8
    requires zs == 255 || (i <= zs < ze <= 8)
    decreases 8 - i
  {
    if i >= 8 then ""
    else if i == zs then
      "::" + (if ze >= 8 then "" else Hex16(Group(b, ze)) + Render6(b, ze + 1, 255, 0))
    else
      (if i > 0 then ":" else "") + Hex16(Group(b, i)) + Render6(b, i + 1, zs, ze)
  }

  function V6Text(b: Addr): string
  {
    var run := LongestRun(b, 0, 255, 255);
    Render6(b, 0, run.0, run.1)
  }
}
