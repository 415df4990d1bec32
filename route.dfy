/**
 * Routing through raw rtnetlink messages (`route.rs`): the parsing of
 * networks and table names, the byte layout of the policy-rule and route
 * requests (a netlink header, a twelve-byte family header and a run of
 * attributes, each padded to four bytes, as section 2.2 of RFC 3549
 * describes), the socket's sequence counter, and the reading of the
 * kernel's acknowledgement.
 *
 * The host is an oracle: whether the socket opens, the content of
 * /etc/iproute2/rt_tables, the interface indices, and what the kernel
 * answers to each request are given by a `Host` value.
 */
module Route {
  import opened Wrappers
  import opened Strings
  import opened Machine
  import Nft

  // Message types, flags, attribute types and header values
  // (linux/netlink.h, linux/rtnetlink.h, linux/fib_rules.h).
  const RTM_NEWROUTE: U16 := 24
  const RTM_DELROUTE: U16 := 25
  const RTM_NEWRULE: U16 := 32
  const RTM_DELRULE: U16 := 33
  const NLMSG_ERROR: U16 := 2

  const NLM_F_REQUEST: U16 := 0x0001
  const NLM_F_ACK: U16 := 0x0004
  const NLM_F_CREATE: U16 := 0x0400
  const NLM_F_EXCL: U16 := 0x0200

  /** REQUEST | ACK | CREATE | EXCL, the flags of the requests that add (the bits are distinct, so | is +). */
  const ADD_FLAGS: U16 := NLM_F_REQUEST + NLM_F_ACK + NLM_F_CREATE + NLM_F_EXCL
  /** REQUEST | ACK, the flags of the requests that delete. */
  const DELETE_FLAGS: U16 := NLM_F_REQUEST + NLM_F_ACK

  const RTA_DST: U16 := 1
  const RTA_OIF: U16 := 4
  const RTA_TABLE: U16 := 15
  const FRA_SRC: U16 := 2
  const FRA_DST: U16 := 1
  const FRA_TABLE: U16 := 15
  const FRA_PRIORITY: U16 := 6

  const AF_INET: Byte := 2
  const RTN_UNICAST: Byte := 1
  const RTPROT_STATIC: Byte := 4
  const RT_SCOPE_UNIVERSE: Byte := 0
  const RT_SCOPE_LINK: Byte := 253
  const FR_ACT_TO_TBL: Byte := 1

  /** Sizes of `NlMsgHdr`, of `FibRuleHdr` and `RtMsg`, and of `RtAttr`. */
  const NLMSG_HDRLEN := 16
  const FAMILY_HDRLEN := 12
  const RTA_HDRLEN := 4

  // ---- Errors ----

  /** Why `NetlinkSocket::open` failed: EPERM from socket(2), or any other socket or bind failure. */
  datatype OpenFailure = PermissionDenied | NetlinkFailed

  datatype RouteError =
    | SocketOpen(failure: OpenFailure)
    | SendFailed
    | RecvFailed
    | KernelError(errno: int)
    | InvalidNetworkFormat(network: string)
    | InvalidIpAddress
    | InvalidPrefixLength
    | CannotReadRtTables
    | InvalidTableId
    | TableNotFound(name: string)
    | NulInName(name: string)
    | InterfaceNotFound(name: string)
  {
    /**
     * The error's message; where it ends with the description of an OS or
     * standard-library error, the text up to that description.
     */
    function Text(): string
    {
      match this
      case SocketOpen(PermissionDenied) => "Permission denied (need CAP_NET_ADMIN)"
      case SocketOpen(NetlinkFailed) => "Netlink operation failed"
      case SendFailed => "netlink send failed: "
      case RecvFailed => "netlink recv failed: "
      case KernelError(_) => "netlink error: "
      case InvalidNetworkFormat(n) => "Invalid network format: " + n
      case InvalidIpAddress => "Invalid IP address: invalid IPv4 address syntax"
      case InvalidPrefixLength => "Invalid prefix length: "
      case CannotReadRtTables => "Cannot read rt_tables: "
      case InvalidTableId => "Invalid table ID in rt_tables: "
      case TableNotFound(n) => "Routing table not found: " + n
      case NulInName(n) => Nft.NulMessage(n)
      case InterfaceNotFound(n) => "Interface not found: " + n
    }
  }

  // ---- Networks ----

  /** An IPv4 network: four octets and a prefix length that fits a `u8`. */
  datatype Network = Network(addr: seq<Byte>, prefix: Byte)

  /** One octet as `Ipv4Addr::from_str` accepts it: one to three digits, no leading zero, at most 255. */
  predicate OctetText(p: string)
  {
    1 <= |p| <= 3 && AllDigits(p) && (|p| == 1 || p[0] != '0') && DigitsValue(p) < 0x100
  }

  /** `Ipv4Addr::from_str`: exactly four octets separated by dots. */
  function ParseIpv4(s: string): (r: Option<seq<Byte>>)
    ensures r.Some? ==> |r.value| == 4
  {
    var ps := Split(s, '.');
    if |ps| == 4 && OctetText(ps[0]) && OctetText(ps[1]) && OctetText(ps[2]) && OctetText(ps[3]) then
      Some([DigitsValue(ps[0]), DigitsValue(ps[1]), DigitsValue(ps[2]), DigitsValue(ps[3])])
    else None
  }

  /** The dotted-quad text of four octets, as `Ipv4Addr`'s `Display` writes it. */
  function DottedQuad(o: seq<Byte>): string
    requires |o| == 4
  {
    NatToString(o[0]) + "." + NatToString(o[1]) + "." + NatToString(o[2]) + "." + NatToString(o[3])
  }

  /** `parse_network`: exactly one '/', an IPv4 address before it and a `u8` after it. */
  function ParseNetwork(network: string): (r: Result<Network, RouteError>)
    ensures r.Ok? ==> |r.value.addr| == 4
  {
    var parts := Split(network, '/');
    if |parts| != 2 then Err(InvalidNetworkFormat(network))
    else
      match ParseIpv4(parts[0])
      case None => Err(InvalidIpAddress)
      case Some(addr) =>
        match ParseRustInt(parts[1], 0, 0xFF)
        case None => Err(InvalidPrefixLength)
        case Some(p) => Ok(Network(addr, p))
  }

  /** A number below 1000 is rendered in at most three digits. */
  lemma ShortRendering(n: nat)
    requires n < 1000
    ensures |NatToString(n)| <= 3
  {
    if n >= 10 {
      var m := n / 10;
      assert m < 100;
      if m >= 10 {
        assert m / 10 < 10;
        assert |NatToString(m / 10)| == 1;
      }
    }
  }

  /** The rendering of an octet is accepted as an octet, and its value is the octet. */
  lemma OctetRendered(n: Byte)
    ensures OctetText(NatToString(n)) && DigitsValue(NatToString(n)) == n
  {
    var p := NatToString(n);
    NatToStringValue(n);
    ShortRendering(n);
    if |p| > 1 {
      assert n >= 10;
      NatToStringLeading(n);
    }
  }

  /** A rendered number has no '.', no '/' and no white space. */
  lemma RenderingPlain(n: nat)
    ensures '.' !in NatToString(n) && '/' !in NatToString(n)
    ensures IsWord(NatToString(n))
  {
  }

  /** The dotted-quad text of four octets parses back to those octets. */
  lemma ParseDottedQuad(o: seq<Byte>)
    requires |o| == 4
    ensures ParseIpv4(DottedQuad(o)) == Some(o)
  {
    var a, b, c, d := NatToString(o[0]), NatToString(o[1]), NatToString(o[2]), NatToString(o[3]);
    DottedQuadSplit(o);
    OctetRendered(o[0]);
    OctetRendered(o[1]);
    OctetRendered(o[2]);
    OctetRendered(o[3]);
    ParseIpv4Of(DottedQuad(o), a, b, c, d);
    assert [o[0], o[1], o[2], o[3]] == o;
  }

  /** The dotted quad splits at its dots into the four renderings. */
  lemma DottedQuadSplit(o: seq<Byte>)
    requires |o| == 4
    ensures Split(DottedQuad(o), '.') == [NatToString(o[0]), NatToString(o[1]), NatToString(o[2]), NatToString(o[3])]
  {
    RenderingPlain(o[0]);
    RenderingPlain(o[1]);
    RenderingPlain(o[2]);
    RenderingPlain(o[3]);
    SplitFour(NatToString(o[0]), NatToString(o[1]), NatToString(o[2]), NatToString(o[3]), '.');
  }

  /** Four parts that are octets parse as their values. */
  lemma ParseIpv4Of(s: string, a: string, b: string, c: string, d: string)
    requires Split(s, '.') == [a, b, c, d]
    requires OctetText(a) && OctetText(b) && OctetText(c) && OctetText(d)
    ensures ParseIpv4(s) == Some([DigitsValue(a), DigitsValue(b), DigitsValue(c), DigitsValue(d)])
  {
    var ps := Split(s, '.');
    assert ps[0] == a && ps[1] == b && ps[2] == c && ps[3] == d;
    var v: seq<Byte> := [DigitsValue(a), DigitsValue(b), DigitsValue(c), DigitsValue(d)];
    assert ParseIpv4(s) == Some(v);
  }

  /** Only the dotted-quad text of an address parses as that address: the octets are canonical. */
  lemma Ipv4Canonical(s: string, o: seq<Byte>)
    requires ParseIpv4(s) == Some(o)
    ensures s == DottedQuad(o)
  {
    var ps := Split(s, '.');
    assert |ps| == 4 && OctetText(ps[0]) && OctetText(ps[1]) && OctetText(ps[2]) && OctetText(ps[3]);
    assert o == [DigitsValue(ps[0]), DigitsValue(ps[1]), DigitsValue(ps[2]), DigitsValue(ps[3])];
    assert s == ps[0] + "." + ps[1] + "." + ps[2] + "." + ps[3] by {
      JoinSplit(s, '.');
      JoinFour(ps);
    }
    OctetsRendered(ps, o);
  }

  /** Four canonical octet texts are the renderings of their values. */
  lemma OctetsRendered(ps: seq<string>, o: seq<Byte>)
    requires |ps| == 4 && OctetText(ps[0]) && OctetText(ps[1]) && OctetText(ps[2]) && OctetText(ps[3])
    requires o == [DigitsValue(ps[0]), DigitsValue(ps[1]), DigitsValue(ps[2]), DigitsValue(ps[3])]
    ensures DottedQuad(o) == ps[0] + "." + ps[1] + "." + ps[2] + "." + ps[3]
  {
    CanonicalDigits(ps[0]);
    CanonicalDigits(ps[1]);
    CanonicalDigits(ps[2]);
    CanonicalDigits(ps[3]);
  }

  lemma JoinFour(ps: seq<string>)
    requires |ps| == 4
    ensures Join(ps, ".") == ps[0] + "." + ps[1] + "." + ps[2] + "." + ps[3]
  {
    var p1, p2, p3 := ps[1..], ps[2..], ps[3..];
    assert p3 == [ps[3]] && Join(p3, ".") == ps[3];
    assert p2[1..] == p3 && Join(p2, ".") == ps[2] + "." + ps[3];
    assert p1[1..] == p2 && Join(p1, ".") == ps[1] + "." + (ps[2] + "." + ps[3]);
    assert Join(ps, ".") == ps[0] + "." + (ps[1] + "." + (ps[2] + "." + ps[3]));
  }

  /** `Ipv4Addr::from_str` and `Display` are inverse: a text parses as four octets exactly when it is their dotted quad. */
  lemma Ipv4Iff(s: string, o: seq<Byte>)
    ensures ParseIpv4(s) == Some(o) <==> |o| == 4 && s == DottedQuad(o)
  {
    if ParseIpv4(s) == Some(o) {
      Ipv4Canonical(s, o);
    }
    if |o| == 4 && s == DottedQuad(o) {
      ParseDottedQuad(o);
    }
  }

  /** A network written as address, '/' and prefix parses as that network, whatever the prefix up to 255. */
  lemma ParseNetworkText(o: seq<Byte>, p: Byte)
    requires |o| == 4
    ensures ParseNetwork(DottedQuad(o) + "/" + NatToString(p)) == Ok(Network(o, p))
  {
    var q := DottedQuad(o);
    var t := NatToString(p);
    assert Split(q + "/" + t, '/') == [q, t] by {
      QuadNoSlash(o);
      RenderingPlain(p);
      SplitCons(q, '/', t);
      SplitNone(t, '/');
      assert q + "/" + t == q + ['/'] + t;
    }
    assert ParseIpv4(q) == Some(o) by { ParseDottedQuad(o); }
    assert ParseRustInt(t, 0, 0xFF) == Some(p as int) by {
      ParseRustIntRender(p, 0, 0xFF);
      assert IntToString(p) == t;
    }
  }

  /** A dotted quad holds no '/'. */
  lemma QuadNoSlash(o: seq<Byte>)
    requires |o| == 4
    ensures '/' !in DottedQuad(o)
  {
    RenderingPlain(o[0]);
    RenderingPlain(o[1]);
    RenderingPlain(o[2]);
    RenderingPlain(o[3]);
    NoSlashJoin(NatToString(o[0]), NatToString(o[1]), NatToString(o[2]), NatToString(o[3]));
  }

  lemma NoSlashJoin(a: string, b: string, c: string, d: string)
    requires '/' !in a && '/' !in b && '/' !in c && '/' !in d
    ensures '/' !in a + "." + b + "." + c + "." + d
  {
    assert '/' !in ".";
  }

  /** A text is rejected as malformed exactly when it does not hold exactly one '/'. */
  lemma NetworkFormatError(s: string)
    ensures ParseNetwork(s) == Err(InvalidNetworkFormat(s)) <==> multiset(s)['/'] != 1
  {
    SplitCount(s, '/');
  }

  // ---- Routing tables ----

  /** The tables known by name without rt_tables. */
  function BuiltinTable(name: string): Option<U32>
  {
    if name == "default" then Some(253)
    else if name == "main" then Some(254)
    else if name == "local" then Some(255)
    else if name == "unspec" then Some(0)
    else None
  }

  /** `str::parse::<u32>` with the error of an rt_tables id. */
  function TableIdText(s: string): (r: Result<U32, RouteError>)
    ensures r.Err? ==> r.error == InvalidTableId
  {
    match ParseRustInt(s, 0, U32_LIMIT - 1)
    case Some(n) => Ok(n)
    case None => Err(InvalidTableId)
  }

  /**
   * What one rt_tables line says about `name`: nothing when it is blank, a
   * comment, or names another table; otherwise the id in its first word.
   */
  function LineTable(line: string, name: string): Option<Result<U32, RouteError>>
  {
    var t := Trim(line);
    if t == [] || t[0] == '#' then None
    else
      var ws := Words(t);
      if |ws| >= 2 && ws[1] == name then Some(TableIdText(ws[0])) else None
  }

  /** The answer of the first line that names `name`. */
  function LinesTable(lines: seq<string>, name: string): Option<Result<U32, RouteError>>
  {
    if lines == [] then None
    else if LineTable(lines[0], name).Some? then LineTable(lines[0], name)
    else LinesTable(lines[1..], name)
  }

  /**
   * What `resolve_table` answers; `rtTables` is the content of
   * /etc/iproute2/rt_tables, None when it cannot be read.
   */
  function TableId(name: string, rtTables: Option<string>): Result<U32, RouteError>
  {
    if BuiltinTable(name).Some? then Ok(BuiltinTable(name).value)
    else if ParseRustInt(name, 0, U32_LIMIT - 1).Some? then Ok(ParseRustInt(name, 0, U32_LIMIT - 1).value)
    else if rtTables.None? then Err(CannotReadRtTables)
    else
      var found := LinesTable(Split(rtTables.value, '\n'), name);
      if found.Some? then found.value else Err(TableNotFound(name))
  }

  /** `resolve_table`: the built-in names, then a decimal id, then the lines of rt_tables in order. */
  method ResolveTable(name: string, rtTables: Option<string>) returns (r: Result<U32, RouteError>)
    ensures r == TableId(name, rtTables)
  {
    var builtin := BuiltinTable(name);
    if builtin.Some? {
      return Ok(builtin.value);
    }
    var n := ParseRustInt(name, 0, U32_LIMIT - 1);
    if n.Some? {
      return Ok(n.value);
    }
    if rtTables.None? {
      return Err(CannotReadRtTables);
    }
    var lines := Split(rtTables.value, '\n');
    var i := 0;
    while i < |lines|
      invariant 0 <= i <= |lines|
      invariant LinesTable(lines[i..], name) == LinesTable(lines, name)
    {
      LinesTableStep(lines, i, name);
      var line := Trim(lines[i]);
      if line == [] || line[0] == '#' {
        i := i + 1;
        continue;
      }
      var parts := Words(line);
      if |parts| >= 2 && parts[1] == name {
        return TableIdText(parts[0]);
      }
      i := i + 1;
    }
    assert lines[i..] == [];
    return Err(TableNotFound(name));
  }

  /** The first line that names `name` answers; the lines after it are not read. */
  lemma LinesTableStep(lines: seq<string>, i: nat, name: string)
    requires i < |lines|
    ensures LinesTable(lines[i..], name) ==
      if LineTable(lines[i], name).Some? then LineTable(lines[i], name) else LinesTable(lines[i + 1..], name)
  {
    assert lines[i..][1..] == lines[i + 1..];
  }

  /** A decimal id is its own table, whatever rt_tables holds. */
  lemma TableIdNumber(id: U32, rtTables: Option<string>)
    ensures TableId(NatToString(id), rtTables) == Ok(id)
  {
    var t := NatToString(id);
    assert IsDigit(t[0]);
    assert BuiltinTable(t) == None;
    ParseRustIntRender(id, 0, U32_LIMIT - 1);
    assert IntToString(id) == t;
  }

  /** An rt_tables entry, "<id> <name>", names its table. */
  lemma EntryLine(id: U32, name: string)
    requires IsWord(name)
    ensures LineTable(NatToString(id) + " " + name, name) == Some(Ok(id))
  {
    var a := NatToString(id);
    var line := a + " " + name;
    assert IsWord(a) && IsDigit(a[0]) by { RenderingPlain(id); }
    var t := Trim(line);
    assert t == line by { TwoWordsTrimmed(a, name); }
    assert t != [] && t[0] != '#' by { assert line[0] == a[0]; }
    var ws := Words(t);
    assert ws == [a, name] by { TwoWords(a, name); }
    assert TableIdText(a) == Ok(id) by {
      ParseRustIntRender(id, 0, U32_LIMIT - 1);
      assert IntToString(id) == a;
    }
  }

  /** A line that names the table answers for it. */
  lemma LinesTableHit(x: string, rest: seq<string>, name: string)
    requires LineTable(x, name).Some?
    ensures LinesTable([x] + rest, name) == LineTable(x, name)
  {
    assert ([x] + rest)[0] == x;
  }

  /** A line that names no table is passed over. */
  lemma LinesTableSkip(x: string, rest: seq<string>, name: string)
    requires LineTable(x, name).None?
    ensures LinesTable([x] + rest, name) == LinesTable(rest, name)
  {
    assert ([x] + rest)[0] == x && ([x] + rest)[1..] == rest;
  }

  /** The first line that names the table answers for it, whatever follows. */
  lemma {:induction false} LinesTableFirst(before: seq<string>, line: string, after: seq<string>, name: string)
    requires forall i :: 0 <= i < |before| ==> LineTable(before[i], name).None?
    requires LineTable(line, name).Some?
    ensures LinesTable(before + [line] + after, name) == LineTable(line, name)
    decreases |before|
  {
    if before == [] {
      assert before + [line] + after == [line] + after;
      LinesTableHit(line, after, name);
    } else {
      var tail := before[1..];
      ConsFront(before, line, after);
      LinesTableSkip(before[0], tail + [line] + after, name);
      UnnamedTail(before, name);
      LinesTableFirst(tail, line, after, name);
    }
  }

  lemma ConsFront<T>(before: seq<T>, x: T, after: seq<T>)
    requires before != []
    ensures before + [x] + after == [before[0]] + (before[1..] + [x] + after)
  {
  }

  lemma UnnamedTail(before: seq<string>, name: string)
    requires before != []
    requires forall i :: 0 <= i < |before| ==> LineTable(before[i], name).None?
    ensures forall i :: 0 <= i < |before[1..]| ==> LineTable(before[1..][i], name).None?
  {
    assert forall i :: 0 <= i < |before[1..]| ==> before[1..][i] == before[i + 1];
  }

  /**
   * A name that is neither built in nor a number is resolved by the first
   * rt_tables line "<id> <name>"; the lines before it name other tables or
   * none, and the lines after it are not consulted.
   */
  lemma TableFromFile(id: U32, name: string, before: seq<string>, after: seq<string>)
    requires IsWord(name) && BuiltinTable(name).None? && ParseRustInt(name, 0, U32_LIMIT - 1).None?
    requires forall i :: 0 <= i < |before| ==> '\n' !in before[i] && LineTable(before[i], name).None?
    requires forall i :: 0 <= i < |after| ==> '\n' !in after[i]
    ensures TableId(name, Some(Join(before + [NatToString(id) + " " + name] + after, "\n"))) == Ok(id)
  {
    var entry := NatToString(id) + " " + name;
    var lines := before + [entry] + after;
    assert '\n' !in entry by { RenderingPlain(id); }
    FreeOf(before, entry, after, '\n');
    assert Split(Join(lines, "\n"), '\n') == lines by { SplitJoin(lines, '\n'); }
    assert LinesTable(lines, name) == Some(Ok(id)) by {
      EntryLine(id, name);
      LinesTableFirst(before, entry, after, name);
    }
  }

  lemma FreeOf(before: seq<string>, x: string, after: seq<string>, c: char)
    requires c !in x
    requires forall i :: 0 <= i < |before| ==> c !in before[i]
    requires forall i :: 0 <= i < |after| ==> c !in after[i]
    ensures var all := before + [x] + after; forall i :: 0 <= i < |all| ==> c !in all[i]
  {
    var all := before + [x] + after;
    forall i | 0 <= i < |all| ensures c !in all[i] {
      if i < |before| {
        assert all[i] == before[i];
      } else if i > |before| {
        assert all[i] == after[i - |before| - 1];
      }
    }
  }

  /** An answer read from rt_tables is the id or an invalid id, never a missing table. */
  lemma {:induction false} LinesTableAnswers(lines: seq<string>, name: string)
    ensures var f := LinesTable(lines, name); f.Some? && f.value.Err? ==> f.value.error == InvalidTableId
    decreases |lines|
  {
    if lines != [] {
      LinesTableAnswers(lines[1..], name);
    }
  }

  /** A table is not found exactly when it is neither built in nor a number and no rt_tables line names it. */
  lemma TableNotFoundIff(name: string, text: string)
    ensures TableId(name, Some(text)) == Err(TableNotFound(name)) <==>
      BuiltinTable(name).None? && ParseRustInt(name, 0, U32_LIMIT - 1).None? && LinesTable(Split(text, '\n'), name).None?
  {
    LinesTableAnswers(Split(text, '\n'), name);
  }

  // ---- Attributes ----

  /** A routing attribute: its type and its payload. */
  datatype Attr = Attr(kind: U16, data: seq<Byte>)

  /** `align4`: the least multiple of four not below `n`. */
  function Align4(n: nat): (r: nat)
    ensures r % 4 == 0 && n <= r < n + 4
  {
    (n + 3) / 4 * 4
  }

  function Zeros(n: nat): (z: seq<Byte>)
    ensures |z| == n && forall i :: 0 <= i < n ==> z[i] == 0
  {
    seq(n, _ => 0)
  }

  /** `rta_len`: header and payload, cut to 16 bits as `as u16` does. */
  function AttrLen(data: seq<Byte>): U16
  {
    (RTA_HDRLEN + |data|) % U16_LIMIT
  }

  /** An attribute's payload fits the 16-bit length field. */
  predicate Fits(attrs: seq<Attr>)
  {
    forall i :: 0 <= i < |attrs| ==> RTA_HDRLEN + |attrs[i].data| < U16_LIMIT
  }

  /** The bytes `push_attr` appends: length, type, payload, zero padding to the length rounded up to four. */
  function AttrBytes(a: Attr): (b: seq<Byte>)
    ensures RTA_HDRLEN + |a.data| < U16_LIMIT ==> |b| == Align4(RTA_HDRLEN + |a.data|)
  {
    var len := AttrLen(a.data);
    LE16(len) + LE16(a.kind) + a.data + Zeros(Align4(len) - len)
  }

  function AttrsBytes(attrs: seq<Attr>): seq<Byte>
  {
    if attrs == [] then [] else AttrBytes(attrs[0]) + AttrsBytes(attrs[1..])
  }

  /**
   * A run of attributes read back: each length covers its header and
   * payload, and the next attribute starts at the next multiple of four.
   */
  function ParseAttrs(b: seq<Byte>): Option<seq<Attr>>
    decreases |b|
  {
    if b == [] then Some([])
    else if |b| < RTA_HDRLEN then None
    else
      var len := ReadLE16(b, 0);
      if len < RTA_HDRLEN || |b| < Align4(len) then None
      else
        var rest := ParseAttrs(b[Align4(len)..]);
        if rest.None? then None else Some([Attr(ReadLE16(b, 2), b[RTA_HDRLEN..len])] + rest.value)
  }

  lemma {:induction false} AttrsBytesSnoc(attrs: seq<Attr>, a: Attr)
    ensures AttrsBytes(attrs + [a]) == AttrsBytes(attrs) + AttrBytes(a)
  {
    if attrs == [] {
      assert attrs + [a] == [a];
      assert [a][1..] == [];
    } else {
      assert (attrs + [a])[1..] == attrs[1..] + [a];
      AttrsBytesSnoc(attrs[1..], a);
    }
  }

  /** Attributes that fit keep a buffer four-aligned. */
  lemma {:induction false} AttrsAligned(attrs: seq<Attr>)
    requires Fits(attrs)
    ensures |AttrsBytes(attrs)| % 4 == 0
  {
    if attrs != [] {
      assert RTA_HDRLEN + |attrs[0].data| < U16_LIMIT;
      assert forall i :: 0 <= i < |attrs[1..]| ==> attrs[1..][i] == attrs[i + 1];
      AttrsAligned(attrs[1..]);
      Multiple4Sum(|AttrBytes(attrs[0])|, |AttrsBytes(attrs[1..])|);
    }
  }

  lemma Multiple4Sum(a: nat, b: nat)
    requires a % 4 == 0 && b % 4 == 0
    ensures (a + b) % 4 == 0
  {
  }

  /** The payload and type of one attribute are read back from its bytes. */
  lemma AttrRoundTrip(a: Attr, rest: seq<Byte>)
    requires RTA_HDRLEN + |a.data| < U16_LIMIT
    ensures var b := AttrBytes(a) + rest;
      var len := ReadLE16(b, 0);
      len == RTA_HDRLEN + |a.data| && ReadLE16(b, 2) == a.kind &&
      b[RTA_HDRLEN..len] == a.data && b[Align4(len)..] == rest
  {
    var len := AttrLen(a.data);
    var b := AttrBytes(a) + rest;
    assert b == [] + LE16(len) + (LE16(a.kind) + a.data + Zeros(Align4(len) - len) + rest);
    ReadLE16Of(len, [], LE16(a.kind) + a.data + Zeros(Align4(len) - len) + rest);
    assert b == LE16(len) + LE16(a.kind) + (a.data + Zeros(Align4(len) - len) + rest);
    ReadLE16Of(a.kind, LE16(len), a.data + Zeros(Align4(len) - len) + rest);
  }

  /** Every run of attributes that fit is read back as itself. */
  lemma {:induction false} AttrsRoundTrip(attrs: seq<Attr>)
    requires Fits(attrs)
    ensures ParseAttrs(AttrsBytes(attrs)) == Some(attrs)
  {
    if attrs != [] {
      var a := attrs[0];
      var rest := AttrsBytes(attrs[1..]);
      assert RTA_HDRLEN + |a.data| < U16_LIMIT;
      AttrRoundTrip(a, rest);
      assert forall i :: 0 <= i < |attrs[1..]| ==> attrs[1..][i] == attrs[i + 1];
      AttrsRoundTrip(attrs[1..]);
      assert [a] + attrs[1..] == attrs;
    }
  }

  // ---- The message buffer ----

  /** The `Vec<u8>` a request is assembled in. */
  class ByteBuffer {
    var bytes: seq<Byte>

    constructor ()
      ensures bytes == []
    {
      bytes := [];
    }

    /** `extend_from_slice`. */
    method Extend(data: seq<Byte>)
      modifies this
      ensures bytes == old(bytes) + data
    {
      bytes := bytes + data;
    }

    /** `push`. */
    method Push(b: Byte)
      modifies this
      ensures bytes == old(bytes) + [b]
    {
      bytes := bytes + [b];
    }

    /** `buf[i] = b`. */
    method Set(i: nat, b: Byte)
      requires i < |bytes|
      modifies this
      ensures bytes == old(bytes)[i := b]
    {
      bytes := bytes[i := b];
    }

    /** `buf[..|src|].copy_from_slice(src)`. */
    method CopyFromSlice(src: seq<Byte>)
      requires |src| <= |bytes|
      modifies this
      ensures bytes == src + old(bytes)[|src|..]
    {
      bytes := src + bytes[|src|..];
    }
  }

  /** `push_attr`: the length, the type, the payload, then one zero per byte of padding. */
  method PushAttr(buf: ByteBuffer, rtaType: U16, data: seq<Byte>)
    modifies buf
    ensures buf.bytes == old(buf.bytes) + AttrBytes(Attr(rtaType, data))
  {
    var rtaLen := AttrLen(data);
    buf.Extend(LE16(rtaLen));
    buf.Extend(LE16(rtaType));
    buf.Extend(data);
    var padded := Align4(rtaLen);
    var i := 0;
    while i < padded - rtaLen
      invariant 0 <= i <= padded - rtaLen
      invariant buf.bytes == old(buf.bytes) + LE16(rtaLen) + LE16(rtaType) + data + Zeros(i)
    {
      buf.Push(0);
      assert Zeros(i) + [0] == Zeros(i + 1);
      i := i + 1;
    }
  }

  /** `push_attr_u32`: a four-byte payload in the host's byte order. */
  method PushAttrU32(buf: ByteBuffer, rtaType: U16, val: U32)
    modifies buf
    ensures buf.bytes == old(buf.bytes) + AttrBytes(Attr(rtaType, LE32(val)))
  {
    PushAttr(buf, rtaType, LE32(val));
  }

  // ---- Messages ----

  /** `NlMsgHdr` with a zero port id. */
  function NlHeader(len: U32, msgType: U16, flags: U16, seqNo: U32): (h: seq<Byte>)
    ensures |h| == NLMSG_HDRLEN
  {
    LE32(len) + LE16(msgType) + LE16(flags) + LE32(seqNo) + LE32(0)
  }

  /** The one-byte table field: the id when it fits, 0 when the id travels as an attribute. */
  function TableByte(id: U32): Byte
  {
    if id <= 255 then id else 0
  }

  /** `FibRuleHdr` of an IPv4 rule that selects a table. */
  function FibHeader(dstLen: Byte, srcLen: Byte, table: Byte): (h: seq<Byte>)
    ensures |h| == FAMILY_HDRLEN
  {
    [AF_INET, dstLen, srcLen, 0, table, 0, 0, FR_ACT_TO_TBL] + LE32(0)
  }

  function Scope(dstLen: Byte): Byte
  {
    if dstLen == 0 then RT_SCOPE_UNIVERSE else RT_SCOPE_LINK
  }

  /** `RtMsg` of a static IPv4 unicast route. */
  function RtHeader(dstLen: Byte, table: Byte): (h: seq<Byte>)
    ensures |h| == FAMILY_HDRLEN
  {
    [AF_INET, dstLen, 0, 0, table, RTPROT_STATIC, Scope(dstLen), RTN_UNICAST] + LE32(0)
  }

  /** A request: the header, whose length is the whole message's, then the family header and the attributes. */
  function Message(msgType: U16, flags: U16, seqNo: U32, family: seq<Byte>, attrs: seq<Attr>): seq<Byte>
  {
    var body := family + AttrsBytes(attrs);
    NlHeader((NLMSG_HDRLEN + |body|) % U32_LIMIT, msgType, flags, seqNo) + body
  }

  /** A request read back: header fields, family header and attributes. */
  datatype Parsed = Parsed(len: U32, msgType: U16, flags: U16, seqNo: U32, pid: U32, family: seq<Byte>, attrs: seq<Attr>)

  function ParseMessage(m: seq<Byte>): Option<Parsed>
  {
    if |m| < NLMSG_HDRLEN + FAMILY_HDRLEN then None
    else
      var attrs := ParseAttrs(m[NLMSG_HDRLEN + FAMILY_HDRLEN..]);
      if attrs.None? then None
      else Some(Parsed(ReadLE32(m, 0), ReadLE16(m, 4), ReadLE16(m, 6), ReadLE32(m, 8), ReadLE32(m, 12),
                       m[NLMSG_HDRLEN..NLMSG_HDRLEN + FAMILY_HDRLEN], attrs.value))
  }

  /**
   * Every request reads back as the fields it was built from, its length
   * field is its length, and it is a whole number of four-byte words.
   */
  lemma MessageRoundTrip(msgType: U16, flags: U16, seqNo: U32, family: seq<Byte>, attrs: seq<Attr>)
    requires |family| == FAMILY_HDRLEN && Fits(attrs)
    requires NLMSG_HDRLEN + FAMILY_HDRLEN + |AttrsBytes(attrs)| < U32_LIMIT
    ensures var m := Message(msgType, flags, seqNo, family, attrs);
      ParseMessage(m) == Some(Parsed(|m|, msgType, flags, seqNo, 0, family, attrs)) && |m| % 4 == 0
  {
    var m := Message(msgType, flags, seqNo, family, attrs);
    MessageHeaderRead(msgType, flags, seqNo, family, attrs);
    MessageBodyRead(msgType, flags, seqNo, family, attrs);
  }

  /** The header of a request reads back as its fields, with the request's length. */
  lemma MessageHeaderRead(msgType: U16, flags: U16, seqNo: U32, family: seq<Byte>, attrs: seq<Attr>)
    requires |family| == FAMILY_HDRLEN
    requires NLMSG_HDRLEN + FAMILY_HDRLEN + |AttrsBytes(attrs)| < U32_LIMIT
    ensures var m := Message(msgType, flags, seqNo, family, attrs);
      |m| == NLMSG_HDRLEN + FAMILY_HDRLEN + |AttrsBytes(attrs)| &&
      ReadLE32(m, 0) == |m| && ReadLE16(m, 4) == msgType && ReadLE16(m, 6) == flags &&
      ReadLE32(m, 8) == seqNo && ReadLE32(m, 12) == 0
  {
    var ab := AttrsBytes(attrs);
    var len := NLMSG_HDRLEN + FAMILY_HDRLEN + |ab|;
    var h := NlHeader(len, msgType, flags, seqNo);
    assert Message(msgType, flags, seqNo, family, attrs) == h + (family + ab) by {
      MessageShape(msgType, flags, seqNo, family, attrs);
    }
    NlHeaderFields(len, msgType, flags, seqNo);
    HeaderPrefix(h, family + ab);
  }

  /** The five header fields are read from the header's own sixteen bytes, whatever follows. */
  lemma HeaderPrefix(h: seq<Byte>, rest: seq<Byte>)
    requires |h| == NLMSG_HDRLEN
    ensures ReadLE32(h + rest, 0) == ReadLE32(h, 0) && ReadLE16(h + rest, 4) == ReadLE16(h, 4)
    ensures ReadLE16(h + rest, 6) == ReadLE16(h, 6) && ReadLE32(h + rest, 8) == ReadLE32(h, 8)
    ensures ReadLE32(h + rest, 12) == ReadLE32(h, 12)
  {
    ReadPrefix(h, rest, 0);
    ReadPrefix(h, rest, 4);
    ReadPrefix(h, rest, 6);
    ReadPrefix(h, rest, 8);
    ReadPrefix(h, rest, 12);
  }

  /** The family header and the attributes of a request read back, and it is a whole number of words. */
  lemma MessageBodyRead(msgType: U16, flags: U16, seqNo: U32, family: seq<Byte>, attrs: seq<Attr>)
    requires |family| == FAMILY_HDRLEN && Fits(attrs)
    requires NLMSG_HDRLEN + FAMILY_HDRLEN + |AttrsBytes(attrs)| < U32_LIMIT
    ensures var m := Message(msgType, flags, seqNo, family, attrs);
      |m| >= NLMSG_HDRLEN + FAMILY_HDRLEN && |m| % 4 == 0 &&
      m[NLMSG_HDRLEN..NLMSG_HDRLEN + FAMILY_HDRLEN] == family &&
      ParseAttrs(m[NLMSG_HDRLEN + FAMILY_HDRLEN..]) == Some(attrs)
  {
    var ab := AttrsBytes(attrs);
    var m := Message(msgType, flags, seqNo, family, attrs);
    assert m[NLMSG_HDRLEN..NLMSG_HDRLEN + FAMILY_HDRLEN] == family && m[NLMSG_HDRLEN + FAMILY_HDRLEN..] == ab by {
      MessageShape(msgType, flags, seqNo, family, attrs);
    }
    AttrsRoundTrip(attrs);
    MessageAligned(msgType, flags, seqNo, family, attrs);
  }

  lemma MessageAligned(msgType: U16, flags: U16, seqNo: U32, family: seq<Byte>, attrs: seq<Attr>)
    requires |family| == FAMILY_HDRLEN && Fits(attrs)
    requires NLMSG_HDRLEN + FAMILY_HDRLEN + |AttrsBytes(attrs)| < U32_LIMIT
    ensures |Message(msgType, flags, seqNo, family, attrs)| % 4 == 0
  {
    MessageShape(msgType, flags, seqNo, family, attrs);
    AttrsAligned(attrs);
    HeadersAligned(|AttrsBytes(attrs)|);
  }

  lemma HeadersAligned(n: nat)
    requires n % 4 == 0
    ensures (NLMSG_HDRLEN + FAMILY_HDRLEN + n) % 4 == 0
  {
  }

  /** A request whose length fits 32 bits is its header, its family header and its attributes, in that order. */
  lemma MessageShape(msgType: U16, flags: U16, seqNo: U32, family: seq<Byte>, attrs: seq<Attr>)
    requires |family| == FAMILY_HDRLEN
    requires NLMSG_HDRLEN + FAMILY_HDRLEN + |AttrsBytes(attrs)| < U32_LIMIT
    ensures Message(msgType, flags, seqNo, family, attrs) ==
      NlHeader(NLMSG_HDRLEN + FAMILY_HDRLEN + |AttrsBytes(attrs)|, msgType, flags, seqNo) + (family + AttrsBytes(attrs))
  {
    U32Small(NLMSG_HDRLEN + |family + AttrsBytes(attrs)|);
  }

  /** The header's fields read back. */
  lemma NlHeaderFields(len: U32, msgType: U16, flags: U16, seqNo: U32)
    ensures var h := NlHeader(len, msgType, flags, seqNo);
      ReadLE32(h, 0) == len && ReadLE16(h, 4) == msgType && ReadLE16(h, 6) == flags &&
      ReadLE32(h, 8) == seqNo && ReadLE32(h, 12) == 0
  {
    var h := NlHeader(len, msgType, flags, seqNo);
    assert h == [] + LE32(len) + (LE16(msgType) + LE16(flags) + LE32(seqNo) + LE32(0));
    ReadLE32Of(len, [], LE16(msgType) + LE16(flags) + LE32(seqNo) + LE32(0));
    assert h == LE32(len) + LE16(msgType) + (LE16(flags) + LE32(seqNo) + LE32(0));
    ReadLE16Of(msgType, LE32(len), LE16(flags) + LE32(seqNo) + LE32(0));
    assert h == LE32(len) + LE16(msgType) + LE16(flags) + (LE32(seqNo) + LE32(0));
    ReadLE16Of(flags, LE32(len) + LE16(msgType), LE32(seqNo) + LE32(0));
    assert h == LE32(len) + LE16(msgType) + LE16(flags) + LE32(seqNo) + (LE32(0) + []);
    ReadLE32Of(seqNo, LE32(len) + LE16(msgType) + LE16(flags), LE32(0));
    ReadLE32Of(0, LE32(len) + LE16(msgType) + LE16(flags) + LE32(seqNo), []);
  }

  // ---- Policy rules ----

  /** What a policy request names once its texts are parsed. */
  datatype PolicyRequest = PolicyRequest(tableId: U32, src: Network, dst: Option<Network>)

  /**
   * The parsing steps of `policy_add` and `policy_delete`, in their order:
   * the table, the source network, then the destination when it is given.
   */
  function PolicyRequestOf(from: string, to: string, tableName: string, rtTables: Option<string>): Result<PolicyRequest, RouteError>
  {
    match TableId(tableName, rtTables)
    case Err(e) => Err(e)
    case Ok(t) =>
      match ParseNetwork(from)
      case Err(e) => Err(e)
      case Ok(src) =>
        if to == [] then Ok(PolicyRequest(t, src, None))
        else
          match ParseNetwork(to)
          case Err(e) => Err(e)
          case Ok(dst) => Ok(PolicyRequest(t, src, Some(dst)))
  }

  /** The source, the destination when given, the table when it needs 32 bits, and the priority. */
  function PolicyAttrs(q: PolicyRequest, priority: U32): seq<Attr>
  {
    [Attr(FRA_SRC, q.src.addr)]
    + (if q.dst.Some? then [Attr(FRA_DST, q.dst.value.addr)] else [])
    + (if q.tableId > 255 then [Attr(FRA_TABLE, LE32(q.tableId))] else [])
    + [Attr(FRA_PRIORITY, LE32(priority))]
  }

  function PolicyFamily(q: PolicyRequest): seq<Byte>
  {
    FibHeader(if q.dst.Some? then q.dst.value.prefix else 0, q.src.prefix, TableByte(q.tableId))
  }

  function PolicyMessage(msgType: U16, flags: U16, seqNo: U32, q: PolicyRequest, priority: U32): seq<Byte>
  {
    Message(msgType, flags, seqNo, PolicyFamily(q), PolicyAttrs(q, priority))
  }

  predicate WellParsed(q: PolicyRequest)
  {
    |q.src.addr| == 4 && (q.dst.Some? ==> |q.dst.value.addr| == 4)
  }

  lemma PolicyRequestParsed(from: string, to: string, tableName: string, rtTables: Option<string>)
    ensures var r := PolicyRequestOf(from, to, tableName, rtTables);
      r.Ok? ==> WellParsed(r.value) && (r.value.dst.Some? <==> to != [])
  {
  }

  /**
   * What the kernel reads in a policy request: its length field is its
   * length; the header's table byte is the id when it fits in a byte and 0
   * otherwise, and an FRA_TABLE attribute carries the id exactly when it
   * does not fit; the destination length is the destination's prefix, 0
   * when no destination is given; the first attribute is the source and
   * the last is the priority.
   */
  lemma PolicyMessageFields(msgType: U16, flags: U16, seqNo: U32, q: PolicyRequest, priority: U32)
    requires WellParsed(q)
    ensures var m := PolicyMessage(msgType, flags, seqNo, q, priority);
      var p := ParseMessage(m);
      && p.Some? && p.value.len == |m| && |m| % 4 == 0
      && p.value.msgType == msgType && p.value.flags == flags && p.value.seqNo == seqNo
      && m[NLMSG_HDRLEN + 4] == TableByte(q.tableId)
      && m[NLMSG_HDRLEN + 1] == (if q.dst.Some? then q.dst.value.prefix else 0)
      && m[NLMSG_HDRLEN + 2] == q.src.prefix
      && p.value.attrs[0] == Attr(FRA_SRC, q.src.addr)
      && p.value.attrs[|p.value.attrs| - 1] == Attr(FRA_PRIORITY, LE32(priority))
      && ((exists i :: 0 <= i < |p.value.attrs| && p.value.attrs[i].kind == FRA_TABLE) <==> q.tableId > 255)
      && (q.tableId > 255 ==> Attr(FRA_TABLE, LE32(q.tableId)) in p.value.attrs)
      && ((exists i :: 0 <= i < |p.value.attrs| && p.value.attrs[i].kind == FRA_DST) <==> q.dst.Some?)
  {
    var attrs := PolicyAttrs(q, priority);
    var fam := PolicyFamily(q);
    var m := PolicyMessage(msgType, flags, seqNo, q, priority);
    assert ParseMessage(m) == Some(Parsed(|m|, msgType, flags, seqNo, 0, fam, attrs)) && |m| % 4 == 0 by {
      PolicyAttrsSmall(q, priority);
      MessageRoundTrip(msgType, flags, seqNo, fam, attrs);
    }
    assert m[NLMSG_HDRLEN + 1] == fam[1] && m[NLMSG_HDRLEN + 2] == fam[2] && m[NLMSG_HDRLEN + 4] == fam[4] by {
      FamilyBytes(msgType, flags, seqNo, fam, attrs);
    }
    PolicyAttrsFacts(ParseMessage(m).value.attrs, q, priority);
  }

  /** The family header sits right after the netlink header. */
  lemma FamilyBytes(msgType: U16, flags: U16, seqNo: U32, family: seq<Byte>, attrs: seq<Attr>)
    requires |family| == FAMILY_HDRLEN
    ensures var m := Message(msgType, flags, seqNo, family, attrs);
      |m| >= NLMSG_HDRLEN + FAMILY_HDRLEN &&
      forall i :: 0 <= i < FAMILY_HDRLEN ==> m[NLMSG_HDRLEN + i] == family[i]
  {
  }

  /** Where the source, the destination, the table and the priority sit among a policy request's attributes. */
  lemma PolicyAttrsFacts(attrs: seq<Attr>, q: PolicyRequest, priority: U32)
    requires attrs == PolicyAttrs(q, priority)
    ensures
      && attrs[0] == Attr(FRA_SRC, q.src.addr)
      && attrs[|attrs| - 1] == Attr(FRA_PRIORITY, LE32(priority))
      && ((exists i :: 0 <= i < |attrs| && attrs[i].kind == FRA_TABLE) <==> q.tableId > 255)
      && (q.tableId > 255 ==> Attr(FRA_TABLE, LE32(q.tableId)) in attrs)
      && ((exists i :: 0 <= i < |attrs| && attrs[i].kind == FRA_DST) <==> q.dst.Some?)
  {
    var src := Attr(FRA_SRC, q.src.addr);
    var prio := Attr(FRA_PRIORITY, LE32(priority));
    var table := Attr(FRA_TABLE, LE32(q.tableId));
    if q.dst.Some? {
      var dst := Attr(FRA_DST, q.dst.value.addr);
      if q.tableId > 255 {
        assert attrs == [src, dst, table, prio];
        assert attrs[1].kind == FRA_DST && attrs[2].kind == FRA_TABLE;
      } else {
        assert attrs == [src, dst, prio];
        assert attrs[1].kind == FRA_DST;
      }
    } else {
      if q.tableId > 255 {
        assert attrs == [src, table, prio];
        assert attrs[1].kind == FRA_TABLE;
      } else {
        assert attrs == [src, prio];
      }
    }
  }

  /** A policy request's attributes fit, and are at most four of at most eight bytes each. */
  lemma PolicyAttrsSmall(q: PolicyRequest, priority: U32)
    requires WellParsed(q)
    ensures Fits(PolicyAttrs(q, priority)) && |AttrsBytes(PolicyAttrs(q, priority))| <= 32
  {
    var attrs := PolicyAttrs(q, priority);
    assert |attrs| <= 4;
    AttrsAtMost(attrs);
  }

  /** Attributes with at most four payload bytes take at most eight bytes each. */
  lemma {:induction false} AttrsAtMost(attrs: seq<Attr>)
    requires forall i :: 0 <= i < |attrs| ==> |attrs[i].data| <= 4
    ensures Fits(attrs) && |AttrsBytes(attrs)| <= 8 * |attrs|
  {
    if attrs != [] {
      assert |attrs[0].data| <= 4;
      assert forall i :: 0 <= i < |attrs[1..]| ==> attrs[1..][i] == attrs[i + 1];
      AttrsAtMost(attrs[1..]);
    }
  }

  // ---- Routes ----

  /** What a route request names once its texts are parsed. */
  datatype RouteRequest = RouteRequest(tableId: U32, ifindex: U32, dst: Network)

  /** "default" and "0.0.0.0/0" are the default route; anything else is parsed. */
  function Destination(destination: string): Result<Network, RouteError>
  {
    if destination == "default" || destination == "0.0.0.0/0" then Ok(Network([0, 0, 0, 0], 0))
    else ParseNetwork(destination)
  }

  /** The "0.0.0.0/0" shortcut agrees with parsing: every destination but "default" is what `parse_network` makes of it. */
  lemma DestinationAgrees(destination: string)
    requires destination != "default"
    ensures Destination(destination) == ParseNetwork(destination)
  {
    if destination == "0.0.0.0/0" {
      assert DottedQuad([0, 0, 0, 0]) + "/" + NatToString(0) == "0.0.0.0/0";
      ParseNetworkText([0, 0, 0, 0], 0);
    }
  }

  /** `if_nametoindex`: a name with a NUL is not a C string, and index 0 means no such interface. */
  function InterfaceIndex(name: string, interfaces: string -> U32): (r: Result<U32, RouteError>)
    ensures r.Ok? ==> r.value != 0 && r.value == interfaces(name)
  {
    if '\0' in name then Err(NulInName(name))
    else if interfaces(name) == 0 then Err(InterfaceNotFound(name))
    else Ok(interfaces(name))
  }

  /** The parsing steps of `route_add` and `route_delete`, in their order: table, interface, destination. */
  function RouteRequestOf(destination: string, device: string, tableName: string, host: Host): Result<RouteRequest, RouteError>
  {
    match TableId(tableName, host.rtTables)
    case Err(e) => Err(e)
    case Ok(t) =>
      match InterfaceIndex(device, host.interfaces)
      case Err(e) => Err(e)
      case Ok(ifindex) =>
        match Destination(destination)
        case Err(e) => Err(e)
        case Ok(dst) => Ok(RouteRequest(t, ifindex, dst))
  }

  /** The destination unless the route is a default one, the interface, and the table when it needs 32 bits. */
  function RouteAttrs(q: RouteRequest): seq<Attr>
  {
    (if q.dst.prefix > 0 then [Attr(RTA_DST, q.dst.addr)] else [])
    + [Attr(RTA_OIF, LE32(q.ifindex))]
    + (if q.tableId > 255 then [Attr(RTA_TABLE, LE32(q.tableId))] else [])
  }

  function RouteMessage(msgType: U16, flags: U16, seqNo: U32, q: RouteRequest): seq<Byte>
  {
    Message(msgType, flags, seqNo, RtHeader(q.dst.prefix, TableByte(q.tableId)), RouteAttrs(q))
  }

  /**
   * What the kernel reads in a route request: its length field is its
   * length; a prefix of 0 gives universe scope and no RTA_DST, any other
   * prefix link scope and an RTA_DST; RTA_OIF always carries the interface;
   * the table travels in the header byte when it fits and in RTA_TABLE
   * exactly when it does not.
   */
  lemma RouteMessageFields(msgType: U16, flags: U16, seqNo: U32, q: RouteRequest)
    requires |q.dst.addr| == 4
    ensures var m := RouteMessage(msgType, flags, seqNo, q);
      var p := ParseMessage(m);
      && p.Some? && p.value.len == |m| && |m| % 4 == 0
      && p.value.msgType == msgType && p.value.flags == flags && p.value.seqNo == seqNo
      && m[NLMSG_HDRLEN + 1] == q.dst.prefix
      && m[NLMSG_HDRLEN + 4] == TableByte(q.tableId)
      && m[NLMSG_HDRLEN + 6] == (if q.dst.prefix == 0 then RT_SCOPE_UNIVERSE else RT_SCOPE_LINK)
      && ((exists i :: 0 <= i < |p.value.attrs| && p.value.attrs[i].kind == RTA_DST) <==> q.dst.prefix > 0)
      && Attr(RTA_OIF, LE32(q.ifindex)) in p.value.attrs
      && ((exists i :: 0 <= i < |p.value.attrs| && p.value.attrs[i].kind == RTA_TABLE) <==> q.tableId > 255)
      && (q.tableId > 255 ==> Attr(RTA_TABLE, LE32(q.tableId)) in p.value.attrs)
  {
    var attrs := RouteAttrs(q);
    var fam := RtHeader(q.dst.prefix, TableByte(q.tableId));
    var m := RouteMessage(msgType, flags, seqNo, q);
    assert ParseMessage(m) == Some(Parsed(|m|, msgType, flags, seqNo, 0, fam, attrs)) && |m| % 4 == 0 by {
      assert |attrs| <= 3;
      AttrsAtMost(attrs);
      MessageRoundTrip(msgType, flags, seqNo, fam, attrs);
    }
    assert m[NLMSG_HDRLEN + 1] == fam[1] && m[NLMSG_HDRLEN + 4] == fam[4] && m[NLMSG_HDRLEN + 6] == fam[6] by {
      FamilyBytes(msgType, flags, seqNo, fam, attrs);
    }
    RouteAttrsFacts(ParseMessage(m).value.attrs, q);
  }

  /** Where the destination, the interface and the table sit among a route request's attributes. */
  lemma RouteAttrsFacts(attrs: seq<Attr>, q: RouteRequest)
    requires attrs == RouteAttrs(q)
    ensures
      && ((exists i :: 0 <= i < |attrs| && attrs[i].kind == RTA_DST) <==> q.dst.prefix > 0)
      && Attr(RTA_OIF, LE32(q.ifindex)) in attrs
      && ((exists i :: 0 <= i < |attrs| && attrs[i].kind == RTA_TABLE) <==> q.tableId > 255)
      && (q.tableId > 255 ==> Attr(RTA_TABLE, LE32(q.tableId)) in attrs)
  {
    var dst := Attr(RTA_DST, q.dst.addr);
    var oif := Attr(RTA_OIF, LE32(q.ifindex));
    var table := Attr(RTA_TABLE, LE32(q.tableId));
    if q.dst.prefix > 0 {
      if q.tableId > 255 {
        assert attrs == [dst, oif, table];
        assert attrs[0].kind == RTA_DST && attrs[2].kind == RTA_TABLE;
      } else {
        assert attrs == [dst, oif];
        assert attrs[0].kind == RTA_DST;
      }
    } else {
      if q.tableId > 255 {
        assert attrs == [oif, table];
        assert attrs[1].kind == RTA_TABLE;
      } else {
        assert attrs == [oif];
      }
    }
  }

  // ---- The socket and the kernel's answer ----

  /**
   * The host the operations run on: whether the netlink socket opens, the
   * content of rt_tables (None when unreadable), `if_nametoindex`, and the
   * kernel's reply to each request (or the failure of send or recv).
   */
  datatype Host = Host(
    socket: Option<OpenFailure>,
    rtTables: Option<string>,
    interfaces: string -> U32,
    kernel: seq<Byte> -> Result<seq<Byte>, RouteError>)

  /**
   * The kernel's answer: an NLMSG_ERROR message whose error field is not
   * zero is a failure carrying the negated field; every other reply, a
   * short one included, is success.
   */
  function AckOf(reply: Result<seq<Byte>, RouteError>): Result<(), RouteError>
  {
    match reply
    case Err(e) => Err(e)
    case Ok(b) =>
      if |b| >= NLMSG_HDRLEN && ReadLE16(b, 4) == NLMSG_ERROR && |b| >= NLMSG_HDRLEN + 4
         && AsI32(ReadLE32(b, NLMSG_HDRLEN)) != 0
      then Err(KernelError(-AsI32(ReadLE32(b, NLMSG_HDRLEN))))
      else Ok(())
  }

  /** The kernel's `nlmsgerr` reply to a request: the negated errno, then the request's header. */
  function ErrorReply(errno: int, seqNo: U32, request: seq<Byte>): seq<Byte>
    requires -I32_LIMIT < errno <= I32_LIMIT && |request| >= NLMSG_HDRLEN
  {
    NlHeader(NLMSG_HDRLEN + 4 + NLMSG_HDRLEN, NLMSG_ERROR, 0, seqNo) + LE32(AsU32(-errno)) + request[..NLMSG_HDRLEN]
  }

  /** An error reply fails the operation with its errno; the reply with errno 0, the acknowledgement, does not. */
  lemma ErrorReplyRead(errno: int, seqNo: U32, request: seq<Byte>)
    requires -I32_LIMIT < errno <= I32_LIMIT && |request| >= NLMSG_HDRLEN
    ensures AckOf(Ok(ErrorReply(errno, seqNo, request))) == if errno == 0 then Ok(()) else Err(KernelError(errno))
  {
    var code := AsU32(-errno);
    var h := NlHeader(NLMSG_HDRLEN + 4 + NLMSG_HDRLEN, NLMSG_ERROR, 0, seqNo);
    var b := ErrorReply(errno, seqNo, request);
    var tail := request[..NLMSG_HDRLEN];
    assert b == LE32(NLMSG_HDRLEN + 4 + NLMSG_HDRLEN) + LE16(NLMSG_ERROR) + (LE16(0) + LE32(seqNo) + LE32(0) + LE32(code) + tail);
    ReadLE16Of(NLMSG_ERROR, LE32(NLMSG_HDRLEN + 4 + NLMSG_HDRLEN), LE16(0) + LE32(seqNo) + LE32(0) + LE32(code) + tail);
    assert b == h + LE32(code) + tail;
    ReadLE32Of(code, h, tail);
  }

  /** A reply too short to hold an error code, or of another type, is success. */
  lemma OtherRepliesSucceed(b: seq<Byte>)
    requires |b| < NLMSG_HDRLEN + 4 || ReadLE16(b, 4) != NLMSG_ERROR
    ensures AckOf(Ok(b)) == Ok(())
  {
  }

  /** `NetlinkSocket`: its sequence counter; the descriptor is the host's. */
  class NetlinkSocket {
    var sequence: U32

    constructor ()
      ensures sequence == 1
    {
      sequence := 1;
    }

    /** `next_seq`: the current number, and the counter moves on by one (wrapping at 32 bits). */
    method NextSeq() returns (s: U32)
      modifies this
      ensures s == old(sequence) && sequence == (old(sequence) + 1) % U32_LIMIT
    {
      s := sequence;
      sequence := (sequence + 1) % U32_LIMIT;
    }

    /** `send_and_ack`: the request goes to the kernel and its reply is read as an acknowledgement. */
    method SendAndAck(buf: seq<Byte>, host: Host) returns (r: Result<(), RouteError>)
      ensures r == AckOf(host.kernel(buf))
    {
      var reply := host.kernel(buf);
      r := AckOf(reply);
    }
  }

  /** `NetlinkSocket::open`. */
  method Open(host: Host) returns (r: Result<NetlinkSocket, RouteError>)
    ensures r.Err? <==> host.socket.Some?
    ensures host.socket.Some? ==> r == Err(SocketOpen(host.socket.value))
    ensures r.Ok? ==> fresh(r.value) && r.value.sequence == 1
  {
    if host.socket.Some? {
      return Err(SocketOpen(host.socket.value));
    }
    var sock := new NetlinkSocket();
    return Ok(sock);
  }

  // ---- The operations ----

  /** The patch of the destination length into the rule header. */
  lemma PatchDstLen(dstLen: Byte, srcLen: Byte, table: Byte, rest: seq<Byte>)
    ensures (Zeros(NLMSG_HDRLEN) + FibHeader(0, srcLen, table) + rest)[NLMSG_HDRLEN + 1 := dstLen]
            == Zeros(NLMSG_HDRLEN) + FibHeader(dstLen, srcLen, table) + rest
  {
    var a := (Zeros(NLMSG_HDRLEN) + FibHeader(0, srcLen, table) + rest)[NLMSG_HDRLEN + 1 := dstLen];
    var b := Zeros(NLMSG_HDRLEN) + FibHeader(dstLen, srcLen, table) + rest;
    assert |a| == |b|;
    forall i | 0 <= i < |a| ensures a[i] == b[i] {
      if i < NLMSG_HDRLEN {
      } else if i < NLMSG_HDRLEN + FAMILY_HDRLEN {
        assert b[i] == FibHeader(dstLen, srcLen, table)[i - NLMSG_HDRLEN];
      } else {
        assert b[i] == rest[i - NLMSG_HDRLEN - FAMILY_HDRLEN];
      }
    }
  }

  /**
   * The request `policy_add` or `policy_delete` assembles, in the source's
   * steps: room for the header, the rule header, the source, the
   * destination with its length patched in, the table, the priority, and
   * the header written over the room left for it.
   */
  method BuildPolicy(msgType: U16, flags: U16, seqNo: U32, t: U32, src: Network, to: string, priority: U32)
    returns (r: Result<seq<Byte>, RouteError>)
    requires |src.addr| == 4
    ensures to != [] && ParseNetwork(to).Err? ==> r == Err(ParseNetwork(to).error)
    ensures to == [] ==> r == Ok(PolicyMessage(msgType, flags, seqNo, PolicyRequest(t, src, None), priority))
    ensures to != [] && ParseNetwork(to).Ok? ==>
      r == Ok(PolicyMessage(msgType, flags, seqNo, PolicyRequest(t, src, Some(ParseNetwork(to).value)), priority))
  {
    var buf := new ByteBuffer();
    buf.Extend(Zeros(NLMSG_HDRLEN));
    buf.Extend(FibHeader(0, src.prefix, TableByte(t)));
    ghost var prefix := Zeros(NLMSG_HDRLEN) + FibHeader(0, src.prefix, TableByte(t));
    ghost var attrs: seq<Attr> := [];
    assert buf.bytes == prefix + AttrsBytes(attrs);
    PushAttr(buf, FRA_SRC, src.addr);
    PushedAttr(prefix, attrs, Attr(FRA_SRC, src.addr));
    attrs := attrs + [Attr(FRA_SRC, src.addr)];
    assert buf.bytes == prefix + AttrsBytes(attrs);
    var dst: Option<Network> := None;
    if to != [] {
      var d := ParseNetwork(to);
      if d.Err? {
        return Err(d.error);
      }
      attrs := PushRuleDst(buf, d.value, src.prefix, TableByte(t), attrs);
      prefix := Zeros(NLMSG_HDRLEN) + FibHeader(d.value.prefix, src.prefix, TableByte(t));
      dst := Some(d.value);
    }
    var q := PolicyRequest(t, src, dst);
    assert prefix == Zeros(NLMSG_HDRLEN) + PolicyFamily(q);
    FinishRule(buf, msgType, flags, seqNo, q, priority, attrs);
    return Ok(buf.bytes);
  }

  /** The table and the priority pushed after the networks of a rule, then the header written over its room. */
  method FinishRule(buf: ByteBuffer, msgType: U16, flags: U16, seqNo: U32, q: PolicyRequest, priority: U32, ghost attrs: seq<Attr>)
    requires attrs == [Attr(FRA_SRC, q.src.addr)] + (if q.dst.Some? then [Attr(FRA_DST, q.dst.value.addr)] else [])
    requires buf.bytes == Zeros(NLMSG_HDRLEN) + PolicyFamily(q) + AttrsBytes(attrs)
    modifies buf
    ensures buf.bytes == PolicyMessage(msgType, flags, seqNo, q, priority)
  {
    ghost var pushed := PushRuleTail(buf, q.tableId, priority, Zeros(NLMSG_HDRLEN) + PolicyFamily(q), attrs);
    assert pushed == PolicyAttrs(q, priority);
    ghost var room := buf.bytes;
    var totalLen := |buf.bytes| % U32_LIMIT;
    buf.CopyFromSlice(NlHeader(totalLen, msgType, flags, seqNo));
    HeaderOver(msgType, flags, seqNo, PolicyFamily(q), pushed, room, buf.bytes);
  }

  /** The destination pushed as FRA_DST, and its prefix patched into the rule header's destination length. */
  method PushRuleDst(buf: ByteBuffer, d: Network, srcLen: Byte, table: Byte, ghost attrs: seq<Attr>)
    returns (ghost pushed: seq<Attr>)
    requires buf.bytes == Zeros(NLMSG_HDRLEN) + FibHeader(0, srcLen, table) + AttrsBytes(attrs)
    modifies buf
    ensures pushed == attrs + [Attr(FRA_DST, d.addr)]
    ensures buf.bytes == Zeros(NLMSG_HDRLEN) + FibHeader(d.prefix, srcLen, table) + AttrsBytes(pushed)
  {
    PushAttr(buf, FRA_DST, d.addr);
    PushedAttr(Zeros(NLMSG_HDRLEN) + FibHeader(0, srcLen, table), attrs, Attr(FRA_DST, d.addr));
    pushed := attrs + [Attr(FRA_DST, d.addr)];
    PatchDstLen(d.prefix, srcLen, table, AttrsBytes(pushed));
    buf.Set(NLMSG_HDRLEN + 1, d.prefix);
  }

  /** The table when it needs 32 bits, then the priority, pushed after the networks of a rule. */
  method PushRuleTail(buf: ByteBuffer, t: U32, priority: U32, ghost prefix: seq<Byte>, ghost attrs: seq<Attr>)
    returns (ghost pushed: seq<Attr>)
    requires buf.bytes == prefix + AttrsBytes(attrs)
    modifies buf
    ensures pushed == attrs + (if t > 255 then [Attr(FRA_TABLE, LE32(t))] else []) + [Attr(FRA_PRIORITY, LE32(priority))]
    ensures buf.bytes == prefix + AttrsBytes(pushed)
  {
    pushed := attrs;
    if t > 255 {
      PushAttrU32(buf, FRA_TABLE, t);
      PushedAttr(prefix, pushed, Attr(FRA_TABLE, LE32(t)));
      pushed := pushed + [Attr(FRA_TABLE, LE32(t))];
    }
    PushAttrU32(buf, FRA_PRIORITY, priority);
    PushedAttr(prefix, pushed, Attr(FRA_PRIORITY, LE32(priority)));
    pushed := pushed + [Attr(FRA_PRIORITY, LE32(priority))];
  }

  /** Pushing one more attribute onto a request extends its run of attributes by that one. */
  lemma PushedAttr(prefix: seq<Byte>, attrs: seq<Attr>, a: Attr)
    ensures prefix + AttrsBytes(attrs) + AttrBytes(a) == prefix + AttrsBytes(attrs + [a])
  {
    AttrsBytesSnoc(attrs, a);
  }

  /** Writing the header over the room left for it gives the request. */
  lemma HeaderOver(msgType: U16, flags: U16, seqNo: U32, family: seq<Byte>, attrs: seq<Attr>, room: seq<Byte>, b: seq<Byte>)
    requires room == Zeros(NLMSG_HDRLEN) + family + AttrsBytes(attrs)
    requires b == NlHeader(|room| % U32_LIMIT, msgType, flags, seqNo) + room[NLMSG_HDRLEN..]
    ensures b == Message(msgType, flags, seqNo, family, attrs)
  {
    assert room[NLMSG_HDRLEN..] == family + AttrsBytes(attrs);
  }

  /** The requests every operation sends carry sequence number 1: each opens its own socket. */
  const FIRST_SEQ: U32 := 1

  /**
   * `policy_add` and `policy_delete` with their message type and flags:
   * the socket opens, the request is parsed and assembled and sent, and
   * the kernel's answer decides the result. `request` is what was sent.
   */
  method Policy(msgType: U16, flags: U16, from: string, to: string, tableName: string, priority: U32, host: Host)
    returns (r: Result<(), RouteError>, request: Option<seq<Byte>>)
    ensures host.socket.Some? ==> r == Err(SocketOpen(host.socket.value)) && request == None
    ensures host.socket.None? && PolicyRequestOf(from, to, tableName, host.rtTables).Err? ==>
      r == Err(PolicyRequestOf(from, to, tableName, host.rtTables).error) && request == None
    ensures host.socket.None? && PolicyRequestOf(from, to, tableName, host.rtTables).Ok? ==>
      var q := PolicyRequestOf(from, to, tableName, host.rtTables).value;
      request == Some(PolicyMessage(msgType, flags, FIRST_SEQ, q, priority)) && r == AckOf(host.kernel(request.value))
  {
    var conn := Open(host);
    if conn.Err? {
      return Err(conn.error), None;
    }
    var sock := conn.value;
    var seqNo := sock.NextSeq();
    var tableId := ResolveTable(tableName, host.rtTables);
    if tableId.Err? {
      return Err(tableId.error), None;
    }
    var src := ParseNetwork(from);
    if src.Err? {
      return Err(src.error), None;
    }
    var buf := BuildPolicy(msgType, flags, seqNo, tableId.value, src.value, to, priority);
    if buf.Err? {
      return Err(buf.error), None;
    }
    r := sock.SendAndAck(buf.value, host);
    request := Some(buf.value);
  }

  /** `policy_add`: ip rule add from `from` [to `to`] table `tableName` priority `priority`. */
  method PolicyAdd(from: string, to: string, tableName: string, priority: U32, host: Host)
    returns (r: Result<(), RouteError>, request: Option<seq<Byte>>)
    ensures host.socket.Some? ==> r == Err(SocketOpen(host.socket.value)) && request == None
    ensures host.socket.None? && PolicyRequestOf(from, to, tableName, host.rtTables).Err? ==>
      r == Err(PolicyRequestOf(from, to, tableName, host.rtTables).error) && request == None
    ensures host.socket.None? && PolicyRequestOf(from, to, tableName, host.rtTables).Ok? ==>
      var q := PolicyRequestOf(from, to, tableName, host.rtTables).value;
      request == Some(PolicyMessage(RTM_NEWRULE, ADD_FLAGS, FIRST_SEQ, q, priority)) && r == AckOf(host.kernel(request.value))
  {
    r, request := Policy(RTM_NEWRULE, ADD_FLAGS, from, to, tableName, priority, host);
  }

  /** `policy_delete`: the same request as `policy_add` with RTM_DELRULE and REQUEST | ACK. */
  method PolicyDelete(from: string, to: string, tableName: string, priority: U32, host: Host)
    returns (r: Result<(), RouteError>, request: Option<seq<Byte>>)
    ensures host.socket.Some? ==> r == Err(SocketOpen(host.socket.value)) && request == None
    ensures host.socket.None? && PolicyRequestOf(from, to, tableName, host.rtTables).Err? ==>
      r == Err(PolicyRequestOf(from, to, tableName, host.rtTables).error) && request == None
    ensures host.socket.None? && PolicyRequestOf(from, to, tableName, host.rtTables).Ok? ==>
      var q := PolicyRequestOf(from, to, tableName, host.rtTables).value;
      request == Some(PolicyMessage(RTM_DELRULE, DELETE_FLAGS, FIRST_SEQ, q, priority)) && r == AckOf(host.kernel(request.value))
  {
    r, request := Policy(RTM_DELRULE, DELETE_FLAGS, from, to, tableName, priority, host);
  }

  /**
   * The request `route_add` or `route_delete` assembles: room for the
   * header, the route header, the destination unless the prefix is 0, the
   * interface, the table, and the header.
   */
  method BuildRoute(msgType: U16, flags: U16, seqNo: U32, q: RouteRequest) returns (m: seq<Byte>)
    ensures m == RouteMessage(msgType, flags, seqNo, q)
  {
    var buf := new ByteBuffer();
    buf.Extend(Zeros(NLMSG_HDRLEN));
    var family := RtHeader(q.dst.prefix, TableByte(q.tableId));
    buf.Extend(family);
    ghost var prefix := Zeros(NLMSG_HDRLEN) + family;
    ghost var attrs: seq<Attr> := [];
    assert buf.bytes == prefix + AttrsBytes(attrs);
    if q.dst.prefix > 0 {
      PushAttr(buf, RTA_DST, q.dst.addr);
      PushedAttr(prefix, attrs, Attr(RTA_DST, q.dst.addr));
      attrs := attrs + [Attr(RTA_DST, q.dst.addr)];
    }
    PushAttrU32(buf, RTA_OIF, q.ifindex);
    PushedAttr(prefix, attrs, Attr(RTA_OIF, LE32(q.ifindex)));
    attrs := attrs + [Attr(RTA_OIF, LE32(q.ifindex))];
    if q.tableId > 255 {
      PushAttrU32(buf, RTA_TABLE, q.tableId);
      PushedAttr(prefix, attrs, Attr(RTA_TABLE, LE32(q.tableId)));
      attrs := attrs + [Attr(RTA_TABLE, LE32(q.tableId))];
    }
    assert attrs == RouteAttrs(q);
    ghost var room := buf.bytes;
    assert room == Zeros(NLMSG_HDRLEN) + family + AttrsBytes(attrs);
    var totalLen := |buf.bytes| % U32_LIMIT;
    buf.CopyFromSlice(NlHeader(totalLen, msgType, flags, seqNo));
    HeaderOver(msgType, flags, seqNo, family, attrs, room, buf.bytes);
    m := buf.bytes;
  }

  /** `route_add` and `route_delete` with their message type and flags. */
  method RouteOp(msgType: U16, flags: U16, destination: string, device: string, tableName: string, host: Host)
    returns (r: Result<(), RouteError>, request: Option<seq<Byte>>)
    ensures host.socket.Some? ==> r == Err(SocketOpen(host.socket.value)) && request == None
    ensures host.socket.None? && RouteRequestOf(destination, device, tableName, host).Err? ==>
      r == Err(RouteRequestOf(destination, device, tableName, host).error) && request == None
    ensures host.socket.None? && RouteRequestOf(destination, device, tableName, host).Ok? ==>
      var q := RouteRequestOf(destination, device, tableName, host).value;
      request == Some(RouteMessage(msgType, flags, FIRST_SEQ, q)) && r == AckOf(host.kernel(request.value))
  {
    var conn := Open(host);
    if conn.Err? {
      return Err(conn.error), None;
    }
    var sock := conn.value;
    var seqNo := sock.NextSeq();
    var tableId := ResolveTable(tableName, host.rtTables);
    if tableId.Err? {
      return Err(tableId.error), None;
    }
    var ifindex := InterfaceIndex(device, host.interfaces);
    if ifindex.Err? {
      return Err(ifindex.error), None;
    }
    var dst := Destination(destination);
    if dst.Err? {
      return Err(dst.error), None;
    }
    var m := BuildRoute(msgType, flags, seqNo, RouteRequest(tableId.value, ifindex.value, dst.value));
    r := sock.SendAndAck(m, host);
    request := Some(m);
  }

  /** `route_add`: ip route add `destination` dev `device` table `tableName`. */
  method RouteAdd(destination: string, device: string, tableName: string, host: Host)
    returns (r: Result<(), RouteError>, request: Option<seq<Byte>>)
    ensures host.socket.Some? ==> r == Err(SocketOpen(host.socket.value)) && request == None
    ensures host.socket.None? && RouteRequestOf(destination, device, tableName, host).Err? ==>
      r == Err(RouteRequestOf(destination, device, tableName, host).error) && request == None
    ensures host.socket.None? && RouteRequestOf(destination, device, tableName, host).Ok? ==>
      var q := RouteRequestOf(destination, device, tableName, host).value;
      request == Some(RouteMessage(RTM_NEWROUTE, ADD_FLAGS, FIRST_SEQ, q)) && r == AckOf(host.kernel(request.value))
  {
    r, request := RouteOp(RTM_NEWROUTE, ADD_FLAGS, destination, device, tableName, host);
  }

  /** `route_delete`: the same request as `route_add` with RTM_DELROUTE and REQUEST | ACK. */
  method RouteDelete(destination: string, device: string, tableName: string, host: Host)
    returns (r: Result<(), RouteError>, request: Option<seq<Byte>>)
    ensures host.socket.Some? ==> r == Err(SocketOpen(host.socket.value)) && request == None
    ensures host.socket.None? && RouteRequestOf(destination, device, tableName, host).Err? ==>
      r == Err(RouteRequestOf(destination, device, tableName, host).error) && request == None
    ensures host.socket.None? && RouteRequestOf(destination, device, tableName, host).Ok? ==>
      var q := RouteRequestOf(destination, device, tableName, host).value;
      request == Some(RouteMessage(RTM_DELROUTE, DELETE_FLAGS, FIRST_SEQ, q)) && r == AckOf(host.kernel(request.value))
  {
    r, request := RouteOp(RTM_DELROUTE, DELETE_FLAGS, destination, device, tableName, host);
  }
}
