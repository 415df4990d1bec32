/**
 * The statistics syncer of bridge-db (src/db/stats.go): the engine's UAPI
 * dump is parsed into per-peer runtime figures, and each is written to the
 * peers table under the peer's public key.
 */
module WgStats {
  import opened Wrappers
  import opened Strings
  import opened Tables
  import opened WgDb

  const MAX_U64: int := 0xFFFF_FFFF_FFFF_FFFF
  const MAX_I64: int := 0x7FFF_FFFF_FFFF_FFFF
  const MIN_I64: int := -0x8000_0000_0000_0000

  // ---------------------------------------------------------------------
  // strconv.ParseInt(s, 10, 64)
  // ---------------------------------------------------------------------

  /** How far `strconv.ParseUint` got over a prefix of its input. */
  datatype UintScan = Digits(n: nat) | SyntaxError | RangeError

  function DigitOf(c: char): nat
    requires IsDigit(c)
  {
    c as int - '0' as int
  }

  /**
   * One more character: a non-digit is a syntax error, a value past 2^64 - 1
   * a range error, and the first error stands.
   */
  function Push(r: UintScan, c: char): (r': UintScan)
    ensures r.Digits? && IsDigit(c) && r.n * 10 + DigitOf(c) <= MAX_U64 ==> r' == Digits(r.n * 10 + DigitOf(c))
    ensures r.Digits? && IsDigit(c) && r.n * 10 + DigitOf(c) > MAX_U64 ==> r' == RangeError
    ensures r.Digits? && !IsDigit(c) ==> r' == SyntaxError
    ensures !r.Digits? ==> r' == r
  {
    match r
    case Digits(m) =>
      if !IsDigit(c) then SyntaxError
      else if m * 10 + DigitOf(c) > MAX_U64 then RangeError
      else Digits(m * 10 + DigitOf(c))
    case _ => r
  }

  /** The decimal scan of `strconv.ParseUint`, character by character from the left. */
  function ScanUint(s: string): (r: UintScan)
    ensures r.Digits? ==> r.n <= MAX_U64
    decreases |s|
  {
    if s == [] then Digits(0) else Push(ScanUint(s[..|s| - 1]), s[|s| - 1])
  }

  /** `strconv.ParseUint(s, 10, 64)`: the empty text is a syntax error. */
  function ParseUint64(s: string): UintScan
  {
    if s == [] then SyntaxError else ScanUint(s)
  }

  /** The text after one leading sign, if there is one. */
  function Body(s: string): (b: string)
    ensures |b| <= |s|
  {
    if s != [] && (s[0] == '+' || s[0] == '-') then s[1..] else s
  }

  predicate Negative(s: string)
  {
    s != [] && s[0] == '-'
  }

  /** The value an optional sign and a run of digits denote. */
  function SignedValue(s: string): int
    requires AllDigits(Body(s))
  {
    var v: int := DigitsValue(Body(s));
    if Negative(s) then -v else v
  }

  /**
   * `strconv.ParseInt(s, 10, 64)`: the value it returns and whether its error
   * is nil. A syntax error returns 0; a value outside 64 bits returns the
   * nearest bound with a range error.
   */
  function ParseInt64(s: string): (r: (int, bool))
    ensures MIN_I64 <= r.0 <= MAX_I64
    ensures !r.1 ==> r.0 == 0 || r.0 == MAX_I64 || r.0 == MIN_I64
  {
    if s == [] then (0, false)
    else
      var neg := s[0] == '-';
      match ParseUint64(Body(s))
      case SyntaxError => (0, false)
      case RangeError => (if neg then MIN_I64 else MAX_I64, false)
      case Digits(n) =>
        if !neg && n > MAX_I64 then (MAX_I64, false)
        else if neg && n > -MIN_I64 then (MIN_I64, false)
        else
          var v: int := n;
          (if neg then -v else v, true)
  }

  /** On a run of digits the scan finds its value, or a range error once the value passes 2^64 - 1. */
  lemma {:induction false} ScanAllDigits(s: string)
    requires AllDigits(s)
    ensures ScanUint(s) == if DigitsValue(s) <= MAX_U64 then Digits(DigitsValue(s)) else RangeError
    decreases |s|
  {
    if s != [] {
      var p := s[..|s| - 1];
      assert AllDigits(p) by {
        forall i | 0 <= i < |p| ensures IsDigit(p[i]) {
          assert p[i] == s[i];
        }
      }
      ScanAllDigits(p);
      assert DigitsValue(s) == DigitsValue(p) * 10 + DigitOf(s[|s| - 1]);
    }
  }

  /** A scan that ends on a value saw only digits, and the value is theirs. */
  lemma {:induction false} ScanOnlyDigits(s: string)
    ensures ScanUint(s).Digits? ==> AllDigits(s) && ScanUint(s).n == DigitsValue(s)
    decreases |s|
  {
    if s != [] && ScanUint(s).Digits? {
      var p := s[..|s| - 1];
      assert ScanUint(p).Digits? && IsDigit(s[|s| - 1]);
      ScanOnlyDigits(p);
      assert AllDigits(s) by {
        forall i | 0 <= i < |s| ensures IsDigit(s[i]) {
          if i < |p| {
            assert s[i] == p[i];
          }
        }
      }
    }
  }

  /** ParseInt succeeds only on an optional sign followed by at least one digit. */
  lemma ParseInt64Ok(s: string)
    ensures ParseInt64(s).1 ==> s != [] && Body(s) != [] && AllDigits(Body(s))
  {
    if s != [] && Body(s) != [] {
      ScanOnlyDigits(Body(s));
    }
  }

  /**
   * On an optional sign followed by digits, ParseInt gives the value when it
   * fits in 64 bits, and otherwise the nearest bound with an error.
   */
  lemma ParseInt64Digits(s: string)
    requires s != [] && Body(s) != [] && AllDigits(Body(s))
    ensures MIN_I64 <= SignedValue(s) <= MAX_I64 ==> ParseInt64(s) == (SignedValue(s), true)
    ensures SignedValue(s) > MAX_I64 ==> ParseInt64(s) == (MAX_I64, false)
    ensures SignedValue(s) < MIN_I64 ==> ParseInt64(s) == (MIN_I64, false)
  {
    ScanAllDigits(Body(s));
  }

  /** A sign alone, or a non-digit straight after the sign, is a syntax error: the value is 0. */
  lemma ParseInt64Syntax(s: string)
    requires Body(s) == [] || !IsDigit(Body(s)[0])
    ensures ParseInt64(s) == (0, false)
  {
    var b := Body(s);
    if b != [] {
      var p := b[..1];
      assert ScanUint(p) == SyntaxError by {
        assert p[..0] == [];
      }
      ScanErrorStays(b, 1);
    }
  }

  /** Once a prefix is in error the whole scan is, with the same error. */
  lemma {:induction false} ScanErrorStays(s: string, k: nat)
    requires k <= |s| && !ScanUint(s[..k]).Digits?
    ensures ScanUint(s) == ScanUint(s[..k])
    decreases |s| - k
  {
    if k < |s| {
      assert s[..k + 1][..k] == s[..k];
      ScanErrorStays(s, k + 1);
    } else {
      assert s[..k] == s;
    }
  }

  /** Every 64-bit integer rendered in decimal parses back to itself. */
  lemma ParseInt64Render(i: int)
    requires MIN_I64 <= i <= MAX_I64
    ensures ParseInt64(IntToString(i)) == (i, true)
  {
    var n: nat := if i < 0 then -i else i;
    var ds := NatToString(n);
    NatToStringValue(n);
    var s := IntToString(i);
    if i < 0 {
      assert s == "-" + ds;
      assert Body(s) == ds;
    } else {
      assert s == ds && IsDigit(ds[0]);
      assert Body(s) == ds;
    }
    ParseInt64Digits(s);
  }

  // ---------------------------------------------------------------------
  // parseIpcGetPeers
  // ---------------------------------------------------------------------

  /** `peerStats`: one peer's runtime figures; `lastHandshake` is None when never set. */
  datatype PeerStats = PeerStats(
    publicKey: string,
    endpoint: string,
    lastHandshake: Option<int>,
    rxBytes: int,
    txBytes: int)

  /** The record a `public_key` line opens. */
  function NewPeer(pk: string): (p: PeerStats)
    ensures p.publicKey == pk && p.endpoint == "" && p.lastHandshake.None? && p.rxBytes == 0 && p.txBytes == 0
  {
    PeerStats(pk, "", None, 0, 0)
  }

  /** `strings.SplitN(line, "=", 2)`: the text before the first '=' and the rest; None without '='. */
  function KeyValue(line: string): (kv: Option<(string, string)>)
    ensures kv.None? <==> '=' !in line
    ensures kv.Some? ==> '=' !in kv.value.0 && line == kv.value.0 + "=" + kv.value.1
  {
    var k := IndexOf(line, '=');
    if k == |line| then None
    else
      assert line == line[..k] + "=" + line[k + 1..];
      Some((line[..k], line[k + 1..]))
  }

  /** The key and value of a dump line after trimming; None when it is blank or has no '='. */
  function FieldOf(raw: string): (f: Option<(string, string)>)
    ensures f.Some? ==> '=' !in f.value.0
  {
    var line := Trim(raw);
    if line == "" then None else KeyValue(line)
  }

  /** `f` applied to each element, in order. */
  function MapSeq<A, B>(f: A -> B, s: seq<A>): (r: seq<B>)
    ensures |r| == |s| && forall i :: 0 <= i < |s| ==> r[i] == f(s[i])
  {
    seq(|s|, i requires 0 <= i < |s| => f(s[i]))
  }

  lemma MapAppend<A, B>(f: A -> B, a: seq<A>, b: seq<A>)
    ensures MapSeq(f, a + b) == MapSeq(f, a) + MapSeq(f, b)
  {
  }

  lemma MapFive<A, B>(f: A -> B, s: seq<A>)
    requires |s| == 5
    ensures MapSeq(f, s) == [f(s[0]), f(s[1]), f(s[2]), f(s[3]), f(s[4])]
  {
  }

  /** The fields of the lines, one per line. */
  function FieldsOf(lines: seq<string>): seq<Option<(string, string)>>
  {
    MapSeq(FieldOf, lines)
  }

  predicate IsKeyField(f: Option<(string, string)>)
  {
    f.Some? && f.value.0 == "public_key"
  }

  /** What a line with another key does to the open record; unknown keys change nothing. */
  function Apply(cur: PeerStats, key: string, val: string): (r: PeerStats)
    ensures r.publicKey == cur.publicKey
  {
    if key == "endpoint" then cur.(endpoint := val)
    else if key == "last_handshake_time_sec" then
      var (v, ok) := ParseInt64(val);
      if ok && v > 0 then cur.(lastHandshake := Some(v)) else cur
    else if key == "rx_bytes" then cur.(rxBytes := ParseInt64(val).0)
    else if key == "tx_bytes" then cur.(txBytes := ParseInt64(val).0)
    else cur
  }

  /** The parser's state: the records closed so far and the open one. */
  datatype Reading = Reading(done: seq<PeerStats>, current: Option<PeerStats>)

  const Start := Reading([], None)

  /** The records a reading yields: the closed ones, then the open one. */
  function Finish(st: Reading): (ps: seq<PeerStats>)
    ensures |ps| == |st.done| + (if st.current.Some? then 1 else 0)
  {
    st.done + (if st.current.Some? then [st.current.value] else [])
  }

  /**
   * One line's field: a `public_key` closes the open record and opens a new
   * one; any other key updates the open record, and is ignored before the
   * first `public_key`.
   */
  function Step(st: Reading, f: Option<(string, string)>): Reading
  {
    if f.None? then st
    else if f.value.0 == "public_key" then Reading(Finish(st), Some(NewPeer(f.value.1)))
    else if st.current.None? then st
    else Reading(st.done, Some(Apply(st.current.value, f.value.0, f.value.1)))
  }

  /** The fields read in order from `st`. */
  function ReadFrom(st: Reading, fs: seq<Option<(string, string)>>): Reading
    decreases |fs|
  {
    if fs == [] then st else ReadFrom(Step(st, fs[0]), fs[1..])
  }

  /** `parseIpcGetPeers`: the records of the dump's lines. */
  function ParsedPeers(output: string): seq<PeerStats>
  {
    Finish(ReadFrom(Start, FieldsOf(Split(output, '\n'))))
  }

  /** `parseIpcGetPeers`, line by line. */
  method ParseIpcGetPeers(output: string) returns (result: seq<PeerStats>)
    ensures result == ParsedPeers(output)
  {
    var lines := Split(output, '\n');
    ghost var fs := FieldsOf(lines);
    var current: Option<PeerStats> := None;
    result := [];
    var i := 0;
    while i < |lines|
      invariant 0 <= i <= |lines|
      invariant ReadFrom(Reading(result, current), fs[i..]) == ReadFrom(Start, fs)
    {
      ghost var before := Reading(result, current);
      var line := Trim(lines[i]);
      if line != "" {
        var parts := KeyValue(line);
        if parts.Some? {
          var (key, val) := parts.value;
          if key == "public_key" {
            if current.Some? {
              result := result + [current.value];
            }
            current := Some(NewPeer(val));
          } else if key == "endpoint" {
            if current.Some? {
              current := Some(current.value.(endpoint := val));
            }
          } else if key == "last_handshake_time_sec" {
            if current.Some? {
              var (v, ok) := ParseInt64(val);
              if ok && v > 0 {
                current := Some(current.value.(lastHandshake := Some(v)));
              }
            }
          } else if key == "rx_bytes" {
            if current.Some? {
              current := Some(current.value.(rxBytes := ParseInt64(val).0));
            }
          } else if key == "tx_bytes" {
            if current.Some? {
              current := Some(current.value.(txBytes := ParseInt64(val).0));
            }
          }
        }
      }
      assert Reading(result, current) == Step(before, fs[i]);
      assert fs[i..][1..] == fs[i + 1..];
      i := i + 1;
    }
    assert fs[i..] == [];
    result := Finish(Reading(result, current));
  }

  /** Reading two runs of fields is reading the first, then the second. */
  lemma {:induction false} ReadAppend(st: Reading, a: seq<Option<(string, string)>>, b: seq<Option<(string, string)>>)
    ensures ReadFrom(st, a + b) == ReadFrom(ReadFrom(st, a), b)
    decreases |a|
  {
    if a != [] {
      assert (a + b)[0] == a[0] && (a + b)[1..] == a[1..] + b;
      ReadAppend(Step(st, a[0]), a[1..], b);
    } else {
      assert a + b == b;
    }
  }

  /** The public keys of the records, in order. */
  function KeysOf(ps: seq<PeerStats>): (ks: seq<string>)
    ensures |ks| == |ps| && forall i :: 0 <= i < |ps| ==> ks[i] == ps[i].publicKey
  {
    seq(|ps|, i requires 0 <= i < |ps| => ps[i].publicKey)
  }

  /** The values of the `public_key` fields, in order. */
  function PeerKeys(fs: seq<Option<(string, string)>>): seq<string>
    decreases |fs|
  {
    if fs == [] then []
    else (if IsKeyField(fs[0]) then [fs[0].value.1] else []) + PeerKeys(fs[1..])
  }

  /** A field adds its value to the records' keys when its key is `public_key`, and nothing otherwise. */
  lemma StepKeys(st: Reading, f: Option<(string, string)>)
    ensures KeysOf(Finish(Step(st, f))) == KeysOf(Finish(st)) + (if IsKeyField(f) then [f.value.1] else [])
  {
    if f.Some? && f.value.0 != "public_key" && st.current.Some? {
      assert Finish(Step(st, f)) == st.done + [Apply(st.current.value, f.value.0, f.value.1)];
    } else if f.Some? && f.value.0 == "public_key" {
      assert Finish(Step(st, f)) == Finish(st) + [NewPeer(f.value.1)];
    }
  }

  lemma {:induction false} ReadKeys(st: Reading, fs: seq<Option<(string, string)>>)
    ensures KeysOf(Finish(ReadFrom(st, fs))) == KeysOf(Finish(st)) + PeerKeys(fs)
    decreases |fs|
  {
    if fs != [] {
      var k := if IsKeyField(fs[0]) then [fs[0].value.1] else [];
      assert PeerKeys(fs) == k + PeerKeys(fs[1..]);
      StepKeys(st, fs[0]);
      ReadKeys(Step(st, fs[0]), fs[1..]);
      assert KeysOf(Finish(st)) + k + PeerKeys(fs[1..]) == KeysOf(Finish(st)) + (k + PeerKeys(fs[1..]));
    } else {
      assert KeysOf(Finish(st)) + [] == KeysOf(Finish(st));
    }
  }

  /** One record per `public_key` line, in the order of the lines, carrying that line's value. */
  lemma OneRecordPerKey(output: string)
    ensures KeysOf(ParsedPeers(output)) == PeerKeys(FieldsOf(Split(output, '\n')))
  {
    ReadKeys(Start, FieldsOf(Split(output, '\n')));
  }

  /** Lines before any `public_key` line (the interface section) leave no trace. */
  lemma Preamble(pre: seq<string>, rest: seq<string>)
    requires forall i :: 0 <= i < |pre| ==> !IsKeyField(FieldOf(pre[i]))
    ensures ReadFrom(Start, FieldsOf(pre + rest)) == ReadFrom(Start, FieldsOf(rest))
  {
    MapAppend(FieldOf, pre, rest);
    ReadAppend(Start, FieldsOf(pre), FieldsOf(rest));
    StartStays(FieldsOf(pre));
  }

  lemma {:induction false} StartStays(fs: seq<Option<(string, string)>>)
    requires forall i :: 0 <= i < |fs| ==> !IsKeyField(fs[i])
    ensures ReadFrom(Start, fs) == Start
    decreases |fs|
  {
    if fs != [] {
      assert !IsKeyField(fs[0]);
      StartStays(fs[1..]);
    }
  }

  /**
   * What a record can hold: a handshake time only when positive, and figures
   * within 64 bits.
   */
  predicate Sane(p: PeerStats)
  {
    && (p.lastHandshake.Some? ==> 0 < p.lastHandshake.value <= MAX_I64)
    && MIN_I64 <= p.rxBytes <= MAX_I64
    && MIN_I64 <= p.txBytes <= MAX_I64
  }

  predicate SaneReading(st: Reading)
  {
    && (forall i :: 0 <= i < |st.done| ==> Sane(st.done[i]))
    && (st.current.Some? ==> Sane(st.current.value))
  }

  lemma {:induction false} ReadSane(st: Reading, fs: seq<Option<(string, string)>>)
    requires SaneReading(st)
    ensures SaneReading(ReadFrom(st, fs))
    decreases |fs|
  {
    if fs != [] {
      var st' := Step(st, fs[0]);
      assert SaneReading(st');
      ReadSane(st', fs[1..]);
    }
  }

  /** Every parsed record is sane, whatever the dump holds. */
  lemma ParsedSane(output: string)
    ensures forall i :: 0 <= i < |ParsedPeers(output)| ==> Sane(ParsedPeers(output)[i])
  {
    ReadSane(Start, FieldsOf(Split(output, '\n')));
  }

  // ---------------------------------------------------------------------
  // The dump the parser reads, and the round trip
  // ---------------------------------------------------------------------

  predicate NoSpace(s: string)
  {
    forall i :: 0 <= i < |s| ==> !IsSpace(s[i])
  }

  /** A record the engine can report: sane, with a key and an endpoint free of white space. */
  predicate Dumpable(p: PeerStats)
  {
    Sane(p) && NoSpace(p.publicKey) && NoSpace(p.endpoint)
  }

  /** The handshake time as the engine reports it: 0 for none. */
  function HandshakeSec(h: Option<int>): int
  {
    if h.Some? then h.value else 0
  }

  /** One dump line: the key, '=', the value. */
  function RenderPair(kv: (string, string)): string
  {
    kv.0 + "=" + kv.1
  }

  function AsField(kv: (string, string)): Option<(string, string)>
  {
    Some(kv)
  }

  /** A pair that survives the line round trip: a plain key, and a value free of white space. */
  predicate GoodPair(kv: (string, string))
  {
    GoodKey(kv.0) && NoSpace(kv.1)
  }

  /** A key the parser splits off intact: not empty, no '=', no white space. */
  predicate GoodKey(k: string)
  {
    k != [] && '=' !in k && NoSpace(k)
  }

  /** The five keys of a peer's block are good keys. */
  lemma PeerKeysGood()
    ensures GoodKey("public_key") && GoodKey("endpoint") && GoodKey("last_handshake_time_sec")
    ensures GoodKey("rx_bytes") && GoodKey("tx_bytes")
  {
    assert GoodKey("public_key");
    assert GoodKey("endpoint");
    assert GoodKey("last_handshake_time_sec");
    assert GoodKey("rx_bytes");
    assert GoodKey("tx_bytes");
  }

  /** The key/value pairs of one peer, in the layout the parser reads. */
  function PeerPairs(p: PeerStats): seq<(string, string)>
  {
    [ ("public_key", p.publicKey),
      ("endpoint", p.endpoint),
      ("last_handshake_time_sec", IntToString(HandshakeSec(p.lastHandshake))),
      ("rx_bytes", IntToString(p.rxBytes)),
      ("tx_bytes", IntToString(p.txBytes)) ]
  }

  function DumpPairs(ps: seq<PeerStats>): seq<(string, string)>
    decreases |ps|
  {
    if ps == [] then [] else PeerPairs(ps[0]) + DumpPairs(ps[1..])
  }

  /** The lines of a dump listing `ps`. */
  function DumpLines(ps: seq<PeerStats>): seq<string>
  {
    MapSeq(RenderPair, DumpPairs(ps))
  }

  function PeerFields(p: PeerStats): seq<Option<(string, string)>>
  {
    MapSeq(AsField, PeerPairs(p))
  }

  function DumpFields(ps: seq<PeerStats>): seq<Option<(string, string)>>
  {
    MapSeq(AsField, DumpPairs(ps))
  }

  /** A line `key=val` with a plain key and a value free of white space reads back as that pair. */
  lemma LineField(key: string, val: string)
    requires key != [] && '=' !in key && NoSpace(key) && NoSpace(val)
    ensures FieldOf(key + "=" + val) == Some((key, val))
  {
    var line := key + "=" + val;
    assert line[0] == key[0];
    assert !IsSpace(line[|line| - 1]) by {
      if val == [] {
        assert line[|line| - 1] == '=';
      } else {
        assert line[|line| - 1] == val[|val| - 1];
      }
    }
    TrimPlain(line);
    var k := IndexOf(line, '=');
    assert line[|key|] == '=';
    assert forall j :: 0 <= j < |key| ==> line[j] == key[j];
    assert k == |key|;
    assert line[..k] == key && line[k + 1..] == val;
  }

  /** Good pairs rendered as lines read back as the same pairs. */
  lemma LinesFields(pairs: seq<(string, string)>)
    requires forall i :: 0 <= i < |pairs| ==> GoodPair(pairs[i])
    ensures FieldsOf(MapSeq(RenderPair, pairs)) == MapSeq(AsField, pairs)
  {
    forall i | 0 <= i < |pairs|
      ensures FieldOf(RenderPair(pairs[i])) == AsField(pairs[i])
    {
      LineField(pairs[i].0, pairs[i].1);
    }
  }

  lemma RenderNoSpace(i: int)
    ensures NoSpace(IntToString(i))
  {
    var n: nat := if i < 0 then -i else i;
    var ds := NatToString(n);
    if i < 0 {
      var s := IntToString(i);
      assert s == "-" + ds;
      forall j | 0 <= j < |s| ensures !IsSpace(s[j]) {
        if j > 0 {
          assert s[j] == ds[j - 1];
        }
      }
    }
  }

  lemma PeerPairsGood(p: PeerStats)
    requires Dumpable(p)
    ensures forall i :: 0 <= i < |PeerPairs(p)| ==> GoodPair(PeerPairs(p)[i])
  {
    PeerKeysGood();
    RenderNoSpace(HandshakeSec(p.lastHandshake));
    RenderNoSpace(p.rxBytes);
    RenderNoSpace(p.txBytes);
  }

  lemma {:induction false} DumpPairsGood(ps: seq<PeerStats>)
    requires forall i :: 0 <= i < |ps| ==> Dumpable(ps[i])
    ensures forall i :: 0 <= i < |DumpPairs(ps)| ==> GoodPair(DumpPairs(ps)[i])
    decreases |ps|
  {
    if ps != [] {
      PeerPairsGood(ps[0]);
      DumpPairsGood(ps[1..]);
      var a, b := PeerPairs(ps[0]), DumpPairs(ps[1..]);
      assert DumpPairs(ps) == a + b;
      forall i | 0 <= i < |a + b| ensures GoodPair((a + b)[i]) {
        if i >= |a| {
          assert (a + b)[i] == b[i - |a|];
        }
      }
    }
  }

  /** A rendered good pair holds no line break. */
  lemma PairNoNewline(kv: (string, string))
    requires GoodPair(kv)
    ensures '\n' !in RenderPair(kv)
  {
    var line := RenderPair(kv);
    forall j | 0 <= j < |line| ensures line[j] != '\n' {
      if j < |kv.0| {
        assert line[j] == kv.0[j] && !IsSpace(kv.0[j]);
      } else if j > |kv.0| {
        assert line[j] == kv.1[j - |kv.0| - 1] && !IsSpace(kv.1[j - |kv.0| - 1]);
      }
    }
  }

  lemma StepOpen(st: Reading, pk: string)
    ensures Step(st, Some(("public_key", pk))) == Reading(Finish(st), Some(NewPeer(pk)))
  {
  }

  lemma StepEndpoint(done: seq<PeerStats>, c: PeerStats, ep: string)
    ensures Step(Reading(done, Some(c)), Some(("endpoint", ep))) == Reading(done, Some(c.(endpoint := ep)))
  {
  }

  lemma StepHandshake(done: seq<PeerStats>, c: PeerStats, h: Option<int>, v: string)
    requires c.lastHandshake.None? && ParseInt64(v) == (HandshakeSec(h), true)
    requires h.Some? ==> 0 < h.value
    ensures Step(Reading(done, Some(c)), Some(("last_handshake_time_sec", v))) == Reading(done, Some(c.(lastHandshake := h)))
  {
  }

  lemma StepRx(done: seq<PeerStats>, c: PeerStats, n: int, v: string)
    requires ParseInt64(v) == (n, true)
    ensures Step(Reading(done, Some(c)), Some(("rx_bytes", v))) == Reading(done, Some(c.(rxBytes := n)))
  {
  }

  lemma StepTx(done: seq<PeerStats>, c: PeerStats, n: int, v: string)
    requires ParseInt64(v) == (n, true)
    ensures Step(Reading(done, Some(c)), Some(("tx_bytes", v))) == Reading(done, Some(c.(txBytes := n)))
  {
  }

  /** Five fields read one after the other. */
  lemma ReadFive(st: Reading, F: seq<Option<(string, string)>>, s1: Reading, s2: Reading, s3: Reading, s4: Reading, s5: Reading)
    requires |F| == 5
    requires Step(st, F[0]) == s1 && Step(s1, F[1]) == s2 && Step(s2, F[2]) == s3
    requires Step(s3, F[3]) == s4 && Step(s4, F[4]) == s5
    ensures ReadFrom(st, F) == s5
  {
    assert F[1..][0] == F[1] && F[1..][1..] == F[2..];
    assert F[2..][0] == F[2] && F[2..][1..] == F[3..];
    assert F[3..][0] == F[3] && F[3..][1..] == F[4..];
    assert F[4..][0] == F[4] && F[4..][1..] == [];
    assert ReadFrom(s5, []) == s5;
    assert ReadFrom(s4, F[4..]) == s5;
    assert ReadFrom(s3, F[3..]) == s5;
    assert ReadFrom(s2, F[2..]) == s5;
    assert ReadFrom(s1, F[1..]) == s5;
  }

  /** The fields of one peer, with its three figures as given texts. */
  function FieldsWith(p: PeerStats, h: string, rx: string, tx: string): seq<Option<(string, string)>>
  {
    [ Some(("public_key", p.publicKey)),
      Some(("endpoint", p.endpoint)),
      Some(("last_handshake_time_sec", h)),
      Some(("rx_bytes", rx)),
      Some(("tx_bytes", tx)) ]
  }

  lemma ReadWith(st: Reading, p: PeerStats, h: string, rx: string, tx: string)
    requires p.lastHandshake.Some? ==> 0 < p.lastHandshake.value
    requires ParseInt64(h) == (HandshakeSec(p.lastHandshake), true)
    requires ParseInt64(rx) == (p.rxBytes, true) && ParseInt64(tx) == (p.txBytes, true)
    ensures ReadFrom(st, FieldsWith(p, h, rx, tx)) == Reading(Finish(st), Some(p))
  {
    var c0 := NewPeer(p.publicKey);
    var c1 := c0.(endpoint := p.endpoint);
    var c2 := c1.(lastHandshake := p.lastHandshake);
    var c3 := c2.(rxBytes := p.rxBytes);
    var done := Finish(st);
    StepOpen(st, p.publicKey);
    StepEndpoint(done, c0, p.endpoint);
    StepHandshake(done, c1, p.lastHandshake, h);
    StepRx(done, c2, p.rxBytes, rx);
    StepTx(done, c3, p.txBytes, tx);
    assert c3.(txBytes := p.txBytes) == p;
    ReadFive(st, FieldsWith(p, h, rx, tx), Reading(done, Some(c0)), Reading(done, Some(c1)), Reading(done, Some(c2)),
      Reading(done, Some(c3)), Reading(done, Some(p)));
  }

  /** Reading one peer's fields closes the open record and leaves exactly that peer open. */
  lemma ReadPeer(st: Reading, p: PeerStats)
    requires Sane(p)
    ensures ReadFrom(st, PeerFields(p)) == Reading(Finish(st), Some(p))
  {
    var h := IntToString(HandshakeSec(p.lastHandshake));
    ParseInt64Render(HandshakeSec(p.lastHandshake));
    ParseInt64Render(p.rxBytes);
    ParseInt64Render(p.txBytes);
    MapFive(AsField, PeerPairs(p));
    assert PeerFields(p) == FieldsWith(p, h, IntToString(p.rxBytes), IntToString(p.txBytes));
    ReadWith(st, p, h, IntToString(p.rxBytes), IntToString(p.txBytes));
  }

  /** Reading a peer's fields and then more is reading the more with that peer open. */
  lemma ReadPeerThen(st: Reading, p: PeerStats, rest: seq<Option<(string, string)>>)
    requires Sane(p)
    ensures ReadFrom(st, PeerFields(p) + rest) == ReadFrom(Reading(Finish(st), Some(p)), rest)
  {
    ReadAppend(st, PeerFields(p), rest);
    ReadPeer(st, p);
  }

  lemma {:induction false} ReadDump(st: Reading, ps: seq<PeerStats>)
    requires forall i :: 0 <= i < |ps| ==> Sane(ps[i])
    ensures Finish(ReadFrom(st, DumpFields(ps))) == Finish(st) + ps
    decreases |ps|
  {
    if ps != [] {
      DumpStep(st, ps);
      ReadDump(Reading(Finish(st), Some(ps[0])), ps[1..]);
      FinishPush(st, ps);
    } else {
      assert Finish(st) + ps == Finish(st);
    }
  }

  /** One peer of the dump read: the reading moves on to the rest of the dump with that peer open. */
  lemma DumpStep(st: Reading, ps: seq<PeerStats>)
    requires ps != [] && Sane(ps[0])
    ensures ReadFrom(st, DumpFields(ps)) == ReadFrom(Reading(Finish(st), Some(ps[0])), DumpFields(ps[1..]))
  {
    DumpFieldsCons(ps);
    ReadPeerThen(st, ps[0], DumpFields(ps[1..]));
  }

  lemma DumpFieldsCons(ps: seq<PeerStats>)
    requires ps != []
    ensures DumpFields(ps) == PeerFields(ps[0]) + DumpFields(ps[1..])
  {
    MapAppend(AsField, PeerPairs(ps[0]), DumpPairs(ps[1..]));
  }

  lemma FinishPush(st: Reading, ps: seq<PeerStats>)
    requires ps != []
    ensures Finish(Reading(Finish(st), Some(ps[0]))) + ps[1..] == Finish(st) + ps
  {
    assert Finish(st) + [ps[0]] + ps[1..] == Finish(st) + ps;
  }

  /** The fields of a preamble followed by a dump of `ps`. */
  lemma DumpWithPreamble(pre: seq<string>, ps: seq<PeerStats>)
    requires forall i :: 0 <= i < |pre| ==> !IsKeyField(FieldOf(pre[i]))
    requires forall i :: 0 <= i < |ps| ==> Dumpable(ps[i])
    ensures Finish(ReadFrom(Start, FieldsOf(pre + DumpLines(ps)))) == ps
  {
    Preamble(pre, DumpLines(ps));
    DumpPairsGood(ps);
    LinesFields(DumpPairs(ps));
    ReadDump(Start, ps);
  }

  /** The lines of a preamble free of line breaks followed by a dump hold no line break. */
  lemma DumpNoNewline(pre: seq<string>, ps: seq<PeerStats>)
    requires forall i :: 0 <= i < |pre| ==> '\n' !in pre[i]
    requires forall i :: 0 <= i < |ps| ==> Dumpable(ps[i])
    ensures forall i :: 0 <= i < |pre + DumpLines(ps)| ==> '\n' !in (pre + DumpLines(ps))[i]
  {
    var pairs := DumpPairs(ps);
    DumpPairsGood(ps);
    var lines := pre + DumpLines(ps);
    forall i | 0 <= i < |lines| ensures '\n' !in lines[i] {
      if i >= |pre| {
        assert lines[i] == RenderPair(pairs[i - |pre|]);
        PairNoNewline(pairs[i - |pre|]);
      }
    }
  }

  /**
   * The round trip: a dump made of an interface section without
   * `public_key` lines followed by the lines of each peer parses back to
   * exactly those peers, in order.
   */
  lemma ParseDump(pre: seq<string>, ps: seq<PeerStats>)
    requires forall i :: 0 <= i < |pre| ==> '\n' !in pre[i] && !IsKeyField(FieldOf(pre[i]))
    requires forall i :: 0 <= i < |ps| ==> Dumpable(ps[i])
    ensures ParsedPeers(Join(pre + DumpLines(ps), "\n")) == ps
  {
    if pre == [] && ps == [] {
      EmptyDump();
      assert pre + DumpLines(ps) == [];
    } else {
      var lines := pre + DumpLines(ps);
      assert lines != [] by {
        if ps != [] {
          assert |DumpPairs(ps)| == |PeerPairs(ps[0])| + |DumpPairs(ps[1..])|;
        }
      }
      DumpNoNewline(pre, ps);
      SplitJoin(lines, '\n');
      assert Split(Join(lines, "\n"), '\n') == lines;
      DumpWithPreamble(pre, ps);
    }
  }

  /** The empty output holds no peer. */
  lemma EmptyDump()
    ensures ParsedPeers(Join([], "\n")) == []
  {
    SplitNone("", '\n');
    StartStays(FieldsOf([""]));
  }

  // ---------------------------------------------------------------------
  // syncOnce
  // ---------------------------------------------------------------------

  /** The image after `UpdateStats` for each record, in order. */
  function ApplyStats(img: WgImage, ps: seq<PeerStats>): (r: WgImage)
    requires img.WellFormed()
    ensures r.WellFormed()
    decreases |ps|
  {
    if ps == [] then img
    else
      var p := ps[0];
      ApplyStats(img.UpdateStats(p.publicKey, p.endpoint, p.lastHandshake, p.rxBytes, p.txBytes), ps[1..])
  }

  /** The last record for a public key, if any. */
  function LastFor(ps: seq<PeerStats>, pk: string): (r: Option<PeerStats>)
    ensures r.Some? ==> r.value in ps && r.value.publicKey == pk
    ensures r.None? ==> forall i :: 0 <= i < |ps| ==> ps[i].publicKey != pk
    decreases |ps|
  {
    if ps == [] then None
    else
      var later := LastFor(ps[1..], pk);
      if later.Some? then later
      else if ps[0].publicKey == pk then Some(ps[0])
      else None
  }

  /** A client row with the runtime figures of a record written over it. */
  function Stamped(e: Entry<Client>, p: Option<PeerStats>): Entry<Client>
  {
    if p.None? then e
    else Entry(e.id, SetStatsRow(p.value.endpoint, p.value.lastHandshake, p.value.rxBytes, p.value.txBytes)(e.row))
  }

  /**
   * A sync leaves the clients, their order and every other table as they
   * were; each client whose key was reported carries the figures of the LAST
   * record for that key.
   */
  lemma {:induction false} SyncLastWins(img: WgImage, ps: seq<PeerStats>)
    requires img.WellFormed()
    ensures var r := ApplyStats(img, ps);
            && r.(peers := img.peers) == img
            && r.peers.lastId == img.peers.lastId
            && |r.peers.entries| == |img.peers.entries|
            && forall i :: 0 <= i < |img.peers.entries| ==>
                 r.peers.entries[i] == Stamped(img.peers.entries[i], LastFor(ps, img.peers.entries[i].row.publicKey))
    decreases |ps|
  {
    if ps != [] {
      var p := ps[0];
      var img1 := img.UpdateStats(p.publicKey, p.endpoint, p.lastHandshake, p.rxBytes, p.txBytes);
      SyncLastWins(img1, ps[1..]);
      forall i | 0 <= i < |img.peers.entries|
        ensures ApplyStats(img, ps).peers.entries[i] ==
                Stamped(img.peers.entries[i], LastFor(ps, img.peers.entries[i].row.publicKey))
      {
        var e := img.peers.entries[i];
        assert img1.peers.entries[i] == Stamped(e, if e.row.publicKey == p.publicKey then Some(p) else None);
        assert img1.peers.entries[i].row.publicKey == e.row.publicKey;
      }
    }
  }

  /**
   * `syncOnce`: `answer` is what the injected IpcGet returns. An error writes
   * nothing; otherwise each parsed record is written with `UpdateStats`, in
   * order, and a write that matches no client is ignored.
   */
  method SyncOnce(db: BridgeDB, answer: Result<string, string>)
    requires db.Valid()
    modifies db
    ensures db.Valid()
    ensures answer.Err? ==> db.Image() == old(db.Image())
    ensures answer.Ok? ==> db.Image() == ApplyStats(old(db.Image()), ParsedPeers(answer.value))
  {
    if answer.Err? {
      return;
    }
    var peers := ParseIpcGetPeers(answer.value);
    var i := 0;
    while i < |peers|
      invariant 0 <= i <= |peers| && db.Valid()
      invariant ApplyStats(db.Image(), peers[i..]) == ApplyStats(old(db.Image()), peers)
    {
      var p := peers[i];
      assert peers[i..][1..] == peers[i + 1..];
      db.UpdateStats(p.publicKey, p.endpoint, p.lastHandshake, p.rxBytes, p.txBytes);
      i := i + 1;
    }
  }
}
