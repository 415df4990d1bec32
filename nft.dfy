/**
 * The nftables side of the firewall bridge: the command strings it hands to
 * libnftables, how a command's outcome becomes a result, the fixed sequence
 * that creates the `inet phantom` table, and the search for a rule's handle
 * in a JSON rule listing. libnftables itself is an oracle: a `Runner` gives
 * the return code and the output and error buffers of each command.
 */
module Nft {
  import opened Wrappers
  import opened Strings
  import opened Json

  const TABLE := "inet phantom"
  const AF_INET6 := 10

  /** What libnftables reports for one command. */
  datatype NftOutcome = NftOutcome(rc: int, output: string, error: string)

  type Runner = string -> NftOutcome

  /**
   * Where `CString::new` reports the first NUL: a byte offset into the
   * UTF-8 encoding, which is the character index only while every
   * character before it is ASCII.
   */
  function NulPosition(cmd: string): (p: nat)
    ensures IndexOf(cmd, '\0') <= p <= 4 * IndexOf(cmd, '\0')
    ensures p == IndexOf(cmd, '\0') <==> forall i :: 0 <= i < IndexOf(cmd, '\0') ==> cmd[i] < '\U{0080}'
  {
    Utf8Length(cmd[..IndexOf(cmd, '\0')])
  }

  function NulMessage(cmd: string): string
  {
    "nul byte found in provided data at position: " + NatToString(NulPosition(cmd))
  }

  /**
   * `NftContext::run`: a command with an interior NUL cannot become a C
   * string and is refused before it reaches libnftables; a non-zero return
   * code is an error carrying the error buffer, or a generic message when
   * that buffer is empty.
   */
  function Run(nft: Runner, cmd: string): (r: Result<string, string>)
    ensures r.Ok? <==> '\0' !in cmd && nft(cmd).rc == 0
    ensures r.Ok? ==> r.value == nft(cmd).output
    ensures '\0' in cmd ==> r == Err(NulMessage(cmd))
    ensures '\0' !in cmd && nft(cmd).rc != 0 && nft(cmd).error != [] ==> r == Err(nft(cmd).error)
    ensures '\0' !in cmd && nft(cmd).rc != 0 && nft(cmd).error == [] ==>
              r == Err("nft command failed (rc=" + IntToString(nft(cmd).rc) + "): " + cmd)
  {
    if '\0' in cmd then Err(NulMessage(cmd))
    else
      var o := nft(cmd);
      if o.rc != 0 then
        var generic := "nft command failed (rc=" + IntToString(o.rc) + "): " + cmd;
        Err(if o.error == [] then generic else o.error)
      else Ok(o.output)
  }

  /** The commands issued by a `?` chain and how it ended. */
  datatype RunLog = RunLog(issued: seq<string>, result: Result<(), string>)

  /**
   * What running `cmds` in order until the first failure leaves: a prefix
   * of the commands issued, all but the last succeeding; the result is Ok
   * exactly when every command was issued and succeeded, and otherwise the
   * last issued command's error.
   */
  predicate StopsAtFailure(nft: Runner, cmds: seq<string>, log: RunLog)
  {
    && |log.issued| <= |cmds| && log.issued == cmds[..|log.issued|]
    && (forall i :: 0 <= i < |log.issued| - 1 ==> Run(nft, log.issued[i]).Ok?)
    && (log.result.Ok? <==> log.issued == cmds && forall i :: 0 <= i < |cmds| ==> Run(nft, cmds[i]).Ok?)
    && (log.result.Err? ==> log.issued != [] && Run(nft, log.issued[|log.issued| - 1]) == Err(log.result.error))
  }

  /** Commands run in order, stopping at the first that fails. */
  function RunAll(nft: Runner, cmds: seq<string>): (log: RunLog)
    ensures StopsAtFailure(nft, cmds, log)
  {
    if cmds == [] then RunLog([], Ok(()))
    else
      var r := Run(nft, cmds[0]);
      if r.Err? then RunLog([cmds[0]], Err(r.error))
      else
        var rest := RunAll(nft, cmds[1..]);
        StopsAfterSuccess(nft, cmds, rest);
        RunLog([cmds[0]] + rest.issued, rest.result)
  }

  /** A first command that succeeds, then the rest run until a failure. */
  lemma StopsAfterSuccess(nft: Runner, cmds: seq<string>, rest: RunLog)
    requires cmds != [] && Run(nft, cmds[0]).Ok? && StopsAtFailure(nft, cmds[1..], rest)
    ensures StopsAtFailure(nft, cmds, RunLog([cmds[0]] + rest.issued, rest.result))
  {
    var issued := [cmds[0]] + rest.issued;
    assert issued == cmds[..|issued|] by {
      PrefixCons(cmds, |issued|);
    }
    assert forall i :: 0 <= i < |issued| - 1 ==> Run(nft, issued[i]).Ok? by {
      forall i | 0 <= i < |issued| - 1 ensures Run(nft, issued[i]).Ok? {
        if i > 0 { assert issued[i] == rest.issued[i - 1]; }
      }
    }
    if rest.result.Ok? {
      assert issued == cmds by { assert [cmds[0]] + cmds[1..] == cmds; }
      forall i | 0 <= i < |cmds| ensures Run(nft, cmds[i]).Ok? {
        if i > 0 { assert cmds[i] == cmds[1..][i - 1]; }
      }
    } else {
      if issued == cmds {
        assert rest.issued == cmds[1..];
        var j :| 0 <= j < |cmds[1..]| && Run(nft, cmds[1..][j]).Err?;
        assert cmds[j + 1] == cmds[1..][j];
      }
      assert issued[|issued| - 1] == rest.issued[|rest.issued| - 1];
    }
  }

  lemma PrefixCons<T>(s: seq<T>, n: nat)
    requires 0 < n <= |s|
    ensures s[..n] == [s[0]] + s[1..][..n - 1]
  {
  }

  const ENSURE_TABLE_COMMANDS: seq<string> := [
    "add table inet phantom",
    "add chain inet phantom input { type filter hook input priority 0; policy accept; }",
    "add chain inet phantom forward { type filter hook forward priority 0; policy accept; }",
    "add chain inet phantom postrouting { type nat hook postrouting priority 100; policy accept; }"
  ]

  /**
   * `ensure_table`: the table, then the input, forward and postrouting base
   * chains, stopping at the first command that fails.
   */
  function EnsureTable(nft: Runner): (log: RunLog)
    ensures |log.issued| <= |ENSURE_TABLE_COMMANDS| && log.issued == ENSURE_TABLE_COMMANDS[..|log.issued|]
    ensures log.result.Ok? <==> forall i :: 0 <= i < |ENSURE_TABLE_COMMANDS| ==> Run(nft, ENSURE_TABLE_COMMANDS[i]).Ok?
    ensures log.result.Ok? ==> log.issued == ENSURE_TABLE_COMMANDS
    ensures log.result.Err? ==> log.issued != [] && Run(nft, log.issued[|log.issued| - 1]) == Err(log.result.error)
  {
    var cmds := ENSURE_TABLE_COMMANDS;
    var l := RunAll(nft, cmds);
    l
  }

  /** `flush_table`. */
  function FlushTable(nft: Runner): (r: Result<(), string>)
    ensures r.Ok? <==> Run(nft, "flush table " + TABLE).Ok?
    ensures r.Err? ==> Run(nft, "flush table " + TABLE) == Err(r.error)
  {
    var o := Run(nft, "flush table " + TABLE);
    if o.Ok? then Ok(()) else Err(o.error)
  }

  /** `source_match`: the address match, or nothing for an empty source. */
  function SourceMatch(family: int, source: string): string
  {
    if source == [] then "" else (if family == AF_INET6 then "ip6" else "ip") + " saddr " + source + " "
  }

  /** `proto_dport_match`: the port match, or nothing for port 0. */
  function ProtoDportMatch(proto: string, dport: nat): string
  {
    if dport == 0 then "" else proto + " dport " + NatToString(dport) + " "
  }

  /** The start of every `add rule` command on a chain of the table. */
  function RuleHead(chain: string): string
  {
    "add rule " + TABLE + " " + chain + " "
  }

  /** The command `add_input_accept` (action "accept") or `add_input_drop` (action "drop") runs. */
  function InputCommand(family: int, proto: string, dport: nat, source: string, action: string): string
  {
    RuleHead("input") + SourceMatch(family, source) + ProtoDportMatch(proto, dport) + action
  }

  function Quoted(s: string): string { "\"" + s + "\"" }

  /** An interface match (`iifname`/`oifname`), or nothing for an empty name. */
  function IfaceMatch(keyword: string, iface: string): string
  {
    if iface == [] then "" else keyword + " " + Quoted(iface) + " "
  }

  /** A conntrack state match with the state lower-cased, or nothing for an empty state. */
  function CtMatch(stateMatch: string): string
  {
    if stateMatch == [] then "" else "ct state " + ToLower(stateMatch) + " "
  }

  /** The command `add_forward` runs. */
  function ForwardCommand(inIface: string, outIface: string, stateMatch: string): string
  {
    RuleHead("forward") + IfaceMatch("iifname", inIface) + IfaceMatch("oifname", outIface) + CtMatch(stateMatch) + "accept"
  }

  /** The source match of a masquerade rule; unlike `SourceMatch` it is written even for an empty network. */
  function NatSource(sourceNetwork: string): string
  {
    "ip saddr " + sourceNetwork + " "
  }

  /** The command `add_nat_masquerade` runs. */
  function NatMasqueradeCommand(sourceNetwork: string, outIface: string): string
  {
    RuleHead("postrouting") + NatSource(sourceNetwork) + IfaceMatch("oifname", outIface) + "masquerade"
  }

  // ---------------------------------------------------------------------
  // The words of a command

  predicate Word(w: string) { ' ' !in w }

  /** Each word followed by one space. */
  function Spaced(ws: seq<string>): string
  {
    if ws == [] then "" else ws[0] + " " + Spaced(ws[1..])
  }

  lemma {:induction false} SpacedAppend(a: seq<string>, b: seq<string>)
    ensures Spaced(a + b) == Spaced(a) + Spaced(b)
  {
    if a != [] {
      assert (a + b)[0] == a[0] && (a + b)[1..] == a[1..] + b;
      SpacedAppend(a[1..], b);
      assert Spaced(a + b) == a[0] + " " + (Spaced(a[1..]) + Spaced(b));
    } else {
      assert a + b == b;
    }
  }

  lemma SplitLast(w: string)
    requires Word(w)
    ensures Split(w, ' ') == [w]
  {
  }

  lemma SplitWord(w: string, rest: string)
    requires Word(w)
    ensures Split(w + " " + rest, ' ') == [w] + Split(rest, ' ')
  {
    var s := w + " " + rest;
    assert s[|w|] == ' ';
    assert forall j :: 0 <= j < |w| ==> s[j] == w[j];
    assert IndexOf(s, ' ') == |w|;
    assert s[..|w|] == w && s[|w| + 1..] == rest;
  }

  predicate AllWords(ws: seq<string>)
  {
    forall i :: 0 <= i < |ws| ==> Word(ws[i])
  }

  lemma AllWordsAppend(a: seq<string>, b: seq<string>)
    requires AllWords(a) && AllWords(b)
    ensures AllWords(a + b)
  {
    forall i | 0 <= i < |a + b| ensures Word((a + b)[i]) {
      if i < |a| { assert (a + b)[i] == a[i]; } else { assert (a + b)[i] == b[i - |a|]; }
    }
  }

  /** Words joined by single spaces split back into those words. */
  lemma {:induction false} SplitSpaced(ws: seq<string>, last: string)
    requires AllWords(ws)
    requires Word(last)
    ensures Split(Spaced(ws) + last, ' ') == ws + [last]
  {
    if ws != [] {
      SplitSpaced(ws[1..], last);
      assert Spaced(ws) + last == ws[0] + " " + (Spaced(ws[1..]) + last);
      SplitWord(ws[0], Spaced(ws[1..]) + last);
      assert ws + [last] == [ws[0]] + (ws[1..] + [last]);
    } else {
      assert Spaced(ws) + last == last;
      SplitLast(last);
    }
  }

  lemma Spaced2(a: string, b: string)
    ensures Spaced([a, b]) == a + " " + b + " "
  {
    assert [a, b][1..] == [b] && [b][1..] == [];
    assert Spaced([b]) == b + " ";
  }

  lemma Spaced3(a: string, b: string, c: string)
    ensures Spaced([a, b, c]) == a + " " + b + " " + c + " "
  {
    assert [a, b, c][1..] == [b, c];
    Spaced2(b, c);
  }

  /** The words before a rule's match parts. */
  function RulePrefix(chain: string): seq<string>
  {
    ["add", "rule", "inet", "phantom", chain]
  }

  lemma PrefixSpaced(chain: string)
    ensures Spaced(RulePrefix(chain)) == RuleHead(chain)
  {
    var p := RulePrefix(chain);
    assert p == ["add", "rule", "inet"] + ["phantom", chain];
    Spaced3("add", "rule", "inet");
    Spaced2("phantom", chain);
    SpacedAppend(["add", "rule", "inet"], ["phantom", chain]);
  }

  lemma NatWord(n: nat)
    ensures Word(NatToString(n))
  {
  }

  lemma LowerWord(s: string)
    requires Word(s)
    ensures Word(ToLower(s))
  {
  }

  lemma QuotedWord(s: string)
    requires Word(s)
    ensures Word(Quoted(s))
  {
  }

  function SourceWords(family: int, source: string): seq<string>
  {
    if source == [] then [] else [if family == AF_INET6 then "ip6" else "ip", "saddr", source]
  }

  function PortWords(proto: string, dport: nat): seq<string>
  {
    if dport == 0 then [] else [proto, "dport", NatToString(dport)]
  }

  lemma SourceSpaced(family: int, source: string)
    ensures SourceMatch(family, source) == Spaced(SourceWords(family, source))
  {
    if source != [] {
      var fam := if family == AF_INET6 then "ip6" else "ip";
      Spaced3(fam, "saddr", source);
    }
  }

  lemma PortSpaced(proto: string, dport: nat)
    ensures ProtoDportMatch(proto, dport) == Spaced(PortWords(proto, dport))
  {
    if dport != 0 {
      var d := NatToString(dport);
      Spaced3(proto, "dport", d);
    }
  }

  lemma InputCommandSpaced(family: int, proto: string, dport: nat, source: string, action: string)
    ensures InputCommand(family, proto, dport, source, action)
            == Spaced(RulePrefix("input") + SourceWords(family, source) + PortWords(proto, dport)) + action
  {
    var pre, src, pd := RulePrefix("input"), SourceWords(family, source), PortWords(proto, dport);
    PrefixSpaced("input");
    SourceSpaced(family, source);
    PortSpaced(proto, dport);
    SpacedAppend(pre, src);
    SpacedAppend(pre + src, pd);
  }

  /**
   * An input command splits at its spaces into exactly the words it is made
   * of, so its match parts appear only when the source and port are set.
   */
  lemma InputCommandWords(family: int, proto: string, dport: nat, source: string, action: string)
    requires Word(proto) && Word(source) && Word(action)
    ensures Split(InputCommand(family, proto, dport, source, action), ' ')
              == RulePrefix("input") + SourceWords(family, source) + PortWords(proto, dport) + [action]
  {
    var pre, src, pd := RulePrefix("input"), SourceWords(family, source), PortWords(proto, dport);
    InputCommandSpaced(family, proto, dport, source, action);
    NatWord(dport);
    assert AllWords(pre) && AllWords(src) && AllWords(pd);
    AllWordsAppend(pre, src);
    AllWordsAppend(pre + src, pd);
    SplitSpaced(pre + src + pd, action);
  }

  function IfaceWords(keyword: string, iface: string): seq<string>
  {
    if iface == [] then [] else [keyword, Quoted(iface)]
  }

  function StateWords(stateMatch: string): seq<string>
  {
    if stateMatch == [] then [] else ["ct", "state", ToLower(stateMatch)]
  }

  lemma IfaceSpaced(keyword: string, iface: string)
    ensures IfaceMatch(keyword, iface) == Spaced(IfaceWords(keyword, iface))
  {
    if iface != [] {
      Spaced2(keyword, Quoted(iface));
    }
  }

  lemma StateSpaced(stateMatch: string)
    ensures CtMatch(stateMatch) == Spaced(StateWords(stateMatch))
  {
    if stateMatch != [] {
      Spaced3("ct", "state", ToLower(stateMatch));
    }
  }

  lemma ForwardCommandSpaced(inIface: string, outIface: string, stateMatch: string)
    ensures ForwardCommand(inIface, outIface, stateMatch)
            == Spaced(RulePrefix("forward") + IfaceWords("iifname", inIface) + IfaceWords("oifname", outIface)
                      + StateWords(stateMatch)) + "accept"
  {
    var pre, iif := RulePrefix("forward"), IfaceWords("iifname", inIface);
    var oif, ct := IfaceWords("oifname", outIface), StateWords(stateMatch);
    PrefixSpaced("forward");
    IfaceSpaced("iifname", inIface);
    IfaceSpaced("oifname", outIface);
    StateSpaced(stateMatch);
    SpacedAppend(pre, iif);
    SpacedAppend(pre + iif, oif);
    SpacedAppend(pre + iif + oif, ct);
  }

  /**
   * A forward command names the input interface, the output interface and
   * the lower-cased state only when they are set, and always ends in accept.
   */
  lemma ForwardCommandWords(inIface: string, outIface: string, stateMatch: string)
    requires Word(inIface) && Word(outIface) && Word(stateMatch)
    ensures Split(ForwardCommand(inIface, outIface, stateMatch), ' ')
              == RulePrefix("forward") + IfaceWords("iifname", inIface) + IfaceWords("oifname", outIface)
                 + StateWords(stateMatch) + ["accept"]
  {
    ForwardCommandSpaced(inIface, outIface, stateMatch);
    ForwardAllWords(inIface, outIface, stateMatch);
    SplitSpaced(RulePrefix("forward") + IfaceWords("iifname", inIface) + IfaceWords("oifname", outIface)
                + StateWords(stateMatch), "accept");
  }

  lemma ForwardAllWords(inIface: string, outIface: string, stateMatch: string)
    requires Word(inIface) && Word(outIface) && Word(stateMatch)
    ensures AllWords(RulePrefix("forward") + IfaceWords("iifname", inIface) + IfaceWords("oifname", outIface)
                     + StateWords(stateMatch))
  {
    var pre, iif := RulePrefix("forward"), IfaceWords("iifname", inIface);
    var oif, ct := IfaceWords("oifname", outIface), StateWords(stateMatch);
    QuotedWord(inIface);
    QuotedWord(outIface);
    LowerWord(stateMatch);
    assert AllWords(pre) && AllWords(iif) && AllWords(oif) && AllWords(ct);
    AllWordsAppend(pre, iif);
    AllWordsAppend(pre + iif, oif);
    AllWordsAppend(pre + iif + oif, ct);
  }

  lemma NatSourceSpaced(sourceNetwork: string)
    ensures NatSource(sourceNetwork) == Spaced(["ip", "saddr", sourceNetwork])
  {
    Spaced3("ip", "saddr", sourceNetwork);
  }

  lemma NatMasqueradeCommandSpaced(sourceNetwork: string, outIface: string)
    ensures NatMasqueradeCommand(sourceNetwork, outIface)
            == Spaced(RulePrefix("postrouting") + ["ip", "saddr", sourceNetwork] + IfaceWords("oifname", outIface))
               + "masquerade"
  {
    var pre, src, oif := RulePrefix("postrouting"), ["ip", "saddr", sourceNetwork], IfaceWords("oifname", outIface);
    PrefixSpaced("postrouting");
    NatSourceSpaced(sourceNetwork);
    IfaceSpaced("oifname", outIface);
    SpacedAppend(pre, src);
    SpacedAppend(pre + src, oif);
  }

  /** A masquerade command matches the source network and, when set, the output interface. */
  lemma NatMasqueradeCommandWords(sourceNetwork: string, outIface: string)
    requires Word(sourceNetwork) && Word(outIface)
    ensures Split(NatMasqueradeCommand(sourceNetwork, outIface), ' ')
              == RulePrefix("postrouting") + ["ip", "saddr", sourceNetwork] + IfaceWords("oifname", outIface) + ["masquerade"]
  {
    var pre, src, oif := RulePrefix("postrouting"), ["ip", "saddr", sourceNetwork], IfaceWords("oifname", outIface);
    NatMasqueradeCommandSpaced(sourceNetwork, outIface);
    QuotedWord(outIface);
    assert AllWords(pre) && AllWords(src) && AllWords(oif);
    AllWordsAppend(pre, src);
    AllWordsAppend(pre + src, oif);
    SplitSpaced(pre + src + oif, "masquerade");
  }

  // ---------------------------------------------------------------------
  // Handle lookup in a JSON listing

  /** The `handle` of a rule object, when it is a `u64`. */
  function HandleOf(rule: Json): (r: Option<nat>)
    ensures r.Some? ==> r.value < U64_LIMIT
  {
    var h := Get(rule, "handle");
    if h.None? then None else AsU64(h.value)
  }

  /** An item the search moves past: not a rule, or a rule with a handle whose text does not match. */
  predicate Passed(item: Json, m: string -> bool)
  {
    var rule := Get(item, "rule");
    rule.None? || (HandleOf(rule.value).Some? && !m(Serialize(rule.value)))
  }

  /**
   * The loop of `find_forward_handle` and `find_nat_handle`: items that are
   * not rules are skipped, a rule without a `u64` handle ends the search
   * with nothing (the `?` on the handle), and the first rule whose text
   * matches gives its handle.
   */
  function Scan(items: seq<Json>, m: string -> bool): Option<nat>
    decreases |items|
  {
    if items == [] then None
    else
      var rule := Get(items[0], "rule");
      if rule.None? then Scan(items[1..], m)
      else if HandleOf(rule.value).None? then None
      else if m(Serialize(rule.value)) then HandleOf(rule.value)
      else Scan(items[1..], m)
  }

  /** The search on a whole listing: nothing unless it parsed and holds an `nftables` array. */
  function HandleIn(listing: Option<Json>, m: string -> bool): Option<nat>
  {
    if listing.None? then None
    else
      var arr := Get(listing.value, "nftables");
      if arr.None? || AsArray(arr.value).None? then None
      else Scan(AsArray(arr.value).value, m)
  }

  /** The search moves past every item it does not stop at. */
  lemma {:induction false} ScanPassed(items: seq<Json>, m: string -> bool)
    requires items != [] && Passed(items[0], m)
    ensures Scan(items, m) == Scan(items[1..], m)
  {
  }

  /** The search stops at the first item it does not move past, with that rule's handle. */
  lemma {:induction false} ScanAt(items: seq<Json>, m: string -> bool, i: nat)
    requires i < |items| && !Passed(items[i], m)
    requires forall k :: 0 <= k < i ==> Passed(items[k], m)
    ensures Get(items[i], "rule").Some? && Scan(items, m) == HandleOf(Get(items[i], "rule").value)
    decreases i
  {
    if i > 0 {
      ScanPassed(items, m);
      forall k | 0 <= k < i - 1 ensures Passed(items[1..][k], m) {
        assert items[1..][k] == items[k + 1];
      }
      assert items[1..][i - 1] == items[i];
      ScanAt(items[1..], m, i - 1);
    }
  }

  /** A search that moves past every item finds nothing. */
  lemma {:induction false} ScanNone(items: seq<Json>, m: string -> bool)
    requires forall k :: 0 <= k < |items| ==> Passed(items[k], m)
    ensures Scan(items, m).None?
    decreases |items|
  {
    if items != [] {
      ScanPassed(items, m);
      forall k | 0 <= k < |items| - 1 ensures Passed(items[1..][k], m) {
        assert items[1..][k] == items[k + 1];
      }
      ScanNone(items[1..], m);
    }
  }

  /**
   * The search stops at the first item it does not move past: the handle of
   * that rule when it matches, nothing when its handle is unusable.
   */
  lemma ScanFirst(items: seq<Json>, m: string -> bool)
    ensures forall i :: 0 <= i < |items| && (forall k :: 0 <= k < i ==> Passed(items[k], m)) && !Passed(items[i], m)
              ==> Scan(items, m) == HandleOf(Get(items[i], "rule").value)
  {
    forall i | 0 <= i < |items| && (forall k :: 0 <= k < i ==> Passed(items[k], m)) && !Passed(items[i], m)
      ensures Scan(items, m) == HandleOf(Get(items[i], "rule").value)
    {
      ScanAt(items, m, i);
    }
  }

  /** A found handle belongs to a rule item whose text matches. */
  lemma {:induction false} ScanFound(items: seq<Json>, m: string -> bool)
    ensures Scan(items, m).Some? ==>
              exists i :: 0 <= i < |items| && Get(items[i], "rule").Some?
                          && HandleOf(Get(items[i], "rule").value) == Scan(items, m)
                          && m(Serialize(Get(items[i], "rule").value))
    decreases |items|
  {
    if items != [] {
      var rule := Get(items[0], "rule");
      if !(rule.Some? && m(Serialize(rule.value))) {
        ScanFound(items[1..], m);
        if Scan(items, m).Some? {
          ScanSkip(items, m);
          var i :| 0 <= i < |items[1..]| && Get(items[1..][i], "rule").Some?
                   && HandleOf(Get(items[1..][i], "rule").value) == Scan(items[1..], m)
                   && m(Serialize(Get(items[1..][i], "rule").value));
          TailIndex(items, i);
        }
      }
    }
  }

  /** A successful search that does not stop at the first item is the search of the rest. */
  lemma ScanSkip(items: seq<Json>, m: string -> bool)
    requires items != [] && Scan(items, m).Some?
    requires !(Get(items[0], "rule").Some? && m(Serialize(Get(items[0], "rule").value)))
    ensures Scan(items, m) == Scan(items[1..], m)
  {
  }

  lemma TailIndex<T>(s: seq<T>, j: nat)
    requires j + 1 < |s|
    ensures s[1..][j] == s[j + 1]
  {
  }

  /**
   * The loop shared by `find_forward_handle` and `find_nat_handle`, which
   * differ only in how a rule's text is matched.
   */
  method FindHandle(listing: Option<Json>, m: string -> bool) returns (r: Option<nat>)
    ensures r == HandleIn(listing, m)
  {
    if listing.None? { return None; }
    var arr := Get(listing.value, "nftables");
    if arr.None? { return None; }
    var items := AsArray(arr.value);
    if items.None? { return None; }
    var xs := items.value;
    var i := 0;
    while i < |xs|
      invariant 0 <= i <= |xs|
      invariant Scan(xs, m) == Scan(xs[i..], m)
    {
      var rule := Get(xs[i], "rule");
      if rule.Some? {
        var h := HandleOf(rule.value);
        if h.None? { return None; }
        if m(Serialize(rule.value)) { return h; }
      }
      assert xs[i..][1..] == xs[i + 1..];
      i := i + 1;
    }
    return None;
  }

  /** How `find_forward_handle` matches a rule's text; an empty pattern matches anything. */
  function ForwardMatch(inIface: string, outIface: string, stateMatch: string): string -> bool
  {
    (text: string) =>
      (inIface == [] || Contains(text, inIface))
      && (outIface == [] || Contains(text, outIface))
      && (stateMatch == [] || Contains(ToLower(text), ToLower(stateMatch)))
  }

  /** How `find_nat_handle` matches a rule's text: as above, and the text names masquerade. */
  function NatMatch(sourceNetwork: string, outIface: string): string -> bool
  {
    (text: string) =>
      (sourceNetwork == [] || Contains(text, sourceNetwork))
      && (outIface == [] || Contains(text, outIface))
      && Contains(text, "masquerade")
  }

  /** `find_forward_handle` on a parsed listing (`None` when the JSON did not parse). */
  method FindForwardHandle(listing: Option<Json>, inIface: string, outIface: string, stateMatch: string)
    returns (r: Option<nat>)
    ensures r == HandleIn(listing, ForwardMatch(inIface, outIface, stateMatch))
    ensures r.Some? ==> r.value < U64_LIMIT
  {
    r := FindHandle(listing, ForwardMatch(inIface, outIface, stateMatch));
    HandleInBound(listing, ForwardMatch(inIface, outIface, stateMatch));
  }

  /** `find_nat_handle` on a parsed listing. */
  method FindNatHandle(listing: Option<Json>, sourceNetwork: string, outIface: string)
    returns (r: Option<nat>)
    ensures r == HandleIn(listing, NatMatch(sourceNetwork, outIface))
    ensures r.Some? ==> r.value < U64_LIMIT
  {
    r := FindHandle(listing, NatMatch(sourceNetwork, outIface));
    HandleInBound(listing, NatMatch(sourceNetwork, outIface));
  }

  lemma HandleInBound(listing: Option<Json>, m: string -> bool)
    ensures HandleIn(listing, m).Some? ==> HandleIn(listing, m).value < U64_LIMIT
  {
    if listing.Some? {
      var arr := Get(listing.value, "nftables");
      if arr.Some? && AsArray(arr.value).Some? {
        ScanFound(AsArray(arr.value).value, m);
      }
    }
  }

  /** A NAT rule is only ever found if its text names masquerade. */
  lemma NatFoundMasquerades(listing: Option<Json>, sourceNetwork: string, outIface: string)
    ensures HandleIn(listing, NatMatch(sourceNetwork, outIface)).Some? ==>
              exists rule :: HandleOf(rule) == HandleIn(listing, NatMatch(sourceNetwork, outIface))
                             && Contains(Serialize(rule), "masquerade")
                             && (sourceNetwork == [] || Contains(Serialize(rule), sourceNetwork))
  {
    var m := NatMatch(sourceNetwork, outIface);
    if HandleIn(listing, m).Some? {
      var items := AsArray(Get(listing.value, "nftables").value).value;
      assert HandleIn(listing, m) == Scan(items, m);
      ScanFound(items, m);
      var i :| 0 <= i < |items| && Get(items[i], "rule").Some?
               && HandleOf(Get(items[i], "rule").value) == Scan(items, m)
               && m(Serialize(Get(items[i], "rule").value));
      var rule := Get(items[i], "rule").value;
      NatMatchMeans(sourceNetwork, outIface, Serialize(rule));
    }
  }

  /** A text the NAT search accepts names masquerade and, when one is given, the source network. */
  lemma NatMatchMeans(sourceNetwork: string, outIface: string, text: string)
    requires NatMatch(sourceNetwork, outIface)(text)
    ensures Contains(text, "masquerade") && (sourceNetwork == [] || Contains(text, sourceNetwork))
  {
  }
}
