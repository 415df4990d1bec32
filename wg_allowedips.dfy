/**
 * The allowed-IP helpers of src/bridge_allowedips.go. The engine's
 * allowed-IP table is reachable only through its UAPI text protocol, so the
 * helpers build UAPI configurations ("key=value" lines) to send with IpcSet,
 * and read a peer's prefixes back out of the IpcGet dump.
 */
module WgAllowedIps {
  import opened Wrappers
  import opened Strings
  import opened WgRegistry
  import opened WgDevice

  const PUBLIC_KEY := "public_key="
  const ALLOWED_IP := "allowed_ip="
  const REPLACE_ALLOWED_IPS := "replace_allowed_ips=true"

  /** A peer key as it appears in UAPI text: no white space anywhere (hex in practice). */
  predicate PlainKey(key: string)
  {
    forall i :: 0 <= i < |key| ==> !IsSpace(key[i])
  }

  /** Lines, each followed by '\n': the shape of every UAPI message. */
  function Terminated(lines: seq<string>): string
  {
    if lines == [] then "" else lines[0] + "\n" + Terminated(lines[1..])
  }

  lemma {:induction false} TerminatedSnoc(lines: seq<string>, x: string)
    ensures Terminated(lines + [x]) == Terminated(lines) + x + "\n"
  {
    if lines != [] {
      assert (lines + [x])[1..] == lines[1..] + [x];
      TerminatedSnoc(lines[1..], x);
    }
  }

  lemma TerminatedCons(lines: seq<string>)
    requires lines != []
    ensures Terminated(lines) == lines[0] + ['\n'] + Terminated(lines[1..])
  {
  }

  lemma ConsAppend<T>(xs: seq<T>, y: T)
    requires xs != []
    ensures [xs[0]] + (xs[1..] + [y]) == xs + [y]
  {
    assert xs == [xs[0]] + xs[1..];
  }

  /** Terminated lines split back into those lines and a final empty piece. */
  lemma {:induction false} SplitTerminated(lines: seq<string>)
    requires forall i :: 0 <= i < |lines| ==> '\n' !in lines[i]
    ensures Split(Terminated(lines), '\n') == lines + [""]
  {
    if lines == [] {
      SplitNone("", '\n');
    } else {
      SplitTerminated(lines[1..]);
      TerminatedCons(lines);
      SplitCons(lines[0], '\n', Terminated(lines[1..]));
      ConsAppend(lines, "");
    }
  }

  lemma TwoLines(x: string, y: string)
    ensures Terminated([x, y]) == x + "\n" + y + "\n"
  {
    assert [x, y][1..] == [y];
    assert [y][1..] == [];
    assert Terminated([y]) == y + "\n";
    assert x + "\n" + (y + "\n") == x + "\n" + y + "\n";
  }

  // ---- Building configurations ----

  /** `AllowedIpsInsert`: add one prefix to the peer's allowed IPs. */
  function InsertConfig(key: string, prefix: string): (c: string)
    ensures c == Terminated([PUBLIC_KEY + key, ALLOWED_IP + prefix])
  {
    TwoLines(PUBLIC_KEY + key, ALLOWED_IP + prefix);
    assert "public_key=" + key + "\nallowed_ip=" + prefix + "\n" == PUBLIC_KEY + key + "\n" + (ALLOWED_IP + prefix) + "\n";
    "public_key=" + key + "\nallowed_ip=" + prefix + "\n"
  }

  /** `AllowedIpsRemoveByPeer`: a peer section that replaces its allowed IPs with none. */
  function RemoveConfig(key: string): (c: string)
    ensures c == Terminated([PUBLIC_KEY + key, REPLACE_ALLOWED_IPS])
  {
    TwoLines(PUBLIC_KEY + key, REPLACE_ALLOWED_IPS);
    assert "public_key=" + key + "\nreplace_allowed_ips=true\n" == PUBLIC_KEY + key + "\n" + REPLACE_ALLOWED_IPS + "\n";
    "public_key=" + key + "\nreplace_allowed_ips=true\n"
  }

  /** The prefix lines that are kept: each one trimmed, the blank ones dropped, in order. */
  function Kept(parts: seq<string>): (ks: seq<string>)
    ensures |ks| <= |parts|
  {
    if parts == [] then []
    else
      var t := Trim(parts[|parts| - 1]);
      Kept(parts[..|parts| - 1]) + (if t != "" then [t] else [])
  }

  function AllowedLines(prefixes: seq<string>): (lines: seq<string>)
    ensures |lines| == |prefixes|
    ensures forall i :: 0 <= i < |prefixes| ==> lines[i] == ALLOWED_IP + prefixes[i]
  {
    if prefixes == [] then [] else [ALLOWED_IP + prefixes[0]] + AllowedLines(prefixes[1..])
  }

  lemma {:induction false} AllowedLinesSnoc(ps: seq<string>, p: string)
    ensures AllowedLines(ps + [p]) == AllowedLines(ps) + [ALLOWED_IP + p]
  {
  }

  /** What `AllowedIpsReplaceForPeer` sends for `prefixes` (one prefix per line). */
  function ReplaceText(key: string, prefixes: string): string
  {
    RemoveConfig(key) + Terminated(AllowedLines(Kept(Split(prefixes, '\n'))))
  }

  lemma KeptSnoc(parts: seq<string>, i: int)
    requires 0 <= i < |parts|
    ensures Kept(parts[..i + 1]) == Kept(parts[..i]) + (if Trim(parts[i]) != "" then [Trim(parts[i])] else [])
  {
    assert parts[..i + 1][..i] == parts[..i];
  }

  lemma AppendAssoc(head: string, t: string, line: string, p: string)
    ensures head + (t + (line + p) + "\n") == head + t + line + p + "\n"
  {
  }

  /** One pass of the loop in `AllowedIpsReplaceForPeer`: the line of part `i`, if it is kept. */
  lemma ReplaceStep(head: string, parts: seq<string>, i: int, config: string)
    requires 0 <= i < |parts|
    requires config == head + Terminated(AllowedLines(Kept(parts[..i])))
    ensures Trim(parts[i]) != "" ==>
      config + ALLOWED_IP + Trim(parts[i]) + "\n" == head + Terminated(AllowedLines(Kept(parts[..i + 1])))
    ensures Trim(parts[i]) == "" ==> config == head + Terminated(AllowedLines(Kept(parts[..i + 1])))
  {
    var ks := Kept(parts[..i]);
    var p := Trim(parts[i]);
    KeptSnoc(parts, i);
    if p != "" {
      assert Kept(parts[..i + 1]) == ks + [p];
      var t := Terminated(AllowedLines(ks));
      assert Terminated(AllowedLines(ks + [p])) == t + (ALLOWED_IP + p) + "\n" by {
        AllowedLinesSnoc(ks, p);
        TerminatedSnoc(AllowedLines(ks), ALLOWED_IP + p);
      }
      AppendAssoc(head, t, ALLOWED_IP, p);
    } else {
      assert Kept(parts[..i + 1]) == ks;
    }
  }

  /** The loop of `AllowedIpsReplaceForPeer` that appends one `allowed_ip=` line per kept prefix. */
  method AppendKept(head: string, parts: seq<string>) returns (config: string)
    ensures config == head + Terminated(AllowedLines(Kept(parts)))
  {
    config := head;
    assert parts[..0] == [];
    var i := 0;
    while i < |parts|
      invariant 0 <= i <= |parts|
      invariant config == head + Terminated(AllowedLines(Kept(parts[..i])))
    {
      var prefix := Trim(parts[i]);
      ReplaceStep(head, parts, i, config);
      if prefix != "" {
        config := config + ALLOWED_IP + prefix + "\n";
      }
      i := i + 1;
    }
    assert parts[..i] == parts;
  }

  /** The configuration `AllowedIpsReplaceForPeer` builds. */
  method ReplaceConfig(key: string, prefixes: string) returns (config: string)
    ensures config == ReplaceText(key, prefixes)
  {
    config := "public_key=" + key + "\nreplace_allowed_ips=true\n";
    var parts := Split(prefixes, '\n');
    config := AppendKept(config, parts);
  }

  /** Every kept prefix is non-empty, has no white space at its ends and no line break. */
  lemma {:induction false} KeptPlain(parts: seq<string>)
    requires forall i :: 0 <= i < |parts| ==> '\n' !in parts[i]
    ensures forall j :: 0 <= j < |Kept(parts)| ==>
      && Kept(parts)[j] != ""
      && !IsSpace(Kept(parts)[j][0]) && !IsSpace(Kept(parts)[j][|Kept(parts)[j]| - 1])
      && '\n' !in Kept(parts)[j]
  {
    if parts != [] {
      var last := parts[|parts| - 1];
      KeptPlain(parts[..|parts| - 1]);
      TrimEnds(last);
      TrimFree(last, '\n');
    }
  }

  /** A text of blank lines keeps no prefix, so Replace then sends exactly Remove's text. */
  lemma {:induction false} BlankKeepsNothing(parts: seq<string>)
    requires forall i :: 0 <= i < |parts| ==> Trim(parts[i]) == ""
    ensures Kept(parts) == []
  {
    if parts != [] {
      BlankKeepsNothing(parts[..|parts| - 1]);
    }
  }

  lemma RemoveIsEmptyReplace(key: string, prefixes: string)
    requires forall i :: 0 <= i < |prefixes| ==> IsSpace(prefixes[i])
    ensures ReplaceText(key, prefixes) == RemoveConfig(key)
  {
    var parts := Split(prefixes, '\n');
    forall i | 0 <= i < |parts|
      ensures Trim(parts[i]) == ""
    {
      BlankTrims(prefixes, parts, i);
    }
    BlankKeepsNothing(parts);
  }

  lemma BlankTrims(prefixes: string, parts: seq<string>, i: int)
    requires forall k :: 0 <= k < |prefixes| ==> IsSpace(prefixes[k])
    requires parts == Split(prefixes, '\n') && 0 <= i < |parts|
    ensures Trim(parts[i]) == ""
  {
    JoinSplitMember(prefixes, parts, i);
    var p := parts[i];
    assert forall k :: 0 <= k < |p| ==> IsSpace(p[k]);
    AllSpaceTrims(p);
  }

  /** Every part of a split comes from the split string. */
  lemma {:induction false} JoinSplitMember(s: string, parts: seq<string>, i: int)
    requires parts == Split(s, '\n') && 0 <= i < |parts|
    ensures forall k :: 0 <= k < |parts[i]| ==> parts[i][k] in s
    decreases |s|
  {
    var n := IndexOf(s, '\n');
    if n < |s| && i > 0 {
      JoinSplitMember(s[n + 1..], Split(s[n + 1..], '\n'), i - 1);
      forall k | 0 <= k < |parts[i]|
        ensures parts[i][k] in s
      {
        assert parts[i][k] in s[n + 1..];
      }
    } else if n < |s| {
      assert parts[0] == s[..n];
      forall k | 0 <= k < |parts[0]|
        ensures parts[0][k] in s
      {
        assert parts[0][k] == s[k];
      }
    }
  }

  lemma {:induction false} AllSpaceTrims(p: string)
    requires forall k :: 0 <= k < |p| ==> IsSpace(p[k])
    ensures Trim(p) == ""
    decreases |p|
  {
    if p != [] {
      assert TrimLeft(p) == TrimLeft(p[1..]);
      AllSpaceTrims(p[1..]);
    }
  }

  // ---- Reading a peer's prefixes back ----

  /** Every line with its surrounding white space removed, as the parsing loop reads it. */
  function TrimAll(lines: seq<string>): (ts: seq<string>)
    ensures |ts| == |lines|
    ensures forall i :: 0 <= i < |lines| ==> ts[i] == Trim(lines[i])
  {
    seq(|lines|, i requires 0 <= i < |lines| => Trim(lines[i]))
  }

  /**
   * The `allowed_ip` values of the (trimmed) dump lines that follow a
   * `public_key=` line naming `target`, up to the next `public_key=` line;
   * `inTarget` tells whether the lines seen so far end inside the target's
   * section.
   */
  function PeerPrefixes(lines: seq<string>, target: string, inTarget: bool): seq<string>
  {
    if lines == [] then []
    else LinePrefix(lines[0], inTarget) + PeerPrefixes(lines[1..], target, SectionAfter(lines[0], target, inTarget))
  }

  /** Whether the dump is inside the target's section once `line` is read. */
  function SectionAfter(line: string, target: string, inTarget: bool): bool
  {
    if StartsWith(line, PUBLIC_KEY) then line[|PUBLIC_KEY|..] == target else inTarget
  }

  /** The prefix that `line` contributes: its value if it is an `allowed_ip` line of the target. */
  function LinePrefix(line: string, inTarget: bool): seq<string>
  {
    if !StartsWith(line, PUBLIC_KEY) && inTarget && StartsWith(line, ALLOWED_IP) then [line[|ALLOWED_IP|..]] else []
  }

  /** One line read: what it contributes, then the rest read in the section it leaves open. */
  lemma PeerPrefixesCons(line: string, rest: seq<string>, target: string, inTarget: bool)
    ensures PeerPrefixes([line] + rest, target, inTarget)
         == LinePrefix(line, inTarget) + PeerPrefixes(rest, target, SectionAfter(line, target, inTarget))
  {
    assert ([line] + rest)[1..] == rest;
  }

  lemma SliceCons(s: seq<string>, i: int)
    requires 0 <= i < |s|
    ensures s[i..] == [s[i]] + s[i + 1..]
  {
  }

  lemma Regroup(a: seq<string>, b: seq<string>, c: seq<string>)
    ensures (a + b) + c == a + (b + c)
  {
  }

  /** The parsing of `AllowedIpsGetForPeer`: the dump split into lines, then scanned. */
  method ParsePeerPrefixes(dump: string, target: string) returns (result: seq<string>)
    ensures result == PeerPrefixes(TrimAll(Split(dump, '\n')), target, false)
  {
    var lines := Split(dump, '\n');
    result := ScanPeerLines(lines, target);
  }

  /** The scanning loop: each line trimmed, a `public_key` line opening a section. */
  method ScanPeerLines(lines: seq<string>, target: string) returns (result: seq<string>)
    ensures result == PeerPrefixes(TrimAll(lines), target, false)
  {
    ghost var ts := TrimAll(lines);
    result := [];
    var inTargetPeer := false;
    var i := 0;
    while i < |lines|
      invariant 0 <= i <= |lines|
      invariant result + PeerPrefixes(ts[i..], target, inTargetPeer) == PeerPrefixes(ts, target, false)
    {
      var line := Trim(lines[i]);
      SliceCons(ts, i);
      PeerPrefixesCons(line, ts[i + 1..], target, inTargetPeer);
      var found, next := ScanLine(line, target, inTargetPeer);
      Regroup(result, found, PeerPrefixes(ts[i + 1..], target, next));
      result, inTargetPeer := result + found, next;
      i := i + 1;
    }
  }

  /** One trimmed line of the dump: the prefix it yields and whether the target's section is open after it. */
  method ScanLine(line: string, target: string, inTargetPeer: bool) returns (found: seq<string>, next: bool)
    ensures found == LinePrefix(line, inTargetPeer)
    ensures next == SectionAfter(line, target, inTargetPeer)
  {
    found, next := [], inTargetPeer;
    if StartsWith(line, PUBLIC_KEY) {
      var key := line[|PUBLIC_KEY|..];
      next := key == target;
    } else if inTargetPeer && StartsWith(line, ALLOWED_IP) {
      var prefix := line[|ALLOWED_IP|..];
      found := [prefix];
    }
  }

  /** A section of `allowed_ip` lines for the target reads back as its prefixes. */
  lemma {:induction false} AllowedLinesRead(ps: seq<string>, target: string)
    ensures PeerPrefixes(AllowedLines(ps) + [""], target, true) == ps
  {
    if ps != [] {
      var rest := AllowedLines(ps[1..]) + [""];
      assert AllowedLines(ps) + [""] == [ALLOWED_IP + ps[0]] + rest;
      AllowedLineRead(ps[0], rest, target);
      AllowedLinesRead(ps[1..], target);
      assert [ps[0]] + ps[1..] == ps;
    } else {
      PeerPrefixesCons("", [], target, true);
    }
  }

  /** An `allowed_ip` line inside the target's section yields its prefix and keeps the section open. */
  lemma AllowedLineRead(p: string, rest: seq<string>, target: string)
    ensures PeerPrefixes([ALLOWED_IP + p] + rest, target, true) == [p] + PeerPrefixes(rest, target, true)
  {
    var line := ALLOWED_IP + p;
    PeerPrefixesCons(line, rest, target, true);
    assert !StartsWith(line, PUBLIC_KEY) by { assert line[0] == 'a'; }
    assert line[..|ALLOWED_IP|] == ALLOWED_IP && line[|ALLOWED_IP|..] == p;
  }

  lemma KeyLineParts(key: string)
    ensures StartsWith(PUBLIC_KEY + key, PUBLIC_KEY)
    ensures (PUBLIC_KEY + key)[|PUBLIC_KEY|..] == key
  {
    var line := PUBLIC_KEY + key;
    assert line[..|PUBLIC_KEY|] == PUBLIC_KEY;
    assert line[|PUBLIC_KEY|..] == key;
  }

  lemma KeyLineUnbroken(key: string)
    requires PlainKey(key)
    ensures '\n' !in PUBLIC_KEY + key
  {
    assert forall i :: 0 <= i < |key| ==> key[i] != '\n';
  }

  /** A `public_key=` line opens the named peer's section, closing any other. */
  lemma KeyLineSwitches(key: string, target: string, rest: seq<string>, inTarget: bool)
    ensures PeerPrefixes([PUBLIC_KEY + key] + rest, target, inTarget) == PeerPrefixes(rest, target, key == target)
  {
    PeerPrefixesCons(PUBLIC_KEY + key, rest, target, inTarget);
    KeyLineParts(key);
  }

  /** The `replace_allowed_ips=true` line is neither a key nor a prefix line. */
  lemma ReplaceLineSkipped(rest: seq<string>, target: string, inTarget: bool)
    ensures PeerPrefixes([REPLACE_ALLOWED_IPS] + rest, target, inTarget) == PeerPrefixes(rest, target, inTarget)
  {
    PeerPrefixesCons(REPLACE_ALLOWED_IPS, rest, target, inTarget);
    assert !StartsWith(REPLACE_ALLOWED_IPS, PUBLIC_KEY) by { assert REPLACE_ALLOWED_IPS[0] == 'r'; }
    assert !StartsWith(REPLACE_ALLOWED_IPS, ALLOWED_IP) by { assert REPLACE_ALLOWED_IPS[0] == 'r'; }
  }

  /** The text Replace sends, as its lines. */
  lemma ReplaceLines(key: string, ks: seq<string>)
    ensures RemoveConfig(key) + Terminated(AllowedLines(ks)) == Terminated([PUBLIC_KEY + key, REPLACE_ALLOWED_IPS] + AllowedLines(ks))
  {
    TerminatedPairThen(PUBLIC_KEY + key, REPLACE_ALLOWED_IPS, AllowedLines(ks));
  }

  lemma TerminatedPairThen(x: string, y: string, rest: seq<string>)
    ensures Terminated([x, y] + rest) == Terminated([x, y]) + Terminated(rest)
  {
    var lines := [x, y] + rest;
    assert lines[1..] == [y] + rest;
    assert lines[1..][1..] == rest;
    TwoLines(x, y);
    assert Terminated(lines) == x + "\n" + (y + "\n" + Terminated(rest));
  }

  /** No white space at either end, so trimming leaves the line as it is. */
  predicate Unpadded(s: string)
  {
    s == [] || (!IsSpace(s[0]) && !IsSpace(s[|s| - 1]))
  }

  lemma {:induction false} TrimAllUnpadded(lines: seq<string>)
    requires forall i :: 0 <= i < |lines| ==> Unpadded(lines[i])
    ensures TrimAll(lines) == lines
  {
    forall i | 0 <= i < |lines|
      ensures TrimAll(lines)[i] == lines[i]
    {
      if lines[i] != [] {
        TrimPlain(lines[i]);
      }
    }
  }

  lemma KeyLineUnpadded(key: string)
    requires PlainKey(key)
    ensures Unpadded(PUBLIC_KEY + key)
  {
    var line := PUBLIC_KEY + key;
    assert line[0] == 'p';
    if key != "" {
      assert line[|line| - 1] == key[|key| - 1];
    }
  }

  lemma AllowedLineUnpadded(p: string)
    requires p != "" && !IsSpace(p[|p| - 1])
    ensures Unpadded(ALLOWED_IP + p)
  {
    var line := ALLOWED_IP + p;
    assert line[0] == 'a';
    assert line[|line| - 1] == p[|p| - 1];
  }

  lemma ReplaceLineUnpadded()
    ensures Unpadded(REPLACE_ALLOWED_IPS)
  {
    assert REPLACE_ALLOWED_IPS[0] == 'r' && REPLACE_ALLOWED_IPS[|REPLACE_ALLOWED_IPS| - 1] == 'e';
  }

  /** Every line of Replace's text is already trimmed, so the reader sees it unchanged. */
  lemma ReplaceTextTrimmed(key: string, ks: seq<string>)
    requires PlainKey(key)
    requires forall j :: 0 <= j < |ks| ==> ks[j] != "" && !IsSpace(ks[j][|ks[j]| - 1])
    ensures TrimAll([PUBLIC_KEY + key, REPLACE_ALLOWED_IPS] + AllowedLines(ks) + [""])
         == [PUBLIC_KEY + key, REPLACE_ALLOWED_IPS] + AllowedLines(ks) + [""]
  {
    var all := [PUBLIC_KEY + key, REPLACE_ALLOWED_IPS] + AllowedLines(ks) + [""];
    forall i | 0 <= i < |all|
      ensures Unpadded(all[i])
    {
      if i == 0 {
        KeyLineUnpadded(key);
      } else if i == 1 {
        ReplaceLineUnpadded();
      } else if i < |all| - 1 {
        assert all[i] == ALLOWED_IP + ks[i - 2];
        AllowedLineUnpadded(ks[i - 2]);
      } else {
        assert all[i] == "";
      }
    }
    TrimAllUnpadded(all);
  }

  /** What Replace sends for `key`, read back for `key`, is exactly the kept prefixes. */
  lemma ReplaceReadBack(key: string, prefixes: string)
    requires PlainKey(key)
    ensures PeerPrefixes(TrimAll(Split(ReplaceText(key, prefixes), '\n')), key, false) == Kept(Split(prefixes, '\n'))
  {
    var parts := Split(prefixes, '\n');
    var ks := Kept(parts);
    assert forall j :: 0 <= j < |ks| ==> ks[j] != "" && !IsSpace(ks[j][|ks[j]| - 1]) by {
      KeptPlain(parts);
    }
    calc {
      PeerPrefixes(TrimAll(Split(ReplaceText(key, prefixes), '\n')), key, false);
      { ReplaceTextSplit(key, prefixes); }
      PeerPrefixes(TrimAll([PUBLIC_KEY + key, REPLACE_ALLOWED_IPS] + AllowedLines(ks) + [""]), key, false);
      { ReplaceSectionRead(key, ks); }
      ks;
    }
  }

  /** The lines of the text Replace sends: the key line, the replace line, one line per kept prefix. */
  lemma ReplaceTextSplit(key: string, prefixes: string)
    requires PlainKey(key)
    ensures Split(ReplaceText(key, prefixes), '\n')
         == [PUBLIC_KEY + key, REPLACE_ALLOWED_IPS] + AllowedLines(Kept(Split(prefixes, '\n'))) + [""]
  {
    var ks := Kept(Split(prefixes, '\n'));
    assert forall j :: 0 <= j < |ks| ==> '\n' !in ks[j] by {
      KeptPlain(Split(prefixes, '\n'));
    }
    ReplaceLines(key, ks);
    ReplaceLinesSplit(key, ks, [PUBLIC_KEY + key, REPLACE_ALLOWED_IPS] + AllowedLines(ks));
  }

  lemma ReplaceLinesSplit(key: string, ks: seq<string>, lines: seq<string>)
    requires PlainKey(key)
    requires forall j :: 0 <= j < |ks| ==> '\n' !in ks[j]
    requires lines == [PUBLIC_KEY + key, REPLACE_ALLOWED_IPS] + AllowedLines(ks)
    ensures Split(Terminated(lines), '\n') == lines + [""]
  {
    ReplaceLinesUnbroken(key, ks);
    SplitTerminated(lines);
  }

  lemma ReplaceLinesUnbroken(key: string, ks: seq<string>)
    requires PlainKey(key)
    requires forall j :: 0 <= j < |ks| ==> '\n' !in ks[j]
    ensures forall i :: 0 <= i < |[PUBLIC_KEY + key, REPLACE_ALLOWED_IPS] + AllowedLines(ks)| ==>
      '\n' !in ([PUBLIC_KEY + key, REPLACE_ALLOWED_IPS] + AllowedLines(ks))[i]
  {
    var lines := [PUBLIC_KEY + key, REPLACE_ALLOWED_IPS] + AllowedLines(ks);
    forall i | 0 <= i < |lines|
      ensures '\n' !in lines[i]
    {
      if i == 0 {
        KeyLineUnbroken(key);
      } else if i == 1 {
        ReplaceLineUnbroken();
      } else {
        assert lines[i] == ALLOWED_IP + ks[i - 2];
        AllowedLineUnbroken(ks[i - 2]);
      }
    }
  }

  lemma ReplaceLineUnbroken()
    ensures '\n' !in REPLACE_ALLOWED_IPS
  {
  }

  lemma AllowedLineUnbroken(p: string)
    requires '\n' !in p
    ensures '\n' !in ALLOWED_IP + p
  {
  }

  /** The section Replace sends for `key`, once its lines are trimmed, reads back as its prefixes. */
  lemma ReplaceSectionRead(key: string, ks: seq<string>)
    requires PlainKey(key)
    requires forall j :: 0 <= j < |ks| ==> ks[j] != "" && !IsSpace(ks[j][|ks[j]| - 1])
    ensures PeerPrefixes(TrimAll([PUBLIC_KEY + key, REPLACE_ALLOWED_IPS] + AllowedLines(ks) + [""]), key, false) == ks
  {
    ReplaceTextTrimmed(key, ks);
    ReplaceSectionScan(key, ks);
  }

  /** The untrimmed scan of the same section. */
  lemma ReplaceSectionScan(key: string, ks: seq<string>)
    ensures PeerPrefixes([PUBLIC_KEY + key, REPLACE_ALLOWED_IPS] + AllowedLines(ks) + [""], key, false) == ks
  {
    var body := AllowedLines(ks) + [""];
    calc {
      PeerPrefixes([PUBLIC_KEY + key, REPLACE_ALLOWED_IPS] + AllowedLines(ks) + [""], key, false);
      { PairFront(PUBLIC_KEY + key, REPLACE_ALLOWED_IPS, AllowedLines(ks), [""]); }
      PeerPrefixes([PUBLIC_KEY + key] + ([REPLACE_ALLOWED_IPS] + body), key, false);
      { KeyLineSwitches(key, key, [REPLACE_ALLOWED_IPS] + body, false); }
      PeerPrefixes([REPLACE_ALLOWED_IPS] + body, key, true);
      { ReplaceLineSkipped(body, key, true); }
      PeerPrefixes(body, key, true);
      { AllowedLinesRead(ks, key); }
      ks;
    }
  }

  lemma PairFront<T>(a: T, b: T, c: seq<T>, d: seq<T>)
    ensures [a, b] + c + d == [a] + ([b] + (c + d))
  {
  }

  /** A `public_key=` line for another peer ends the target's section. */
  lemma OtherPeerEndsSection(other: string, target: string, rest: seq<string>, inTarget: bool)
    requires other != target
    ensures PeerPrefixes([PUBLIC_KEY + other] + rest, target, inTarget) == PeerPrefixes(rest, target, false)
  {
    KeyLineSwitches(other, target, rest, inTarget);
  }

  // ---- The exported functions ----

  /** `getDevice`: the device under `handle`, or WG_ERR_NOT_FOUND. */
  function GetDevice(reg: HandleRegistry<Device>, handle: int): (r: Result<Device, int>)
    reads reg
    ensures r.Ok? <==> handle in reg.objects
    ensures r.Ok? ==> r.value == reg.objects[handle]
    ensures r.Err? ==> r.error == WG_ERR_NOT_FOUND
  {
    if handle in reg.objects then Ok(reg.objects[handle]) else Err(WG_ERR_NOT_FOUND)
  }

  /** The code an IpcSet outcome maps to. */
  function SetCode(outcome: Option<string>): (code: int)
    ensures code == WG_OK <==> outcome.None?
    ensures code != WG_OK ==> code == WG_ERR_IPC_SET
  {
    if outcome.None? then WG_OK else WG_ERR_IPC_SET
  }

  method AllowedIpsInsert(reg: HandleRegistry<Device>, handle: int, key: string, prefix: string, outcome: Option<string>)
    returns (code: int)
    modifies if handle in reg.objects then {reg.objects[handle]} else {}
    ensures handle !in reg.objects ==> code == WG_ERR_NOT_FOUND
    ensures handle in reg.objects ==>
      && code == SetCode(outcome)
      && reg.objects[handle].calls == old(reg.objects[handle].calls) + [SetCall(InsertConfig(key, prefix))]
  {
    var dev := GetDevice(reg, handle);
    if dev.Err? {
      return dev.error;
    }
    var config := "public_key=" + key + "\nallowed_ip=" + prefix + "\n";
    var e := dev.value.IpcSet(config, outcome);
    code := if e.Some? then WG_ERR_IPC_SET else WG_OK;
  }

  method AllowedIpsReplaceForPeer(reg: HandleRegistry<Device>, handle: int, key: string, prefixes: string, outcome: Option<string>)
    returns (code: int)
    modifies if handle in reg.objects then {reg.objects[handle]} else {}
    ensures handle !in reg.objects ==> code == WG_ERR_NOT_FOUND
    ensures handle in reg.objects ==>
      && code == SetCode(outcome)
      && reg.objects[handle].calls == old(reg.objects[handle].calls) + [SetCall(ReplaceText(key, prefixes))]
  {
    var dev := GetDevice(reg, handle);
    if dev.Err? {
      return dev.error;
    }
    var e := ReplaceOn(dev.value, key, prefixes, outcome);
    code := if e.Some? then WG_ERR_IPC_SET else WG_OK;
  }

  /** Builds the replacing section for `key` and hands it to the device's `IpcSet`. */
  method ReplaceOn(dev: Device, key: string, prefixes: string, outcome: Option<string>) returns (e: Option<string>)
    modifies dev
    ensures e == outcome
    ensures dev.calls == old(dev.calls) + [SetCall(ReplaceText(key, prefixes))]
  {
    var config := ReplaceConfig(key, prefixes);
    e := dev.IpcSet(config, outcome);
  }

  method AllowedIpsRemoveByPeer(reg: HandleRegistry<Device>, handle: int, key: string, outcome: Option<string>)
    returns (code: int)
    modifies if handle in reg.objects then {reg.objects[handle]} else {}
    ensures handle !in reg.objects ==> code == WG_ERR_NOT_FOUND
    ensures handle in reg.objects ==>
      && code == SetCode(outcome)
      && reg.objects[handle].calls == old(reg.objects[handle].calls) + [SetCall(RemoveConfig(key))]
  {
    var dev := GetDevice(reg, handle);
    if dev.Err? {
      return dev.error;
    }
    var config := "public_key=" + key + "\nreplace_allowed_ips=true\n";
    var e := dev.value.IpcSet(config, outcome);
    code := if e.Some? then WG_ERR_IPC_SET else WG_OK;
  }

  /** `AllowedIpsGetForPeer`: None (a nil string) for an unknown handle or a failed dump. */
  method AllowedIpsGetForPeer(reg: HandleRegistry<Device>, handle: int, key: string, dump: Result<string, string>)
    returns (r: Option<string>)
    modifies if handle in reg.objects then {reg.objects[handle]} else {}
    ensures handle !in reg.objects ==> r.None?
    ensures handle in reg.objects ==>
      && reg.objects[handle].calls == old(reg.objects[handle].calls) + [GetCall]
      && (dump.Err? ==> r.None?)
      && (dump.Ok? ==> r == Some(Join(PeerPrefixes(TrimAll(Split(dump.value, '\n')), key, false), "\n")))
  {
    var dev := GetDevice(reg, handle);
    if dev.Err? {
      return None;
    }
    var config := dev.value.IpcGet(dump);
    if config.Err? {
      return None;
    }
    var result := ParsePeerPrefixes(config.value, key);
    r := Some(Join(result, "\n"));
  }
}
