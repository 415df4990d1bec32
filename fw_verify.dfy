/**
 * Drift detection of the firewall bridge (`verify.rs`): the rules the
 * database records as applied are compared with the rules the kernel lists.
 * Every rule the bridge installs carries the comment `phantom-rule-<id>`; an
 * applied rule whose tag the kernel does not list is missing, and a kernel
 * rule with that prefix that no applied rule accounts for is extra.
 *
 * The kernel listing arrives as the output of `nft -j list table`; the JSON
 * text parser is not modelled, so the listing is given as the parsed value,
 * or None when the text is not JSON.
 */
module FwVerify {
  import opened Wrappers
  import opened Tables
  import opened FwDb
  import opened Json
  import Strings

  const TAG_PREFIX := "phantom-rule-"
  const I64_MIN := -0x8000_0000_0000_0000
  const I64_MAX := 0x7FFF_FFFF_FFFF_FFFF

  /** One rule of the kernel listing; the comment is absent when none was found. */
  datatype KernelRule = KernelRule(chain: string, handle: nat, comment: Option<string>)

  datatype MissingRule = MissingRule(ruleId: int, chain: string, comment: string)
  datatype ExtraRule = ExtraRule(chain: string, handle: nat, exprSummary: string)
  datatype FirewallVerify = FirewallVerify(dbApplied: nat, kernelRules: nat, missing: seq<MissingRule>, extra: seq<ExtraRule>)
  datatype RoutingVerify = RoutingVerify(dbApplied: nat, summary: string)
  datatype VerifyResult = VerifyResult(inSync: bool, firewall: FirewallVerify, routing: RoutingVerify)

  /** The comment the bridge gives the kernel rule of DB rule `id`. */
  function Tag(id: int): string
  {
    TAG_PREFIX + Strings.IntToString(id)
  }

  // ---- The kernel listing ----

  /** The string member `key` of a JSON value, if there is one. */
  function StrMember(j: Json, key: string): (r: Option<string>)
    ensures r.Some? <==> Get(j, key).Some? && Get(j, key).value.JStr?
    ensures r.Some? ==> r.value == Get(j, key).value.s
  {
    var m := Get(j, key);
    if m.Some? then AsStr(m.value) else None
  }

  /** The last string `comment` member among the expression items. */
  function LastComment(es: seq<Json>): Option<string>
  {
    if es == [] then None
    else
      var c := StrMember(es[|es| - 1], "comment");
      if c.Some? then c else LastComment(es[..|es| - 1])
  }

  /** No comment is found exactly when no item has one. */
  lemma {:induction false} LastCommentNone(es: seq<Json>)
    ensures LastComment(es).None? <==> forall k :: 0 <= k < |es| ==> StrMember(es[k], "comment").None?
  {
    if es != [] && StrMember(es[|es| - 1], "comment").None? {
      var init := es[..|es| - 1];
      LastCommentNone(init);
      assert forall k :: 0 <= k < |init| ==> init[k] == es[k];
    }
  }

  /** A comment found is the one of an item after which no item has one. */
  lemma {:induction false} LastCommentSome(es: seq<Json>) returns (k: nat)
    requires LastComment(es).Some?
    ensures k < |es| && StrMember(es[k], "comment") == LastComment(es)
    ensures forall m :: k < m < |es| ==> StrMember(es[m], "comment").None?
  {
    if StrMember(es[|es| - 1], "comment").Some? {
      k := |es| - 1;
    } else {
      var init := es[..|es| - 1];
      k := LastCommentSome(init);
      assert forall m :: 0 <= m < |init| ==> init[m] == es[m];
    }
  }

  /** The comment of a rule: its own `comment` member first, else the last one in `expr`. */
  function RuleComment(rule: Json): (r: Option<string>)
    ensures StrMember(rule, "comment").Some? ==> r == StrMember(rule, "comment")
  {
    var own := StrMember(rule, "comment");
    if own.Some? then own
    else
      var expr := Get(rule, "expr");
      if expr.Some? && AsArray(expr.value).Some? then LastComment(expr.value.items) else None
  }

  /** The rule a `rule` item describes: chain "" and handle 0 when absent or ill-typed. */
  function RuleOf(rule: Json): KernelRule
  {
    var chain := StrMember(rule, "chain");
    var handle := Get(rule, "handle");
    KernelRule(chain.GetOr(""), if handle.Some? && AsU64(handle.value).Some? then AsU64(handle.value).value else 0,
               RuleComment(rule))
  }

  /** The `nftables` array of the listing; nothing for invalid JSON or a missing array. */
  function ListingItems(parsed: Option<Json>): (r: seq<Json>)
    ensures parsed.None? ==> r == []
    ensures parsed.Some? && (Get(parsed.value, "nftables").None? || !Get(parsed.value, "nftables").value.JArr?) ==> r == []
  {
    if parsed.None? then []
    else
      var n := Get(parsed.value, "nftables");
      if n.Some? && AsArray(n.value).Some? then n.value.items else []
  }

  /** The rules of the items that have a `rule` member, in order. */
  function RulesOf(items: seq<Json>): (r: seq<KernelRule>)
    ensures |r| <= |items|
  {
    if items == [] then []
    else
      var last := Get(items[|items| - 1], "rule");
      RulesOf(items[..|items| - 1]) + (if last.Some? then [RuleOf(last.value)] else [])
  }

  /** `parse_kernel_rules`. */
  function KernelRulesOf(parsed: Option<Json>): seq<KernelRule>
  {
    RulesOf(ListingItems(parsed))
  }

  /** The loop over `expr` that keeps the last comment seen. */
  method ExprComment(es: seq<Json>) returns (comment: Option<string>)
    ensures comment == LastComment(es)
  {
    comment := None;
    var i := 0;
    while i < |es|
      invariant 0 <= i <= |es|
      invariant comment == LastComment(es[..i])
    {
      var c := StrMember(es[i], "comment");
      if c.Some? {
        comment := c;
      }
      assert es[..i + 1][..i] == es[..i];
      i := i + 1;
    }
    assert es[..i] == es;
  }

  /** `parse_kernel_rules`: one pass over the items, pushing a rule per `rule` item. */
  method ParseKernelRules(parsed: Option<Json>) returns (rules: seq<KernelRule>)
    ensures rules == KernelRulesOf(parsed)
  {
    rules := [];
    var items := ListingItems(parsed);
    var i := 0;
    while i < |items|
      invariant 0 <= i <= |items|
      invariant rules == RulesOf(items[..i])
    {
      var rule := Get(items[i], "rule");
      RulesStep(items, i);
      if rule.Some? {
        var kr := ReadRule(rule.value);
        rules := rules + [kr];
      }
      i := i + 1;
    }
    assert items[..i] == items;
  }

  /** The body of the loop for one `rule` item: chain, handle (0 when absent) and comment. */
  method ReadRule(rule: Json) returns (kr: KernelRule)
    ensures kr == RuleOf(rule)
  {
    var comment := StrMember(rule, "comment");
    if comment.None? {
      var expr := Get(rule, "expr");
      if expr.Some? && AsArray(expr.value).Some? {
        comment := ExprComment(expr.value.items);
      }
    }
    var chain := StrMember(rule, "chain");
    var handle := Get(rule, "handle");
    var h := if handle.Some? && AsU64(handle.value).Some? then AsU64(handle.value).value else 0;
    kr := KernelRule(chain.GetOr(""), h, comment);
  }

  lemma RulesStep(items: seq<Json>, i: int)
    requires 0 <= i < |items|
    ensures var rule := Get(items[i], "rule");
            RulesOf(items[..i + 1]) == RulesOf(items[..i]) + (if rule.Some? then [RuleOf(rule.value)] else [])
  {
    assert items[..i + 1][..i] == items[..i];
  }

  // ---- The comparison ----

  /** `kernel_rules.iter().any(|kr| kr.comment == Some(tag))`. */
  function AnyTagged(krs: seq<KernelRule>, tag: string): (b: bool)
    ensures b <==> exists k :: 0 <= k < |krs| && krs[k].comment == Some(tag)
  {
    if krs == [] then false
    else if krs[0].comment == Some(tag) then true
    else
      assert forall k :: 1 <= k < |krs| ==> krs[k] == krs[1..][k - 1];
      AnyTagged(krs[1..], tag)
  }

  /** `db_applied.iter().any(|r| r.id == id)`. */
  function AnyId(applied: seq<Entry<FirewallRule>>, id: int): (b: bool)
    ensures b <==> exists k :: 0 <= k < |applied| && applied[k].id == id
  {
    if applied == [] then false
    else if applied[0].id == id then true
    else
      assert forall k :: 1 <= k < |applied| ==> applied[k] == applied[1..][k - 1];
      AnyId(applied[1..], id)
  }

  /** The id a tagged comment names, as `parse::<i64>` reads its suffix. */
  function TaggedId(c: string): Option<int>
    requires Strings.StartsWith(c, TAG_PREFIX)
  {
    Strings.ParseRustInt(c[|TAG_PREFIX|..], I64_MIN, I64_MAX)
  }

  /** A kernel rule is extra when it carries the tag prefix and no applied rule has the id it names. */
  predicate IsExtra(kr: KernelRule, applied: seq<Entry<FirewallRule>>)
  {
    && kr.comment.Some? && Strings.StartsWith(kr.comment.value, TAG_PREFIX)
    && (TaggedId(kr.comment.value).None? || !AnyId(applied, TaggedId(kr.comment.value).value))
  }

  /** The kernel listing carries the tag of rule `id`. */
  predicate Present(krs: seq<KernelRule>, id: int)
  {
    AnyTagged(krs, Tag(id))
  }

  function MissingOf(applied: seq<Entry<FirewallRule>>, krs: seq<KernelRule>): (r: seq<MissingRule>)
    ensures |r| <= |applied|
  {
    if applied == [] then []
    else
      var e := applied[|applied| - 1];
      MissingOf(applied[..|applied| - 1], krs) +
        (if Present(krs, e.id) then [] else [MissingRule(e.id, e.row.def.chain, Tag(e.id))])
  }

  function ExtraOf(krs: seq<KernelRule>, applied: seq<Entry<FirewallRule>>): (r: seq<ExtraRule>)
    ensures |r| <= |krs|
  {
    if krs == [] then []
    else
      var kr := krs[|krs| - 1];
      ExtraOf(krs[..|krs| - 1], applied) +
        (if IsExtra(kr, applied) then [ExtraRule(kr.chain, kr.handle, kr.comment.value)] else [])
  }

  /** The missing-rule loop of `verify_rules`. */
  method FindMissing(applied: seq<Entry<FirewallRule>>, krs: seq<KernelRule>) returns (missing: seq<MissingRule>)
    ensures missing == MissingOf(applied, krs)
  {
    missing := [];
    var i := 0;
    while i < |applied|
      invariant 0 <= i <= |applied|
      invariant missing == MissingOf(applied[..i], krs)
    {
      var tag := Tag(applied[i].id);
      var found := AnyTagged(krs, tag);
      if !found {
        missing := missing + [MissingRule(applied[i].id, applied[i].row.def.chain, tag)];
      }
      assert applied[..i + 1][..i] == applied[..i];
      i := i + 1;
    }
    assert applied[..i] == applied;
  }

  /**
   * The extra-rule loop of `verify_rules`: a rule is tracked when it has no
   * tag, or its tag names an applied rule; untracked tagged rules are extra.
   */
  method FindExtra(krs: seq<KernelRule>, applied: seq<Entry<FirewallRule>>) returns (extra: seq<ExtraRule>)
    ensures extra == ExtraOf(krs, applied)
  {
    extra := [];
    var i := 0;
    while i < |krs|
      invariant 0 <= i <= |krs|
      invariant extra == ExtraOf(krs[..i], applied)
    {
      var kr := krs[i];
      var isTracked :=
        if kr.comment.Some? && Strings.StartsWith(kr.comment.value, TAG_PREFIX) then
          var id := TaggedId(kr.comment.value);
          id.Some? && AnyId(applied, id.value)
        else true;
      if !isTracked {
        if kr.comment.Some? && Strings.StartsWith(kr.comment.value, TAG_PREFIX) {
          extra := extra + [ExtraRule(kr.chain, kr.handle, kr.comment.value)];
        }
      }
      assert krs[..i + 1][..i] == krs[..i];
      i := i + 1;
    }
    assert krs[..i] == krs;
  }

  /** The report `verify_rules` returns for a database image and a kernel listing. */
  function Report(img: FwImage, listing: Option<Json>): VerifyResult
  {
    var applied := img.AppliedFirewallRules();
    var krs := KernelRulesOf(listing);
    var missing := MissingOf(applied, krs);
    var extra := ExtraOf(krs, applied);
    var rt := |img.AppliedRoutingRules()|;
    VerifyResult(missing == [] && extra == [],
                 FirewallVerify(|applied|, |krs|, missing, extra),
                 RoutingVerify(rt, Strings.IntToString(rt) + " routing rules applied"))
  }

  /** `verify_rules`; `listing` is the kernel's answer to `list table inet phantom`. */
  method VerifyRules(db: FirewallDB, listing: Option<Json>) returns (r: VerifyResult)
    requires db.Valid()
    ensures r == Report(db.Image(), listing)
  {
    var applied := db.Image().AppliedFirewallRules();
    var krs := ParseKernelRules(listing);
    var missing := FindMissing(applied, krs);
    var extra := FindExtra(krs, applied);
    var rt := db.Image().AppliedRoutingRules();
    r := VerifyResult(missing == [] && extra == [],
                      FirewallVerify(|applied|, |krs|, missing, extra),
                      RoutingVerify(|rt|, Strings.IntToString(|rt|) + " routing rules applied"));
  }

  // ---- What the report means ----

  lemma {:induction false} MissingFrom(applied: seq<Entry<FirewallRule>>, krs: seq<KernelRule>, m: MissingRule) returns (i: nat)
    requires m in MissingOf(applied, krs)
    ensures i < |applied| && !Present(krs, applied[i].id)
    ensures m == MissingRule(applied[i].id, applied[i].row.def.chain, Tag(applied[i].id))
  {
    var n := |applied| - 1;
    var init, e := applied[..n], applied[n];
    if m in MissingOf(init, krs) {
      i := MissingFrom(init, krs, m);
      assert init[i] == applied[i];
    } else {
      assert !Present(krs, e.id) && m == MissingRule(e.id, e.row.def.chain, Tag(e.id));
      i := n;
    }
  }

  lemma {:induction false} MissingInto(applied: seq<Entry<FirewallRule>>, krs: seq<KernelRule>, i: int)
    requires 0 <= i < |applied| && !Present(krs, applied[i].id)
    ensures MissingRule(applied[i].id, applied[i].row.def.chain, Tag(applied[i].id)) in MissingOf(applied, krs)
  {
    var init := applied[..|applied| - 1];
    if i < |applied| - 1 {
      assert init[i] == applied[i];
      MissingInto(init, krs, i);
    }
  }

  /** A rule is reported missing exactly when it is applied and no kernel rule carries its tag. */
  lemma MissingMember(applied: seq<Entry<FirewallRule>>, krs: seq<KernelRule>, m: MissingRule)
    ensures m in MissingOf(applied, krs) <==>
      exists i :: 0 <= i < |applied| && !Present(krs, applied[i].id) &&
                  m == MissingRule(applied[i].id, applied[i].row.def.chain, Tag(applied[i].id))
  {
    if m in MissingOf(applied, krs) {
      var i := MissingFrom(applied, krs, m);
    }
    if exists i :: 0 <= i < |applied| && !Present(krs, applied[i].id) &&
                   m == MissingRule(applied[i].id, applied[i].row.def.chain, Tag(applied[i].id)) {
      var i :| 0 <= i < |applied| && !Present(krs, applied[i].id) &&
               m == MissingRule(applied[i].id, applied[i].row.def.chain, Tag(applied[i].id));
      MissingInto(applied, krs, i);
    }
  }

  /** A kernel rule is reported extra exactly when it carries the prefix and names no applied rule. */
  lemma {:induction false} ExtraMember(krs: seq<KernelRule>, applied: seq<Entry<FirewallRule>>, x: ExtraRule)
    ensures x in ExtraOf(krs, applied) <==>
      exists k :: 0 <= k < |krs| && IsExtra(krs[k], applied) &&
                  x == ExtraRule(krs[k].chain, krs[k].handle, krs[k].comment.value)
  {
    if krs != [] {
      var init := krs[..|krs| - 1];
      ExtraMember(init, applied, x);
      assert forall k :: 0 <= k < |init| ==> init[k] == krs[k];
    }
  }

  lemma {:induction false} NoneMissing(applied: seq<Entry<FirewallRule>>, krs: seq<KernelRule>)
    requires forall i :: 0 <= i < |applied| ==> Present(krs, applied[i].id)
    ensures MissingOf(applied, krs) == []
  {
    if applied != [] {
      var init := applied[..|applied| - 1];
      assert forall i :: 0 <= i < |init| ==> init[i] == applied[i];
      NoneMissing(init, krs);
    }
  }

  lemma {:induction false} AbsentMissing(applied: seq<Entry<FirewallRule>>, krs: seq<KernelRule>, i: int)
    requires 0 <= i < |applied| && !Present(krs, applied[i].id)
    ensures MissingOf(applied, krs) != []
  {
    var init := applied[..|applied| - 1];
    if i < |applied| - 1 {
      assert init[i] == applied[i];
      AbsentMissing(init, krs, i);
    }
  }

  /** Nothing is missing exactly when every applied rule's tag is in the kernel listing. */
  lemma MissingEmpty(applied: seq<Entry<FirewallRule>>, krs: seq<KernelRule>)
    ensures MissingOf(applied, krs) == [] <==> forall i :: 0 <= i < |applied| ==> Present(krs, applied[i].id)
  {
    if forall i :: 0 <= i < |applied| ==> Present(krs, applied[i].id) {
      NoneMissing(applied, krs);
    } else {
      var i :| 0 <= i < |applied| && !Present(krs, applied[i].id);
      AbsentMissing(applied, krs, i);
    }
  }

  lemma {:induction false} ExtraEmpty(krs: seq<KernelRule>, applied: seq<Entry<FirewallRule>>)
    ensures ExtraOf(krs, applied) == [] <==> forall k :: 0 <= k < |krs| ==> !IsExtra(krs[k], applied)
  {
    if krs != [] {
      var init := krs[..|krs| - 1];
      ExtraEmpty(init, applied);
      assert forall k :: 0 <= k < |init| ==> init[k] == krs[k];
    }
  }

  /**
   * `in_sync` holds exactly when every applied rule's tag is in the kernel
   * and no kernel rule is extra.
   */
  lemma InSyncIff(img: FwImage, listing: Option<Json>)
    ensures var applied := img.AppliedFirewallRules();
      var krs := KernelRulesOf(listing);
      Report(img, listing).inSync <==>
        (forall i :: 0 <= i < |applied| ==> Present(krs, applied[i].id)) &&
        (forall k :: 0 <= k < |krs| ==> !IsExtra(krs[k], applied))
  {
    MissingEmpty(img.AppliedFirewallRules(), KernelRulesOf(listing));
    ExtraEmpty(KernelRulesOf(listing), img.AppliedFirewallRules());
  }

  /** The counts: the applied rows of the firewall table, and the parsed kernel rules. */
  lemma ReportCounts(img: FwImage, listing: Option<Json>)
    ensures Report(img, listing).firewall.dbApplied == |Table<FirewallRule>.Select(img.fwRules.entries, FwApplied)|
    ensures Report(img, listing).firewall.kernelRules == |KernelRulesOf(listing)|
    ensures Report(img, listing).routing.dbApplied == |Table<RoutingRule>.Select(img.rtRules.entries, RtApplied)|
  {
    var a := img.AppliedFirewallRules();
    assert |multiset(a)| == |a|;
    var b := img.AppliedRoutingRules();
    assert |multiset(b)| == |b|;
  }

  /** The tag of a rule names that rule: its suffix parses back to the id. */
  lemma TagNamesId(id: int)
    requires I64_MIN <= id <= I64_MAX
    ensures Strings.StartsWith(Tag(id), TAG_PREFIX) && TaggedId(Tag(id)) == Some(id)
  {
    var t := Tag(id);
    assert t[..|TAG_PREFIX|] == TAG_PREFIX && t[|TAG_PREFIX|..] == Strings.IntToString(id);
    Strings.ParseRustIntRender(id, I64_MIN, I64_MAX);
  }

  /** A kernel rule carrying the tag of an applied rule is never extra. */
  lemma TaggedNotExtra(kr: KernelRule, applied: seq<Entry<FirewallRule>>, i: nat)
    requires i < |applied| && I64_MIN <= applied[i].id <= I64_MAX
    requires kr.comment == Some(Tag(applied[i].id))
    ensures !IsExtra(kr, applied)
  {
    TagNamesId(applied[i].id);
  }

  /**
   * A kernel that lists exactly the tags of the applied rules, next to
   * rules without the prefix, is in sync with the database.
   */
  lemma MirroredInSync(img: FwImage, listing: Option<Json>)
    requires forall i :: 0 <= i < |img.fwRules.entries| ==> img.fwRules.entries[i].id <= I64_MAX
    requires var applied := img.AppliedFirewallRules();
      forall i :: 0 <= i < |applied| ==> Present(KernelRulesOf(listing), applied[i].id)
    requires var applied := img.AppliedFirewallRules();
      var krs := KernelRulesOf(listing);
      forall k :: 0 <= k < |krs| && krs[k].comment.Some? && Strings.StartsWith(krs[k].comment.value, TAG_PREFIX) ==>
        exists i :: 0 <= i < |applied| && krs[k].comment.value == Tag(applied[i].id)
    requires img.fwRules.Valid()
    ensures Report(img, listing).inSync
  {
    var applied := img.AppliedFirewallRules();
    var krs := KernelRulesOf(listing);
    forall k | 0 <= k < |krs| ensures !IsExtra(krs[k], applied) {
      if krs[k].comment.Some? && Strings.StartsWith(krs[k].comment.value, TAG_PREFIX) {
        var i :| 0 <= i < |applied| && krs[k].comment.value == Tag(applied[i].id);
        assert applied[i] in img.fwRules.entries;
        assert 1 <= applied[i].id;
        TaggedNotExtra(krs[k], applied, i);
      }
    }
    InSyncIff(img, listing);
  }

  /**
   * A tag with a leading zero names an applied rule without being its tag:
   * the rule is reported missing and the kernel rule is not reported extra.
   */
  lemma LeadingZeroTag(e: Entry<FirewallRule>)
    requires e.id == 42
    ensures var krs := [KernelRule("input", 5, Some("phantom-rule-042"))];
      MissingOf([e], krs) == [MissingRule(42, e.row.def.chain, "phantom-rule-42")] && ExtraOf(krs, [e]) == []
  {
    var krs := [KernelRule("input", 5, Some("phantom-rule-042"))];
    assert Tag(42) == "phantom-rule-42" by { assert Strings.IntToString(42) == "42"; }
    assert "phantom-rule-042" != "phantom-rule-42" by { assert "phantom-rule-042"[13] != "phantom-rule-42"[13]; }
    assert !Present(krs, 42);
    assert [e][..0] == [];
    assert MissingOf([e], krs) == [MissingRule(42, e.row.def.chain, "phantom-rule-42")];
    assert "phantom-rule-042"[|TAG_PREFIX|..] == "042";
    assert Strings.DigitsValue("042") == 42 by {
      assert "042"[..2] == "04" && "04"[..1] == "0" && "0"[..0] == "";
    }
    assert TaggedId("phantom-rule-042") == Some(42);
    assert AnyId([e], 42);
    assert !IsExtra(krs[0], [e]);
    assert krs[..0] == [];
  }
}
