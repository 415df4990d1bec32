/**
 * The preset rule groups of the firewall bridge (`presets.rs`): each preset
 * creates one named group, with a JSON metadata text recording its
 * parameters, and then inserts a fixed list of routing and firewall rules
 * into it, in order. The lists are the functions below; the presets are the
 * methods that perform the writes on an open `FirewallDB`.
 */
module FwPresets {
  import opened Wrappers
  import opened Tables
  import opened Ordering
  import opened FwDb
  import opened Json
  import opened FwState
  import opened Machine

  const AF_INET := 2
  const AF_INET6 := 10

  // ---- The rule lists ----

  /**
   * A forwarding pair between two interfaces: `out` accepts traffic from
   * `from` to `to`, and `back` accepts the established or related return
   * traffic the other way.
   */
  predicate ForwardPair(out: FwRuleDef, back: FwRuleDef, from: string, to: string)
  {
    && out.chain == "forward" && out.ruleType == "accept" && out.inIface == from && out.outIface == to
    && out.stateMatch == ""
    && back.chain == "forward" && back.ruleType == "accept" && back.inIface == to && back.outIface == from
    && back.stateMatch == "established,related"
  }

  /** `preset_vpn`: listen port, forwarding both ways, and masquerade of the tunnel subnet. */
  function VpnRules(gid: int, wgIface: string, wgPort: U16, wgSubnet: string, outIface: string): (r: seq<FwRuleDef>)
    ensures |r| == 4 && DefsInGroup(r, gid) && Numbered(r)
    ensures forall i :: 0 <= i < |r| ==> r[i].family == AF_INET
    ensures r[0].chain == "input" && r[0].ruleType == "accept" && r[0].dport == wgPort && r[0].proto == "udp"
    ensures ForwardPair(r[1], r[2], wgIface, outIface)
    ensures r[3].chain == "postrouting" && r[3].ruleType == "masquerade" && r[3].source == wgSubnet
    ensures r[3].outIface == outIface
  {
    [FwRuleDef(gid, "input", "accept", AF_INET, "udp", wgPort, 0, "", "", "", "", "", "wg-listen-port", 0),
     FwRuleDef(gid, "forward", "accept", AF_INET, "", 0, 0, "", "", wgIface, outIface, "", "wg-forward-out", 1),
     FwRuleDef(gid, "forward", "accept", AF_INET, "", 0, 0, "", "", outIface, wgIface, "established,related", "wg-forward-return", 2),
     FwRuleDef(gid, "postrouting", "masquerade", AF_INET, "", 0, 0, wgSubnet, "", "", outIface, "", "wg-nat", 3)]
  }

  /** `preset_multihop`'s routing rules: the table, the source policy, the default route, and a fwmark policy when a mark is set. */
  function MultihopRoutes(gid: int, name: string, outIface: string, fwmark: U32, tableId: U32, subnet: string): (r: seq<RtRuleDef>)
    ensures |r| == if fwmark > 0 then 4 else 3
    ensures RoutesInGroup(r, gid)
    ensures forall i :: 0 <= i < |r| ==> r[i].tableName == name && r[i].tableId == AsI32(tableId)
  {
    var t := AsI32(tableId);
    [RtRuleDef(gid, "table", "", "", name, t, 0, "", "", 0),
     RtRuleDef(gid, "policy", subnet, "", name, t, 100, "", "", 0),
     RtRuleDef(gid, "route", "", "", name, t, 0, "default", outIface, 0)]
    + (if fwmark > 0 then [RtRuleDef(gid, "policy", "", "", name, t, 200, "", "", AsI32(fwmark))] else [])
  }

  /** `preset_multihop`'s firewall rules: forwarding both ways between the two interfaces. */
  function MultihopRules(gid: int, inIface: string, outIface: string): (r: seq<FwRuleDef>)
    ensures |r| == 2 && DefsInGroup(r, gid) && Numbered(r)
    ensures forall i :: 0 <= i < |r| ==> r[i].family == AF_INET
    ensures ForwardPair(r[0], r[1], inIface, outIface)
  {
    [FwRuleDef(gid, "forward", "accept", AF_INET, "", 0, 0, "", "", inIface, outIface, "", "multihop-forward", 0),
     FwRuleDef(gid, "forward", "accept", AF_INET, "", 0, 0, "", "", outIface, inIface, "established,related", "multihop-return", 1)]
  }

  /**
   * `preset_kill_switch`: the output accepts, the wstunnel accept when a port
   * is given, the output drop, then the input chain. The position counter
   * advances by one per rule, so the positions after the optional rule move
   * up by `w`.
   */
  function KillSwitchRules(gid: int, wgPort: U16, wstunnelPort: U16, wgIface: string): (r: seq<FwRuleDef>)
    ensures |r| == if wstunnelPort > 0 then 11 else 10
    ensures DefsInGroup(r, gid) && Numbered(r)
    ensures r[0].chain == "output" && r[0].outIface == "lo"
    ensures r[|r| - 1].chain == "input" && r[|r| - 1].ruleType == "drop"
    ensures r[|r| - 4].chain == "output" && r[|r| - 4].ruleType == "drop"
    ensures forall i :: 0 <= i < |r| && r[i].chain == "output" && r[i].ruleType == "accept" ==> i < |r| - 4
  {
    var w := if wstunnelPort > 0 then 1 else 0;
    [FwRuleDef(gid, "output", "accept", AF_INET, "", 0, 0, "", "", "", "lo", "", "ks-lo-out", 0),
     FwRuleDef(gid, "output", "accept", AF_INET, "", 0, 0, "", "", "", "", "established,related", "ks-ct-out", 1),
     FwRuleDef(gid, "output", "accept", AF_INET, "udp", wgPort, 0, "", "", "", "", "", "ks-wg-out", 2),
     FwRuleDef(gid, "output", "accept", AF_INET, "", 0, 0, "", "", "", wgIface, "", "ks-wg-iface", 3),
     FwRuleDef(gid, "output", "accept", AF_INET, "udp", 67, 0, "", "", "", "", "", "ks-dhcp-67", 4),
     FwRuleDef(gid, "output", "accept", AF_INET, "udp", 68, 0, "", "", "", "", "", "ks-dhcp-68", 5)]
    + (if wstunnelPort > 0
       then [FwRuleDef(gid, "output", "accept", AF_INET, "tcp", wstunnelPort, 0, "", "", "", "", "", "ks-wst-out", 6)]
       else [])
    + [FwRuleDef(gid, "output", "drop", AF_INET, "", 0, 0, "", "", "", "", "", "ks-drop-out", 6 + w),
       FwRuleDef(gid, "input", "accept", AF_INET, "", 0, 0, "", "", "lo", "", "", "ks-lo-in", 7 + w),
       FwRuleDef(gid, "input", "accept", AF_INET, "", 0, 0, "", "", "", "", "established,related", "ks-ct-in", 8 + w),
       FwRuleDef(gid, "input", "drop", AF_INET, "", 0, 0, "", "", "", "", "", "ks-drop-in", 9 + w)]
  }

  /** The wstunnel accept is among the kill-switch rules exactly when a wstunnel port is given. */
  lemma KillSwitchWstunnel(gid: int, wgPort: U16, wstunnelPort: U16, wgIface: string)
    ensures var r := KillSwitchRules(gid, wgPort, wstunnelPort, wgIface);
      wstunnelPort > 0 <==> exists i :: 0 <= i < |r| && r[i].comment == "ks-wst-out"
  {
    var r := KillSwitchRules(gid, wgPort, wstunnelPort, wgIface);
    if wstunnelPort > 0 {
      assert r[6].comment == "ks-wst-out";
    } else {
      assert forall i :: 0 <= i < |r| ==> r[i].comment != "ks-wst-out";
    }
  }

  /** `preset_dns_protection`: port 53 through the tunnel and the loopback, dropped elsewhere. */
  function DnsRules(gid: int, wgIface: string): (r: seq<FwRuleDef>)
    ensures |r| == 5 && DefsInGroup(r, gid) && Numbered(r)
    ensures forall i :: 0 <= i < |r| ==> r[i].chain == "output" && r[i].dport == 53
    ensures r[0].ruleType == "accept" && r[0].outIface == wgIface && r[1].ruleType == "accept" && r[1].outIface == wgIface
    ensures r[3].ruleType == "drop" && r[4].ruleType == "drop"
  {
    [FwRuleDef(gid, "output", "accept", AF_INET, "udp", 53, 0, "", "", "", wgIface, "", "dns-wg-udp", 0),
     FwRuleDef(gid, "output", "accept", AF_INET, "tcp", 53, 0, "", "", "", wgIface, "", "dns-wg-tcp", 1),
     FwRuleDef(gid, "output", "accept", AF_INET, "udp", 53, 0, "", "", "", "lo", "", "dns-lo-udp", 2),
     FwRuleDef(gid, "output", "drop", AF_INET, "udp", 53, 0, "", "", "", "", "", "dns-block-udp", 3),
     FwRuleDef(gid, "output", "drop", AF_INET, "tcp", 53, 0, "", "", "", "", "", "dns-block-tcp", 4)]
  }

  const IPV6_CHAINS: seq<string> := ["input", "output", "forward"]

  /** `preset_ipv6_block`: the rule its loop inserts for chain number `i`. */
  function Ipv6Rule(gid: int, i: nat): FwRuleDef
    requires i < |IPV6_CHAINS|
  {
    FwRuleDef(gid, IPV6_CHAINS[i], "drop", AF_INET6, "", 0, 0, "", "", "", "", "", "ipv6-" + IPV6_CHAINS[i], i)
  }

  function Ipv6Rules(gid: int): (r: seq<FwRuleDef>)
    ensures |r| == 3 && DefsInGroup(r, gid) && Numbered(r)
    ensures forall i :: 0 <= i < |r| ==> r[i].family == AF_INET6 && r[i].ruleType == "drop"
    ensures r[0].chain == "input" && r[1].chain == "output" && r[2].chain == "forward"
  {
    seq(|IPV6_CHAINS|, i requires 0 <= i < |IPV6_CHAINS| => Ipv6Rule(gid, i))
  }

  // ---- The metadata, a `json!` object (serde_json keeps its keys in order) ----

  function VpnMetadata(wgIface: string, wgPort: U16, wgSubnet: string, outIface: string): Json
  {
    JObj([("out_iface", JStr(outIface)), ("preset", JStr("vpn")), ("wg_iface", JStr(wgIface)),
          ("wg_port", JNum(wgPort)), ("wg_subnet", JStr(wgSubnet))])
  }

  function MultihopMetadata(inIface: string, outIface: string, fwmark: U32, tableId: U32, subnet: string): Json
  {
    JObj([("fwmark", JNum(fwmark)), ("in_iface", JStr(inIface)), ("out_iface", JStr(outIface)),
          ("preset", JStr("multihop")), ("subnet", JStr(subnet)), ("table_id", JNum(tableId))])
  }

  function KillSwitchMetadata(wgPort: U16, wstunnelPort: U16, wgIface: string): Json
  {
    JObj([("preset", JStr("kill_switch")), ("wg_iface", JStr(wgIface)), ("wg_port", JNum(wgPort)),
          ("wstunnel_port", JNum(wstunnelPort))])
  }

  function DnsMetadata(wgIface: string): Json
  {
    JObj([("preset", JStr("dns_protection")), ("wg_iface", JStr(wgIface))])
  }

  function Ipv6Metadata(): Json
  {
    JObj([("preset", JStr("ipv6_block"))])
  }

  // ---- The effect of the writes ----

  /** The id the next created group receives. */
  function NextGroupId(img: FwImage): int
  {
    img.groups.lastId + 1
  }

  /** The group table after `create_rule_group`: the new group is enabled and stamped `now`. */
  function Created(img: FwImage, name: string, groupType: string, priority: int, metadata: string, now: int): FwImage
    requires img.groups.Valid()
  {
    img.(groups := img.groups.Insert(RuleGroup(name, groupType, true, priority, metadata, now, now)).0)
  }

  /** The rows the inserts of `defs` append: ids after `lastId`, not applied, handle 0. */
  function NewFwRows(lastId: int, defs: seq<FwRuleDef>, now: int): seq<Entry<FirewallRule>>
  {
    seq(|defs|, i requires 0 <= i < |defs| => Entry(lastId + 1 + i, FirewallRule(defs[i], false, 0, now)))
  }

  function NewRtRows(lastId: int, defs: seq<RtRuleDef>, now: int): seq<Entry<RoutingRule>>
  {
    seq(|defs|, i requires 0 <= i < |defs| => Entry(lastId + 1 + i, RoutingRule(defs[i], false, now)))
  }

  function WithFwRules(img: FwImage, defs: seq<FwRuleDef>, now: int): FwImage
  {
    img.(fwRules := Table(img.fwRules.entries + NewFwRows(img.fwRules.lastId, defs, now), img.fwRules.lastId + |defs|))
  }

  function WithRtRules(img: FwImage, defs: seq<RtRuleDef>, now: int): FwImage
  {
    img.(rtRules := Table(img.rtRules.entries + NewRtRows(img.rtRules.lastId, defs, now), img.rtRules.lastId + |defs|))
  }

  /** The database after a preset that created its group and inserted `rts` and `fws`. */
  function PresetImage(img: FwImage, name: string, groupType: string, priority: int, metadata: string,
                       rts: seq<RtRuleDef>, fws: seq<FwRuleDef>, now: int): FwImage
    requires img.groups.Valid()
  {
    WithFwRules(WithRtRules(Created(img, name, groupType, priority, metadata, now), rts, now), fws, now)
  }

  predicate DefsInGroup(fws: seq<FwRuleDef>, gid: int)
  {
    forall i :: 0 <= i < |fws| ==> fws[i].groupId == gid
  }

  predicate RoutesInGroup(rts: seq<RtRuleDef>, gid: int)
  {
    forall i :: 0 <= i < |rts| ==> rts[i].groupId == gid
  }

  /** The positions number the rules from 0 in insertion order. */
  predicate Numbered(fws: seq<FwRuleDef>)
  {
    forall i :: 0 <= i < |fws| ==> fws[i].position == i
  }

  // ---- The inserts ----

  /** One `insert_firewall_rule` per definition, in order. */
  method InsertFwRules(db: FirewallDB, defs: seq<FwRuleDef>, now: int)
    requires db.Valid() && forall i :: 0 <= i < |defs| ==> defs[i].groupId in db.groups.Ids()
    modifies db
    ensures db.Valid() && db.Image() == WithFwRules(old(db.Image()), defs, now)
  {
    ghost var img0 := db.Image();
    var i := 0;
    while i < |defs|
      invariant 0 <= i <= |defs|
      invariant db.Valid() && db.Image() == WithFwRules(img0, defs[..i], now)
    {
      FwInsertStep(img0, db.Image(), defs, i, now);
      var _ := db.InsertFirewallRule(defs[i], now);
      i := i + 1;
    }
    assert defs[..i] == defs;
  }

  /** One `insert_routing_rule` per definition, in order. */
  method InsertRtRules(db: FirewallDB, defs: seq<RtRuleDef>, now: int)
    requires db.Valid() && forall i :: 0 <= i < |defs| ==> defs[i].groupId in db.groups.Ids()
    modifies db
    ensures db.Valid() && db.Image() == WithRtRules(old(db.Image()), defs, now)
  {
    ghost var img0 := db.Image();
    var i := 0;
    while i < |defs|
      invariant 0 <= i <= |defs|
      invariant db.Valid() && db.Image() == WithRtRules(img0, defs[..i], now)
    {
      RtInsertStep(img0, db.Image(), defs, i, now);
      var _ := db.InsertRoutingRule(defs[i], now);
      i := i + 1;
    }
    assert defs[..i] == defs;
  }

  lemma FwRowsSnoc(img: FwImage, defs: seq<FwRuleDef>, i: nat, now: int)
    requires i < |defs|
    ensures var before := WithFwRules(img, defs[..i], now);
      WithFwRules(img, defs[..i + 1], now) ==
        before.(fwRules := Table(before.fwRules.entries + [Entry(before.fwRules.lastId + 1, FirewallRule(defs[i], false, 0, now))],
                                 before.fwRules.lastId + 1))
  {
  }

  lemma RtRowsSnoc(img: FwImage, defs: seq<RtRuleDef>, i: nat, now: int)
    requires i < |defs|
    ensures var before := WithRtRules(img, defs[..i], now);
      WithRtRules(img, defs[..i + 1], now) ==
        before.(rtRules := Table(before.rtRules.entries + [Entry(before.rtRules.lastId + 1, RoutingRule(defs[i], false, now))],
                                 before.rtRules.lastId + 1))
  {
  }

  /** The next insert of the loop succeeds and appends the next row. */
  lemma FwInsertStep(img0: FwImage, cur: FwImage, defs: seq<FwRuleDef>, i: nat, now: int)
    requires i < |defs| && defs[i].groupId in img0.groups.Ids()
    requires cur == WithFwRules(img0, defs[..i], now) && cur.WellFormed()
    ensures cur.InsertFirewallRule(defs[i], now).Ok?
    ensures cur.InsertFirewallRule(defs[i], now).value.0 == WithFwRules(img0, defs[..i + 1], now)
  {
  }

  lemma RtInsertStep(img0: FwImage, cur: FwImage, defs: seq<RtRuleDef>, i: nat, now: int)
    requires i < |defs| && defs[i].groupId in img0.groups.Ids()
    requires cur == WithRtRules(img0, defs[..i], now) && cur.WellFormed()
    ensures cur.InsertRoutingRule(defs[i], now).Ok?
    ensures cur.InsertRoutingRule(defs[i], now).value.0 == WithRtRules(img0, defs[..i + 1], now)
  {
  }

  /** `create_rule_group` as every preset calls it; a taken name is a DbWrite failure. */
  method CreateGroup(db: FirewallDB, name: string, groupType: string, priority: int, metadata: Json, now: int)
    returns (r: Result<int, Failure>)
    requires db.Valid()
    modifies db
    ensures db.Valid()
    ensures r.Err? <==> old(db.Image()).GetRuleGroup(name).Ok?
    ensures r.Err? ==> r.error == Failure(DbWrite, "create_rule_group: " + UNIQUE_NAME) && db.Image() == old(db.Image())
    ensures r.Ok? ==>
      && r.value == NextGroupId(old(db.Image())) && r.value in db.groups.Ids()
      && db.Image() == Created(old(db.Image()), name, groupType, priority, Serialize(metadata), now)
  {
    var g := db.CreateRuleGroup(name, groupType, priority, Serialize(metadata), now);
    if g.Err? {
      return Err(Failure(DbWrite, g.error));
    }
    r := Ok(g.value.id);
  }

  /** The inserts after the group exists: its routing rules, then its firewall rules. */
  method Populate(db: FirewallDB, gid: int, rts: seq<RtRuleDef>, fws: seq<FwRuleDef>, now: int)
    requires db.Valid() && gid in db.groups.Ids() && RoutesInGroup(rts, gid) && DefsInGroup(fws, gid)
    modifies db
    ensures db.Valid() && db.Image() == WithFwRules(WithRtRules(old(db.Image()), rts, now), fws, now)
  {
    InsertRtRules(db, rts, now);
    InsertFwRules(db, fws, now);
  }

  /** `preset_vpn`. */
  method PresetVpn(db: FirewallDB, name: string, wgIface: string, wgPort: U16, wgSubnet: string, outIface: string, now: int)
    returns (r: Result<(), Failure>)
    requires db.Valid()
    modifies db
    ensures db.Valid()
    ensures r.Err? <==> old(db.Image()).GetRuleGroup(name).Ok?
    ensures r.Err? ==> r.error == Failure(DbWrite, "create_rule_group: " + UNIQUE_NAME) && db.Image() == old(db.Image())
    ensures r.Ok? ==> db.Image() == PresetImage(old(db.Image()), name, "vpn", 100,
      Serialize(VpnMetadata(wgIface, wgPort, wgSubnet, outIface)), [],
      VpnRules(NextGroupId(old(db.Image())), wgIface, wgPort, wgSubnet, outIface), now)
  {
    var g := CreateGroup(db, name, "vpn", 100, VpnMetadata(wgIface, wgPort, wgSubnet, outIface), now);
    if g.Err? {
      return Err(g.error);
    }
    Populate(db, g.value, [], VpnRules(g.value, wgIface, wgPort, wgSubnet, outIface), now);
    r := Ok(());
  }

  /** `preset_multihop`. */
  method PresetMultihop(db: FirewallDB, name: string, inIface: string, outIface: string, fwmark: U32, tableId: U32,
                        subnet: string, now: int)
    returns (r: Result<(), Failure>)
    requires db.Valid()
    modifies db
    ensures db.Valid()
    ensures r.Err? <==> old(db.Image()).GetRuleGroup(name).Ok?
    ensures r.Err? ==> r.error == Failure(DbWrite, "create_rule_group: " + UNIQUE_NAME) && db.Image() == old(db.Image())
    ensures r.Ok? ==> db.Image() == PresetImage(old(db.Image()), name, "multihop", 80,
      Serialize(MultihopMetadata(inIface, outIface, fwmark, tableId, subnet)),
      MultihopRoutes(NextGroupId(old(db.Image())), name, outIface, fwmark, tableId, subnet),
      MultihopRules(NextGroupId(old(db.Image())), inIface, outIface), now)
  {
    var g := CreateGroup(db, name, "multihop", 80, MultihopMetadata(inIface, outIface, fwmark, tableId, subnet), now);
    if g.Err? {
      return Err(g.error);
    }
    Populate(db, g.value, MultihopRoutes(g.value, name, outIface, fwmark, tableId, subnet),
             MultihopRules(g.value, inIface, outIface), now);
    r := Ok(());
  }

  /** `preset_kill_switch`: the group name is fixed. */
  method PresetKillSwitch(db: FirewallDB, wgPort: U16, wstunnelPort: U16, wgIface: string, now: int)
    returns (r: Result<(), Failure>)
    requires db.Valid()
    modifies db
    ensures db.Valid()
    ensures r.Err? <==> old(db.Image()).GetRuleGroup("kill-switch").Ok?
    ensures r.Err? ==> r.error == Failure(DbWrite, "create_rule_group: " + UNIQUE_NAME) && db.Image() == old(db.Image())
    ensures r.Ok? ==> db.Image() == PresetImage(old(db.Image()), "kill-switch", "kill_switch", 10,
      Serialize(KillSwitchMetadata(wgPort, wstunnelPort, wgIface)), [],
      KillSwitchRules(NextGroupId(old(db.Image())), wgPort, wstunnelPort, wgIface), now)
  {
    var g := CreateGroup(db, "kill-switch", "kill_switch", 10, KillSwitchMetadata(wgPort, wstunnelPort, wgIface), now);
    if g.Err? {
      return Err(g.error);
    }
    Populate(db, g.value, [], KillSwitchRules(g.value, wgPort, wstunnelPort, wgIface), now);
    r := Ok(());
  }

  /** `preset_dns_protection`: the group name is fixed. */
  method PresetDnsProtection(db: FirewallDB, wgIface: string, now: int) returns (r: Result<(), Failure>)
    requires db.Valid()
    modifies db
    ensures db.Valid()
    ensures r.Err? <==> old(db.Image()).GetRuleGroup("dns-protection").Ok?
    ensures r.Err? ==> r.error == Failure(DbWrite, "create_rule_group: " + UNIQUE_NAME) && db.Image() == old(db.Image())
    ensures r.Ok? ==> db.Image() == PresetImage(old(db.Image()), "dns-protection", "dns_protection", 20,
      Serialize(DnsMetadata(wgIface)), [], DnsRules(NextGroupId(old(db.Image())), wgIface), now)
  {
    var g := CreateGroup(db, "dns-protection", "dns_protection", 20, DnsMetadata(wgIface), now);
    if g.Err? {
      return Err(g.error);
    }
    Populate(db, g.value, [], DnsRules(g.value, wgIface), now);
    r := Ok(());
  }

  /** `preset_ipv6_block`: the group name is fixed; its loop inserts one drop per chain. */
  method PresetIpv6Block(db: FirewallDB, now: int) returns (r: Result<(), Failure>)
    requires db.Valid()
    modifies db
    ensures db.Valid()
    ensures r.Err? <==> old(db.Image()).GetRuleGroup("ipv6-block").Ok?
    ensures r.Err? ==> r.error == Failure(DbWrite, "create_rule_group: " + UNIQUE_NAME) && db.Image() == old(db.Image())
    ensures r.Ok? ==> db.Image() == PresetImage(old(db.Image()), "ipv6-block", "ipv6_block", 5,
      Serialize(Ipv6Metadata()), [], Ipv6Rules(NextGroupId(old(db.Image()))), now)
  {
    var g := CreateGroup(db, "ipv6-block", "ipv6_block", 5, Ipv6Metadata(), now);
    if g.Err? {
      return Err(g.error);
    }
    Populate(db, g.value, [], Ipv6Rules(g.value), now);
    r := Ok(());
  }

  // ---- What the stored preset reads back as ----

  lemma {:induction false} FwInsertsWellFormed(img: FwImage, defs: seq<FwRuleDef>, n: nat, now: int)
    requires img.WellFormed() && n <= |defs|
    requires forall i :: 0 <= i < |defs| ==> defs[i].groupId in img.groups.Ids()
    ensures WithFwRules(img, defs[..n], now).WellFormed()
  {
    if n == 0 {
      assert NewFwRows(img.fwRules.lastId, defs[..0], now) == [];
      assert WithFwRules(img, defs[..0], now) == img;
    } else {
      FwInsertsWellFormed(img, defs, n - 1, now);
      FwInsertStep(img, WithFwRules(img, defs[..n - 1], now), defs, n - 1, now);
    }
  }

  lemma {:induction false} RtInsertsWellFormed(img: FwImage, defs: seq<RtRuleDef>, n: nat, now: int)
    requires img.WellFormed() && n <= |defs|
    requires forall i :: 0 <= i < |defs| ==> defs[i].groupId in img.groups.Ids()
    ensures WithRtRules(img, defs[..n], now).WellFormed()
  {
    if n == 0 {
      assert NewRtRows(img.rtRules.lastId, defs[..0], now) == [];
      assert WithRtRules(img, defs[..0], now) == img;
    } else {
      RtInsertsWellFormed(img, defs, n - 1, now);
      RtInsertStep(img, WithRtRules(img, defs[..n - 1], now), defs, n - 1, now);
    }
  }

  /** The created group is the only one with its name, and its id is the next one. */
  lemma CreatedGroup(img: FwImage, name: string, groupType: string, priority: int, metadata: string, now: int)
    requires img.WellFormed() && img.GetRuleGroup(name).Err?
    ensures var c := Created(img, name, groupType, priority, metadata, now);
      && c.WellFormed() && NextGroupId(img) in c.groups.Ids() && NextGroupId(img) !in img.groups.Ids()
      && c.GetRuleGroup(name) == Ok(Entry(NextGroupId(img), RuleGroup(name, groupType, true, priority, metadata, now, now)))
  {
    var u := img.CreateRuleGroup(name, groupType, priority, metadata, now);
    assert u.value.0 == Created(img, name, groupType, priority, metadata, now);
  }

  /**
   * After a preset on a database without a group of that name: the database
   * is consistent, the group reads back with its columns, and its rules read
   * back as the inserted definitions, in insertion order, not yet applied.
   */
  lemma PresetListing(img: FwImage, name: string, groupType: string, priority: int, metadata: string,
                      rts: seq<RtRuleDef>, fws: seq<FwRuleDef>, now: int)
    requires img.WellFormed() && img.GetRuleGroup(name).Err?
    requires RoutesInGroup(rts, NextGroupId(img)) && DefsInGroup(fws, NextGroupId(img)) && Numbered(fws)
    ensures var out := PresetImage(img, name, groupType, priority, metadata, rts, fws, now);
      && out.WellFormed()
      && out.GetRuleGroup(name) == Ok(Entry(NextGroupId(img), RuleGroup(name, groupType, true, priority, metadata, now, now)))
      && out.FirewallRulesForGroup(NextGroupId(img)) == NewFwRows(img.fwRules.lastId, fws, now)
      && out.RoutingRulesForGroup(NextGroupId(img)) == NewRtRows(img.rtRules.lastId, rts, now)
  {
    var gid := NextGroupId(img);
    var c := Created(img, name, groupType, priority, metadata, now);
    CreatedGroup(img, name, groupType, priority, metadata, now);
    RtInsertsWellFormed(c, rts, |rts|, now);
    assert rts[..|rts|] == rts;
    var cr := WithRtRules(c, rts, now);
    FwInsertsWellFormed(cr, fws, |fws|, now);
    assert fws[..|fws|] == fws;
    var out := WithFwRules(cr, fws, now);
    assert out.GetRuleGroup(name) == c.GetRuleGroup(name) by {
      assert out.groups == c.groups;
      UniqueNamed(out, name, c.GetRuleGroup(name).value);
    }
    FwListing(img, c, cr, out, fws, now);
    RtListing(img, c, cr, out, rts, now);
  }

  /** Two lookups by a unique name find the same row. */
  lemma UniqueNamed(img: FwImage, name: string, e: Entry<RuleGroup>)
    requires img.WellFormed() && e in img.groups.entries && e.row.name == name
    ensures img.GetRuleGroup(name) == Ok(e)
  {
    var g := img.GetRuleGroup(name).value;
    var i :| 0 <= i < |img.groups.entries| && img.groups.entries[i] == g;
    var j :| 0 <= j < |img.groups.entries| && img.groups.entries[j] == e;
  }

  lemma FwListing(img: FwImage, c: FwImage, cr: FwImage, out: FwImage, fws: seq<FwRuleDef>, now: int)
    requires img.WellFormed() && NextGroupId(img) !in img.groups.Ids()
    requires c.fwRules == img.fwRules && cr.fwRules == c.fwRules
    requires DefsInGroup(fws, NextGroupId(img)) && Numbered(fws)
    requires out == WithFwRules(cr, fws, now)
    ensures out.FirewallRulesForGroup(NextGroupId(img)) == NewFwRows(img.fwRules.lastId, fws, now)
  {
    var gid := NextGroupId(img);
    var rows := NewFwRows(img.fwRules.lastId, fws, now);
    Table<FirewallRule>.SelectAppend(img.fwRules.entries, rows, FwInGroup(gid));
    Table<FirewallRule>.SelectNone(img.fwRules.entries, FwInGroup(gid));
    Table<FirewallRule>.SelectAll(rows, FwInGroup(gid));
    assert Table<FirewallRule>.Select(out.fwRules.entries, FwInGroup(gid)) == rows;
    assert SortedBy(rows, FwGroupKey) by {
      forall i, j | 0 <= i < j < |rows| ensures KeyLe(FwGroupKey(rows[i]), FwGroupKey(rows[j])) {
        KeyLeInts(i, rows[i].id, j, rows[j].id);
      }
    }
    SortBySorted(rows, FwGroupKey);
  }

  lemma RtListing(img: FwImage, c: FwImage, cr: FwImage, out: FwImage, rts: seq<RtRuleDef>, now: int)
    requires img.WellFormed() && NextGroupId(img) !in img.groups.Ids()
    requires c.rtRules == img.rtRules && out.rtRules == cr.rtRules && out.rtRules.Valid()
    requires RoutesInGroup(rts, NextGroupId(img))
    requires cr == WithRtRules(c, rts, now)
    ensures out.RoutingRulesForGroup(NextGroupId(img)) == NewRtRows(img.rtRules.lastId, rts, now)
  {
    var gid := NextGroupId(img);
    var rows := NewRtRows(img.rtRules.lastId, rts, now);
    Table<RoutingRule>.SelectAppend(img.rtRules.entries, rows, RtInGroup(gid));
    Table<RoutingRule>.SelectNone(img.rtRules.entries, RtInGroup(gid));
    Table<RoutingRule>.SelectAll(rows, RtInGroup(gid));
  }

  /** The vpn metadata records the preset's name and its parameters. */
  lemma VpnMetadataFields(wgIface: string, wgPort: U16, wgSubnet: string, outIface: string)
    ensures var m := VpnMetadata(wgIface, wgPort, wgSubnet, outIface);
      && Get(m, "preset") == Some(JStr("vpn")) && Get(m, "wg_port") == Some(JNum(wgPort))
      && Get(m, "wg_iface") == Some(JStr(wgIface)) && Get(m, "wg_subnet") == Some(JStr(wgSubnet))
      && Get(m, "out_iface") == Some(JStr(outIface))
  {
    var fs := VpnMetadata(wgIface, wgPort, wgSubnet, outIface).fields;
    var f1, f2, f3, f4 := fs[1..], fs[2..], fs[3..], fs[4..];
    assert f2 == f1[1..] && f3 == f2[1..] && f4 == f3[1..];
    LookupHead(fs, "out_iface");
    LookupSkip(fs, "preset");
    LookupHead(f1, "preset");
    LookupSkip(fs, "wg_iface");
    LookupSkip(f1, "wg_iface");
    LookupHead(f2, "wg_iface");
    LookupSkip(fs, "wg_port");
    LookupSkip(f1, "wg_port");
    LookupSkip(f2, "wg_port");
    LookupHead(f3, "wg_port");
    LookupSkip(fs, "wg_subnet");
    LookupSkip(f1, "wg_subnet");
    LookupSkip(f2, "wg_subnet");
    LookupSkip(f3, "wg_subnet");
    LookupHead(f4, "wg_subnet");
  }

  /**
   * Enabled groups are applied in ascending priority: a group of smaller
   * priority is listed before one of larger priority, so ipv6-block (5)
   * precedes kill-switch (10), dns-protection (20), multihop (80) and vpn (100).
   */
  lemma EnabledByPriority(img: FwImage, i: nat, j: nat)
    requires i < |img.EnabledGroups()| && j < |img.EnabledGroups()|
    requires img.EnabledGroups()[i].row.priority < img.EnabledGroups()[j].row.priority
    ensures i < j
  {
  }

  /** Among enabled groups of one priority, names are listed in ascending order. */
  lemma EnabledByName(img: FwImage, i: nat, j: nat)
    requires i < |img.EnabledGroups()| && j < |img.EnabledGroups()|
    requires img.EnabledGroups()[i].row.priority == img.EnabledGroups()[j].row.priority
    requires img.EnabledGroups()[i].row.name != img.EnabledGroups()[j].row.name
    requires StrLe(img.EnabledGroups()[i].row.name, img.EnabledGroups()[j].row.name)
    ensures i < j
  {
    var r := img.EnabledGroups();
    var gi, gj := r[i].row, r[j].row;
    if j < i {
      assert KeyLe(GroupKey(r[j]), GroupKey(r[i]));
      KeyLeIntStr(gj.priority, gj.name, gi.priority, gi.name);
      StrLeAntisym(gi.name, gj.name);
    }
  }
}
