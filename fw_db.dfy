/**
 * The firewall bridge's SQLite store (`FirewallDB`): the singleton config
 * row, the rule groups, and the firewall and routing rules that belong to a
 * group. `FwImage` is the content of the database file; its functions are
 * the queries and the effect of each write, and the class `FirewallDB` is
 * the open connection whose methods perform the writes.
 */
module FwDb {
  import opened Wrappers
  import opened Tables
  import opened Ordering
  import Strings

  const SCHEMA_VERSION := 1

  /** SQLite's and rusqlite's texts for the errors the model produces. */
  const NO_ROWS := "Query returned no rows"
  const UNIQUE_NAME := "UNIQUE constraint failed: rule_groups.name"
  const FOREIGN_KEY := "FOREIGN KEY constraint failed"

  /** The three flag columns `set_config_flag` may write. */
  const CONFIG_FLAGS: seq<string> := ["ip_forward_enabled", "ipv6_blocked", "kill_switch_active"]

  datatype ConfigRow = ConfigRow(
    state: string, ipForwardEnabled: bool, ipv6Blocked: bool, killSwitchActive: bool, updatedAt: int)

  datatype RuleGroup = RuleGroup(
    name: string, groupType: string, enabled: bool, priority: int,
    metadata: string, createdAt: int, updatedAt: int)

  /** The columns a caller of `insert_firewall_rule` supplies. */
  datatype FwRuleDef = FwRuleDef(
    groupId: int, chain: string, ruleType: string, family: int, proto: string,
    dport: int, sport: int, source: string, destination: string,
    inIface: string, outIface: string, stateMatch: string, comment: string, position: int)

  datatype FirewallRule = FirewallRule(def: FwRuleDef, applied: bool, nftHandle: int, createdAt: int)

  /** The columns a caller of `insert_routing_rule` supplies. */
  datatype RtRuleDef = RtRuleDef(
    groupId: int, ruleType: string, fromNetwork: string, toNetwork: string,
    tableName: string, tableId: int, priority: int, destination: string,
    device: string, fwmark: int)

  datatype RoutingRule = RoutingRule(def: RtRuleDef, applied: bool, createdAt: int)

  /** The config row the schema's column defaults produce. */
  function DefaultConfig(now: int): ConfigRow
  {
    ConfigRow("initialized", false, false, false, now)
  }

  // Sort keys of the `ORDER BY` clauses.

  function GroupKey(e: Entry<RuleGroup>): Key { [I(e.row.priority), S(e.row.name)] }
  function FwGroupKey(e: Entry<FirewallRule>): Key { [I(e.row.def.position), I(e.id)] }
  function FwAllKey(e: Entry<FirewallRule>): Key { [I(e.row.def.groupId), I(e.row.def.position), I(e.id)] }
  function FwAppliedKey(e: Entry<FirewallRule>): Key { [I(e.row.def.groupId), I(e.row.def.position)] }
  function RtAppliedKey(e: Entry<RoutingRule>): Key { [I(e.row.def.groupId), I(e.id)] }

  // Row predicates and row updates of the `WHERE` and `SET` clauses.

  function Enabled(g: RuleGroup): bool { g.enabled }
  function NameIs(name: string): RuleGroup -> bool { (g: RuleGroup) => g.name == name }
  function SetEnabled(enabled: bool, now: int): RuleGroup -> RuleGroup { (g: RuleGroup) => g.(enabled := enabled, updatedAt := now) }
  function FwInGroup(gid: int): FirewallRule -> bool { (r: FirewallRule) => r.def.groupId == gid }
  function RtInGroup(gid: int): RoutingRule -> bool { (r: RoutingRule) => r.def.groupId == gid }
  function FwApplied(r: FirewallRule): bool { r.applied }
  function RtApplied(r: RoutingRule): bool { r.applied }
  function FwAll(r: FirewallRule): bool { true }
  function RtAll(r: RoutingRule): bool { true }
  function SetFwApplied(applied: bool, handle: int): FirewallRule -> FirewallRule { (r: FirewallRule) => r.(applied := applied, nftHandle := handle) }
  function SetRtApplied(applied: bool): RoutingRule -> RoutingRule { (r: RoutingRule) => r.(applied := applied) }

  ghost predicate UniqueNames(es: seq<Entry<RuleGroup>>)
  {
    forall i, j :: 0 <= i < |es| && 0 <= j < |es| && es[i].row.name == es[j].row.name ==> i == j
  }

  /** The first group named `name`. */
  function FindGroup(es: seq<Entry<RuleGroup>>, name: string): (r: Option<Entry<RuleGroup>>)
    ensures r.Some? ==> r.value in es && r.value.row.name == name
    ensures r.None? <==> forall i :: 0 <= i < |es| ==> es[i].row.name != name
  {
    if es == [] then None
    else if es[0].row.name == name then Some(es[0])
    else
      var r := FindGroup(es[1..], name);
      assert forall i :: 1 <= i < |es| ==> es[i] == es[1..][i - 1];
      r
  }

  /** The content of the database file. */
  datatype FwImage = FwImage(
    userVersion: int,
    config: Option<ConfigRow>,
    groups: Table<RuleGroup>,
    fwRules: Table<FirewallRule>,
    rtRules: Table<RoutingRule>)
  {
    /** The table constraints: id order, unique group names, and both foreign keys. */
    ghost predicate WellFormed()
    {
      && groups.Valid() && fwRules.Valid() && rtRules.Valid()
      && UniqueNames(groups.entries)
      && (forall i :: 0 <= i < |fwRules.entries| ==> fwRules.entries[i].row.def.groupId in groups.Ids())
      && (forall i :: 0 <= i < |rtRules.entries| ==> rtRules.entries[i].row.def.groupId in groups.Ids())
    }

    /** `migrate`: the idempotent DDL runs only below the schema version; data is kept. */
    function Migrate(): (r: FwImage)
      ensures r.userVersion == if userVersion < SCHEMA_VERSION then SCHEMA_VERSION else userVersion
      ensures r.userVersion >= SCHEMA_VERSION
      ensures r.config == config && r.groups == groups && r.fwRules == fwRules && r.rtRules == rtRules
    {
      if userVersion < SCHEMA_VERSION then this.(userVersion := SCHEMA_VERSION) else this
    }

    // ---- Config ----

    /** `INSERT OR IGNORE` of the config row with its defaults. */
    function InitConfig(now: int): (r: FwImage)
      ensures r.config.Some?
      ensures config.Some? ==> r == this
      ensures config.None? ==> r == this.(config := Some(DefaultConfig(now)))
    {
      if config.Some? then this else this.(config := Some(DefaultConfig(now)))
    }

    function GetConfig(): (r: Result<ConfigRow, string>)
      ensures r.Ok? <==> config.Some?
      ensures r.Ok? ==> r.value == config.value
      ensures r.Err? ==> r.error == "get_config: " + NO_ROWS
    {
      if config.Some? then Ok(config.value) else Err("get_config: " + NO_ROWS)
    }

    /** `UPDATE config SET state`; without a config row nothing changes. */
    function SetState(state: string, now: int): (r: FwImage)
      ensures config.None? ==> r == this
      ensures config.Some? ==> r.config == Some(config.value.(state := state, updatedAt := now))
      ensures r.(config := config) == this
    {
      if config.Some? then this.(config := Some(config.value.(state := state, updatedAt := now))) else this
    }

    /** `set_config_flag`: only the three flag columns are accepted. */
    function SetConfigFlag(column: string, value: bool, now: int): (r: Result<FwImage, string>)
      ensures r.Err? <==> column !in CONFIG_FLAGS
      ensures r.Err? ==> r.error == "Unknown config column: " + column
      ensures r.Ok? && config.None? ==> r.value == this
      ensures r.Ok? && config.Some? ==> r.value.config.Some? && r.value.config.value.updatedAt == now
      ensures r.Ok? && config.Some? ==> r.value.config.value.state == config.value.state
      ensures r.Ok? && config.Some? ==>
        && r.value.config.value.ipForwardEnabled == (if column == "ip_forward_enabled" then value else config.value.ipForwardEnabled)
        && r.value.config.value.ipv6Blocked == (if column == "ipv6_blocked" then value else config.value.ipv6Blocked)
        && r.value.config.value.killSwitchActive == (if column == "kill_switch_active" then value else config.value.killSwitchActive)
      ensures r.Ok? ==> r.value.(config := config) == this
    {
      if column !in CONFIG_FLAGS then Err("Unknown config column: " + column)
      else if config.None? then Ok(this)
      else
        var c := config.value.(updatedAt := now);
        var c' :=
          if column == "ip_forward_enabled" then c.(ipForwardEnabled := value)
          else if column == "ipv6_blocked" then c.(ipv6Blocked := value)
          else c.(killSwitchActive := value);
        Ok(this.(config := Some(c')))
    }

    // ---- Rule groups ----

    function GetRuleGroup(name: string): (r: Result<Entry<RuleGroup>, string>)
      ensures r.Ok? <==> exists i :: 0 <= i < |groups.entries| && groups.entries[i].row.name == name
      ensures r.Ok? ==> r.value in groups.entries && r.value.row.name == name
      ensures r.Err? ==> r.error == "get_rule_group '" + name + "': " + NO_ROWS
    {
      var f := FindGroup(groups.entries, name);
      if f.Some? then Ok(f.value) else Err("get_rule_group '" + name + "': " + NO_ROWS)
    }

    function GetRuleGroupById(id: int): (r: Result<Entry<RuleGroup>, string>)
      requires groups.Valid()
      ensures r.Ok? <==> id in groups.Ids()
      ensures r.Ok? ==> r.value == Entry(id, groups.Find(id).value)
      ensures r.Err? ==> r.error == "get_rule_group_by_id " + Strings.IntToString(id) + ": " + NO_ROWS
    {
      var f := groups.Find(id);
      if f.Some? then Ok(Entry(id, f.value)) else Err("get_rule_group_by_id " + Strings.IntToString(id) + ": " + NO_ROWS)
    }

    /** `INSERT` of a group (enabled, by the column default), then the stored row. */
    function CreateRuleGroup(name: string, groupType: string, priority: int, metadata: string, now: int)
      : (r: Result<(FwImage, Entry<RuleGroup>), string>)
      requires WellFormed()
      ensures r.Err? <==> GetRuleGroup(name).Ok?
      ensures r.Err? ==> r.error == "create_rule_group: " + UNIQUE_NAME
      ensures r.Ok? ==> r.value.0.WellFormed()
      ensures r.Ok? ==> r.value.1.row == RuleGroup(name, groupType, true, priority, metadata, now, now)
      ensures r.Ok? ==> r.value.1.id !in groups.Ids() && r.value.0.groups.Ids() == groups.Ids() + {r.value.1.id}
      ensures r.Ok? ==> r.value.0.GetRuleGroup(name) == Ok(r.value.1)
      ensures r.Ok? ==> r.value.0 == this.(groups := groups.Insert(r.value.1.row).0)
    {
      if FindGroup(groups.entries, name).Some? then Err("create_rule_group: " + UNIQUE_NAME)
      else
        var row := RuleGroup(name, groupType, true, priority, metadata, now, now);
        var (t, id) := groups.Insert(row);
        var img := this.(groups := t);
        InsertIds(groups, row);
        assert UniqueNames(t.entries) by {
          forall i, j | 0 <= i < |t.entries| && 0 <= j < |t.entries| && t.entries[i].row.name == t.entries[j].row.name
            ensures i == j
          {
            if i < |groups.entries| { assert t.entries[i] == groups.entries[i]; }
            if j < |groups.entries| { assert t.entries[j] == groups.entries[j]; }
          }
        }
        FindGroupLast(groups.entries, Entry(id, row));
        Ok((img, Entry(id, row)))
    }

    /** `list_rule_groups`: every group, ordered by (priority, name). */
    function ListRuleGroups(): (r: seq<Entry<RuleGroup>>)
      ensures SortedBy(r, GroupKey)
      ensures multiset(r) == multiset(groups.entries)
    {
      SortByCorrect(groups.entries, GroupKey);
      SortBy(groups.entries, GroupKey)
    }

    /** `enabled_groups`: the enabled groups, ordered by (priority, name). */
    function EnabledGroups(): (r: seq<Entry<RuleGroup>>)
      ensures SortedBy(r, GroupKey)
      ensures multiset(r) == multiset(Table<RuleGroup>.Select(groups.entries, Enabled))
      ensures forall i :: 0 <= i < |r| ==> r[i] in groups.entries && r[i].row.enabled
      ensures forall i :: 0 <= i < |groups.entries| && groups.entries[i].row.enabled ==> groups.entries[i] in r
    {
      SelectSorted(groups.entries, Enabled, GroupKey);
      SortBy(Table<RuleGroup>.Select(groups.entries, Enabled), GroupKey)
    }

    /** `set_group_enabled`: an absent name is an error. */
    function SetGroupEnabled(name: string, enabled: bool, now: int): (r: Result<FwImage, string>)
      requires WellFormed()
      ensures r.Err? <==> GetRuleGroup(name).Err?
      ensures r.Err? ==> r.error == "Rule group not found: " + name
      ensures r.Ok? ==> r.value.WellFormed() && r.value.groups.Ids() == groups.Ids()
      ensures r.Ok? ==> r.value == this.(groups := groups.UpdateWhere(NameIs(name), SetEnabled(enabled, now)))
      ensures r.Ok? ==> (r.value.GetRuleGroup(name).Ok? &&
                         r.value.GetRuleGroup(name).value ==
                           Entry(GetRuleGroup(name).value.id, GetRuleGroup(name).value.row.(enabled := enabled, updatedAt := now)))
    {
      var f := FindGroup(groups.entries, name);
      if f.None? then Err("Rule group not found: " + name)
      else
        var t := groups.UpdateWhere(NameIs(name), SetEnabled(enabled, now));
        var img := this.(groups := t);
        assert forall i :: 0 <= i < |t.entries| ==> t.entries[i].row.name == groups.entries[i].row.name;
        assert UniqueNames(t.entries);
        var k :| 0 <= k < |groups.entries| && groups.entries[k] == f.value;
        assert t.entries[k] == Entry(f.value.id, f.value.row.(enabled := enabled, updatedAt := now));
        assert FindGroup(t.entries, name) == Some(t.entries[k]) by {
          var g := FindGroup(t.entries, name);
          var m :| 0 <= m < |t.entries| && t.entries[m] == g.value;
        }
        Ok(img)
    }

    /** `delete_rule_group`: an absent name is an error; the group's rules go with it. */
    function DeleteRuleGroup(name: string): (r: Result<FwImage, string>)
      requires WellFormed()
      ensures r.Err? <==> GetRuleGroup(name).Err?
      ensures r.Err? ==> r.error == "Rule group not found: " + name
      ensures r.Ok? ==> r.value.WellFormed() && r.value.GetRuleGroup(name).Err?
      ensures r.Ok? ==> r.value.groups.Ids() == groups.Ids() - {GetRuleGroup(name).value.id}
      ensures r.Ok? ==> forall i :: 0 <= i < |fwRules.entries| ==>
                (fwRules.entries[i] in r.value.fwRules.entries <==> fwRules.entries[i].row.def.groupId != GetRuleGroup(name).value.id)
      ensures r.Ok? ==> forall i :: 0 <= i < |rtRules.entries| ==>
                (rtRules.entries[i] in r.value.rtRules.entries <==> rtRules.entries[i].row.def.groupId != GetRuleGroup(name).value.id)
      ensures r.Ok? ==> forall i :: 0 <= i < |r.value.fwRules.entries| ==> r.value.fwRules.entries[i] in fwRules.entries
      ensures r.Ok? ==> forall i :: 0 <= i < |r.value.rtRules.entries| ==> r.value.rtRules.entries[i] in rtRules.entries
      ensures r.Ok? ==> r.value.config == config && r.value.userVersion == userVersion
    {
      var f := FindGroup(groups.entries, name);
      if f.None? then Err("Rule group not found: " + name)
      else
        var gid := f.value.id;
        var img := FwImage(userVersion, config, groups.DeleteWhere(NameIs(name)),
          fwRules.DeleteWhere(FwInGroup(gid)), rtRules.DeleteWhere(RtInGroup(gid)));
        DeleteGroupCascade(this, name, gid);
        Ok(img)
    }

    // ---- Firewall rules ----

    /** `insert_firewall_rule`: not applied, handle 0; the group must exist. */
    function InsertFirewallRule(def: FwRuleDef, now: int): (r: Result<(FwImage, int), string>)
      requires WellFormed()
      ensures r.Err? <==> def.groupId !in groups.Ids()
      ensures r.Err? ==> r.error == "insert_firewall_rule: " + FOREIGN_KEY
      ensures r.Ok? ==> r.value.0.WellFormed() && r.value.1 !in fwRules.Ids() && r.value.1 == fwRules.lastId + 1
      ensures r.Ok? ==> r.value.0.fwRules.entries == fwRules.entries + [Entry(r.value.1, FirewallRule(def, false, 0, now))]
      ensures r.Ok? ==> r.value.0 == this.(fwRules := r.value.0.fwRules) && r.value.0.fwRules.lastId == r.value.1
    {
      if def.groupId !in groups.Ids() then Err("insert_firewall_rule: " + FOREIGN_KEY)
      else
        var (t, id) := fwRules.Insert(FirewallRule(def, false, 0, now));
        Ok((this.(fwRules := t), id))
    }

    /** `update_fw_rule_applied`: sets both columns of the rule with that id. */
    function UpdateFwRuleApplied(id: int, applied: bool, handle: int): (r: FwImage)
      requires WellFormed()
      ensures r.WellFormed()
      ensures r == this.(fwRules := fwRules.UpdateId(id, SetFwApplied(applied, handle)))
      ensures id in fwRules.Ids() ==> r.fwRules.Find(id) == Some(fwRules.Find(id).value.(applied := applied, nftHandle := handle))
    {
      var t := fwRules.UpdateId(id, SetFwApplied(applied, handle));
      assert forall i :: 0 <= i < |t.entries| ==> t.entries[i].row.def == fwRules.entries[i].row.def;
      FindUpdated(fwRules, id, SetFwApplied(applied, handle));
      this.(fwRules := t)
    }

    /** `delete_firewall_rule`: deleting an absent id is not an error. */
    function DeleteFirewallRule(id: int): (r: FwImage)
      requires WellFormed()
      ensures r.WellFormed() && r == this.(fwRules := fwRules.Delete(id))
      ensures id !in r.fwRules.Ids() && r.fwRules.Ids() == fwRules.Ids() - {id}
      ensures id !in fwRules.Ids() ==> r == this
    {
      var t := fwRules.Delete(id);
      forall i | 0 <= i < |t.entries| ensures t.entries[i].row.def.groupId in groups.Ids() {
        var k :| 0 <= k < |fwRules.entries| && fwRules.entries[k] == t.entries[i];
      }
      this.(fwRules := t)
    }

    /** `firewall_rules_for_group`: the group's rules, ordered by (position, id). */
    function FirewallRulesForGroup(gid: int): (r: seq<Entry<FirewallRule>>)
      ensures SortedBy(r, FwGroupKey)
      ensures multiset(r) == multiset(Table<FirewallRule>.Select(fwRules.entries, FwInGroup(gid)))
      ensures forall i :: 0 <= i < |r| ==> r[i] in fwRules.entries && r[i].row.def.groupId == gid
      ensures forall i :: 0 <= i < |fwRules.entries| && fwRules.entries[i].row.def.groupId == gid ==> fwRules.entries[i] in r
    {
      SelectSorted(fwRules.entries, FwInGroup(gid), FwGroupKey);
      SortBy(Table<FirewallRule>.Select(fwRules.entries, FwInGroup(gid)), FwGroupKey)
    }

    /** `all_firewall_rules`: every rule, ordered by (group_id, position, id). */
    function AllFirewallRules(): (r: seq<Entry<FirewallRule>>)
      ensures SortedBy(r, FwAllKey)
      ensures multiset(r) == multiset(fwRules.entries)
      ensures |r| == |fwRules.entries|
    {
      SortByCorrect(fwRules.entries, FwAllKey);
      SortBy(fwRules.entries, FwAllKey)
    }

    /**
     * `applied_firewall_rules`: the applied rules, ordered by (group_id,
     * position). Rows that tie on both keep ascending id order, one of the
     * orders the query allows.
     */
    function AppliedFirewallRules(): (r: seq<Entry<FirewallRule>>)
      ensures SortedBy(r, FwAppliedKey)
      ensures multiset(r) == multiset(Table<FirewallRule>.Select(fwRules.entries, FwApplied))
      ensures forall i :: 0 <= i < |r| ==> r[i] in fwRules.entries && r[i].row.applied
      ensures forall i :: 0 <= i < |fwRules.entries| && fwRules.entries[i].row.applied ==> fwRules.entries[i] in r
    {
      SelectSorted(fwRules.entries, FwApplied, FwAppliedKey);
      SortBy(Table<FirewallRule>.Select(fwRules.entries, FwApplied), FwAppliedKey)
    }

    /** `clear_fw_applied_state`: every rule becomes (not applied, handle 0). */
    function ClearFwAppliedState(): (r: FwImage)
      requires WellFormed()
      ensures r.WellFormed() && r == this.(fwRules := fwRules.UpdateWhere(FwAll, SetFwApplied(false, 0)))
      ensures |r.fwRules.entries| == |fwRules.entries|
      ensures forall i :: 0 <= i < |fwRules.entries| ==>
                r.fwRules.entries[i] == Entry(fwRules.entries[i].id, fwRules.entries[i].row.(applied := false, nftHandle := 0))
    {
      var t := fwRules.UpdateWhere(FwAll, SetFwApplied(false, 0));
      assert forall i :: 0 <= i < |t.entries| ==> t.entries[i].row.def == fwRules.entries[i].row.def;
      this.(fwRules := t)
    }

    // ---- Routing rules ----

    /** `insert_routing_rule`: not applied; the group must exist. */
    function InsertRoutingRule(def: RtRuleDef, now: int): (r: Result<(FwImage, int), string>)
      requires WellFormed()
      ensures r.Err? <==> def.groupId !in groups.Ids()
      ensures r.Err? ==> r.error == "insert_routing_rule: " + FOREIGN_KEY
      ensures r.Ok? ==> r.value.0.WellFormed() && r.value.1 !in rtRules.Ids() && r.value.1 == rtRules.lastId + 1
      ensures r.Ok? ==> r.value.0.rtRules.entries == rtRules.entries + [Entry(r.value.1, RoutingRule(def, false, now))]
      ensures r.Ok? ==> r.value.0 == this.(rtRules := r.value.0.rtRules) && r.value.0.rtRules.lastId == r.value.1
    {
      if def.groupId !in groups.Ids() then Err("insert_routing_rule: " + FOREIGN_KEY)
      else
        var (t, id) := rtRules.Insert(RoutingRule(def, false, now));
        Ok((this.(rtRules := t), id))
    }

    /** `update_rt_rule_applied`: sets the flag of the rule with that id. */
    function UpdateRtRuleApplied(id: int, applied: bool): (r: FwImage)
      requires WellFormed()
      ensures r.WellFormed()
      ensures r == this.(rtRules := rtRules.UpdateId(id, SetRtApplied(applied)))
      ensures id in rtRules.Ids() ==> r.rtRules.Find(id) == Some(rtRules.Find(id).value.(applied := applied))
    {
      var t := rtRules.UpdateId(id, SetRtApplied(applied));
      assert forall i :: 0 <= i < |t.entries| ==> t.entries[i].row.def == rtRules.entries[i].row.def;
      FindUpdated(rtRules, id, SetRtApplied(applied));
      this.(rtRules := t)
    }

    /** `delete_routing_rule`: deleting an absent id is not an error. */
    function DeleteRoutingRule(id: int): (r: FwImage)
      requires WellFormed()
      ensures r.WellFormed() && r == this.(rtRules := rtRules.Delete(id))
      ensures id !in r.rtRules.Ids() && r.rtRules.Ids() == rtRules.Ids() - {id}
      ensures id !in rtRules.Ids() ==> r == this
    {
      var t := rtRules.Delete(id);
      forall i | 0 <= i < |t.entries| ensures t.entries[i].row.def.groupId in groups.Ids() {
        var k :| 0 <= k < |rtRules.entries| && rtRules.entries[k] == t.entries[i];
      }
      this.(rtRules := t)
    }

    /** `routing_rules_for_group`: the group's rules in ascending id order. */
    function RoutingRulesForGroup(gid: int): (r: seq<Entry<RoutingRule>>)
      requires rtRules.Valid()
      ensures forall i, j :: 0 <= i < j < |r| ==> r[i].id < r[j].id
      ensures forall i :: 0 <= i < |r| ==> r[i] in rtRules.entries && r[i].row.def.groupId == gid
      ensures forall i :: 0 <= i < |rtRules.entries| && rtRules.entries[i].row.def.groupId == gid ==> rtRules.entries[i] in r
    {
      Table<RoutingRule>.SelectSpec(rtRules.entries, RtInGroup(gid));
      Table<RoutingRule>.Select(rtRules.entries, RtInGroup(gid))
    }

    /** `applied_routing_rules`: the applied rules, ordered by (group_id, id). */
    function AppliedRoutingRules(): (r: seq<Entry<RoutingRule>>)
      ensures SortedBy(r, RtAppliedKey)
      ensures multiset(r) == multiset(Table<RoutingRule>.Select(rtRules.entries, RtApplied))
      ensures forall i :: 0 <= i < |r| ==> r[i] in rtRules.entries && r[i].row.applied
      ensures forall i :: 0 <= i < |rtRules.entries| && rtRules.entries[i].row.applied ==> rtRules.entries[i] in r
    {
      SelectSorted(rtRules.entries, RtApplied, RtAppliedKey);
      SortBy(Table<RoutingRule>.Select(rtRules.entries, RtApplied), RtAppliedKey)
    }

    /** `clear_rt_applied_state`: every routing rule becomes not applied. */
    function ClearRtAppliedState(): (r: FwImage)
      requires WellFormed()
      ensures r.WellFormed() && r == this.(rtRules := rtRules.UpdateWhere(RtAll, SetRtApplied(false)))
      ensures |r.rtRules.entries| == |rtRules.entries|
      ensures forall i :: 0 <= i < |rtRules.entries| ==>
                r.rtRules.entries[i] == Entry(rtRules.entries[i].id, rtRules.entries[i].row.(applied := false))
    {
      var t := rtRules.UpdateWhere(RtAll, SetRtApplied(false));
      assert forall i :: 0 <= i < |t.entries| ==> t.entries[i].row.def == rtRules.entries[i].row.def;
      this.(rtRules := t)
    }
  }

  /** `FirewallDB`: an open connection; each write replaces the image by its effect. */
  class FirewallDB {
    var userVersion: int
    var config: Option<ConfigRow>
    var groups: Table<RuleGroup>
    var fwRules: Table<FirewallRule>
    var rtRules: Table<RoutingRule>

    function Image(): FwImage
      reads this
    {
      FwImage(userVersion, config, groups, fwRules, rtRules)
    }

    ghost predicate Valid()
      reads this
    {
      Image().WellFormed() && userVersion >= SCHEMA_VERSION
    }

    /** `open` on a readable file: the connection sees the file, migrated. */
    constructor Open(file: FwImage)
      requires file.WellFormed()
      ensures Valid() && Image() == file.Migrate()
    {
      var m := file.Migrate();
      userVersion, config, groups, fwRules, rtRules := m.userVersion, m.config, m.groups, m.fwRules, m.rtRules;
    }

    method Store(img: FwImage)
      requires img.WellFormed() && img.userVersion >= SCHEMA_VERSION
      modifies this
      ensures Valid() && Image() == img
    {
      userVersion, config, groups, fwRules, rtRules := img.userVersion, img.config, img.groups, img.fwRules, img.rtRules;
    }

    method InitConfig(now: int)
      requires Valid()
      modifies this
      ensures Valid() && Image() == old(Image()).InitConfig(now)
    {
      Store(Image().InitConfig(now));
    }

    method SetState(state: string, now: int)
      requires Valid()
      modifies this
      ensures Valid() && Image() == old(Image()).SetState(state, now)
    {
      Store(Image().SetState(state, now));
    }

    method SetConfigFlag(column: string, value: bool, now: int) returns (r: Result<(), string>)
      requires Valid()
      modifies this
      ensures Valid()
      ensures old(Image()).SetConfigFlag(column, value, now).Err? ==>
                r == Err(old(Image()).SetConfigFlag(column, value, now).error) && Image() == old(Image())
      ensures old(Image()).SetConfigFlag(column, value, now).Ok? ==>
                r == Ok(()) && Image() == old(Image()).SetConfigFlag(column, value, now).value
    {
      var u := Image().SetConfigFlag(column, value, now);
      if u.Err? {
        return Err(u.error);
      }
      Store(u.value);
      return Ok(());
    }

    method CreateRuleGroup(name: string, groupType: string, priority: int, metadata: string, now: int)
      returns (r: Result<Entry<RuleGroup>, string>)
      requires Valid()
      modifies this
      ensures Valid()
      ensures old(Image()).CreateRuleGroup(name, groupType, priority, metadata, now).Err? ==>
                r == Err(old(Image()).CreateRuleGroup(name, groupType, priority, metadata, now).error) && Image() == old(Image())
      ensures old(Image()).CreateRuleGroup(name, groupType, priority, metadata, now).Ok? ==>
                r == Ok(old(Image()).CreateRuleGroup(name, groupType, priority, metadata, now).value.1) &&
                Image() == old(Image()).CreateRuleGroup(name, groupType, priority, metadata, now).value.0
    {
      var u := Image().CreateRuleGroup(name, groupType, priority, metadata, now);
      if u.Err? {
        return Err(u.error);
      }
      Store(u.value.0);
      return Ok(u.value.1);
    }

    method SetGroupEnabled(name: string, enabled: bool, now: int) returns (r: Result<(), string>)
      requires Valid()
      modifies this
      ensures Valid()
      ensures old(Image()).SetGroupEnabled(name, enabled, now).Err? ==>
                r == Err(old(Image()).SetGroupEnabled(name, enabled, now).error) && Image() == old(Image())
      ensures old(Image()).SetGroupEnabled(name, enabled, now).Ok? ==>
                r == Ok(()) && Image() == old(Image()).SetGroupEnabled(name, enabled, now).value
    {
      var u := Image().SetGroupEnabled(name, enabled, now);
      if u.Err? {
        return Err(u.error);
      }
      Store(u.value);
      return Ok(());
    }

    method DeleteRuleGroup(name: string) returns (r: Result<(), string>)
      requires Valid()
      modifies this
      ensures Valid()
      ensures old(Image()).DeleteRuleGroup(name).Err? ==>
                r == Err(old(Image()).DeleteRuleGroup(name).error) && Image() == old(Image())
      ensures old(Image()).DeleteRuleGroup(name).Ok? ==>
                r == Ok(()) && Image() == old(Image()).DeleteRuleGroup(name).value
    {
      var u := Image().DeleteRuleGroup(name);
      if u.Err? {
        return Err(u.error);
      }
      Store(u.value);
      return Ok(());
    }

    method InsertFirewallRule(def: FwRuleDef, now: int) returns (r: Result<int, string>)
      requires Valid()
      modifies this
      ensures Valid()
      ensures old(Image()).InsertFirewallRule(def, now).Err? ==>
                r == Err(old(Image()).InsertFirewallRule(def, now).error) && Image() == old(Image())
      ensures old(Image()).InsertFirewallRule(def, now).Ok? ==>
                r == Ok(old(Image()).InsertFirewallRule(def, now).value.1) &&
                Image() == old(Image()).InsertFirewallRule(def, now).value.0
    {
      var u := Image().InsertFirewallRule(def, now);
      if u.Err? {
        return Err(u.error);
      }
      Store(u.value.0);
      return Ok(u.value.1);
    }

    method UpdateFwRuleApplied(id: int, applied: bool, handle: int)
      requires Valid()
      modifies this
      ensures Valid() && Image() == old(Image()).UpdateFwRuleApplied(id, applied, handle)
    {
      Store(Image().UpdateFwRuleApplied(id, applied, handle));
    }

    method DeleteFirewallRule(id: int)
      requires Valid()
      modifies this
      ensures Valid() && Image() == old(Image()).DeleteFirewallRule(id)
    {
      Store(Image().DeleteFirewallRule(id));
    }

    method ClearFwAppliedState()
      requires Valid()
      modifies this
      ensures Valid() && Image() == old(Image()).ClearFwAppliedState()
    {
      Store(Image().ClearFwAppliedState());
    }

    method InsertRoutingRule(def: RtRuleDef, now: int) returns (r: Result<int, string>)
      requires Valid()
      modifies this
      ensures Valid()
      ensures old(Image()).InsertRoutingRule(def, now).Err? ==>
                r == Err(old(Image()).InsertRoutingRule(def, now).error) && Image() == old(Image())
      ensures old(Image()).InsertRoutingRule(def, now).Ok? ==>
                r == Ok(old(Image()).InsertRoutingRule(def, now).value.1) &&
                Image() == old(Image()).InsertRoutingRule(def, now).value.0
    {
      var u := Image().InsertRoutingRule(def, now);
      if u.Err? {
        return Err(u.error);
      }
      Store(u.value.0);
      return Ok(u.value.1);
    }

    method UpdateRtRuleApplied(id: int, applied: bool)
      requires Valid()
      modifies this
      ensures Valid() && Image() == old(Image()).UpdateRtRuleApplied(id, applied)
    {
      Store(Image().UpdateRtRuleApplied(id, applied));
    }

    method DeleteRoutingRule(id: int)
      requires Valid()
      modifies this
      ensures Valid() && Image() == old(Image()).DeleteRoutingRule(id)
    {
      Store(Image().DeleteRoutingRule(id));
    }

    method ClearRtAppliedState()
      requires Valid()
      modifies this
      ensures Valid() && Image() == old(Image()).ClearRtAppliedState()
    {
      Store(Image().ClearRtAppliedState());
    }
  }

  // ---- Properties ----

  /** Migration is idempotent and keeps the data. */
  lemma MigrateIdempotent(img: FwImage)
    ensures img.Migrate().Migrate() == img.Migrate()
    ensures img.Migrate().(userVersion := img.userVersion) == img
  {
  }

  /** A second `init_config` never overwrites the stored row. */
  lemma InitConfigIdempotent(img: FwImage, t1: int, t2: int)
    ensures img.InitConfig(t1).InitConfig(t2) == img.InitConfig(t1)
    ensures img.config.None? ==> img.InitConfig(t1).GetConfig() == Ok(ConfigRow("initialized", false, false, false, t1))
  {
  }

  /** Group names are unique, so (priority, name) orders the groups completely. */
  lemma {:induction false} ListRuleGroupsDetermined(img: FwImage, other: seq<Entry<RuleGroup>>)
    requires img.WellFormed()
    requires SortedBy(other, GroupKey) && multiset(other) == multiset(img.groups.entries)
    ensures other == img.ListRuleGroups()
  {
    var r := img.ListRuleGroups();
    var es := img.groups.entries;
    forall i, j | 0 <= i < |r| && 0 <= j < |r| && GroupKey(r[i]) == GroupKey(r[j]) ensures r[i] == r[j] {
      assert r[i] in multiset(es) && r[j] in multiset(es);
      var m :| 0 <= m < |es| && es[m] == r[i];
      var n :| 0 <= n < |es| && es[n] == r[j];
      assert GroupKey(r[i])[1] == GroupKey(r[j])[1];
      assert m == n;
    }
    SortedUnique(r, other, GroupKey);
  }

  /** A second group with the same name is refused, and nothing changes. */
  lemma CreateDuplicateFails(img: FwImage, name: string, t1: string, t2: string, p1: int, p2: int, m1: string, m2: string, n1: int, n2: int)
    requires img.WellFormed() && img.CreateRuleGroup(name, t1, p1, m1, n1).Ok?
    ensures img.CreateRuleGroup(name, t1, p1, m1, n1).value.0.CreateRuleGroup(name, t2, p2, m2, n2)
              == Err("create_rule_group: " + UNIQUE_NAME)
  {
  }

  /** After `delete_rule_group` the group's rules are gone from every listing. */
  lemma DeleteCascades(img: FwImage, name: string)
    requires img.WellFormed() && img.DeleteRuleGroup(name).Ok?
    ensures img.DeleteRuleGroup(name).value.FirewallRulesForGroup(img.GetRuleGroup(name).value.id) == []
    ensures img.DeleteRuleGroup(name).value.RoutingRulesForGroup(img.GetRuleGroup(name).value.id) == []
  {
    var gid := img.GetRuleGroup(name).value.id;
    var res := img.DeleteRuleGroup(name).value;
    NoneLeft(img.fwRules, res, gid);
    NoneLeftRt(img.rtRules, res, gid);
  }

  lemma NoneLeft(fw: Table<FirewallRule>, res: FwImage, gid: int)
    requires fw.Valid() && res.fwRules == fw.DeleteWhere(FwInGroup(gid))
    ensures res.FirewallRulesForGroup(gid) == []
  {
  }

  lemma NoneLeftRt(rt: Table<RoutingRule>, res: FwImage, gid: int)
    requires rt.Valid() && res.rtRules == rt.DeleteWhere(RtInGroup(gid))
    ensures res.RoutingRulesForGroup(gid) == []
  {
    Table<RoutingRule>.SelectNone(res.rtRules.entries, RtInGroup(gid));
  }

  /** After clearing, no rule of either kind is listed as applied. */
  lemma ClearLeavesNothingApplied(img: FwImage)
    requires img.WellFormed()
    ensures img.ClearFwAppliedState().AppliedFirewallRules() == []
    ensures img.ClearRtAppliedState().AppliedRoutingRules() == []
  {
    ClearFwLeavesNothing(img);
    ClearRtLeavesNothing(img);
  }

  lemma ClearFwLeavesNothing(img: FwImage)
    requires img.WellFormed()
    ensures img.ClearFwAppliedState().AppliedFirewallRules() == []
  {
    var a := img.ClearFwAppliedState();
    var r := a.AppliedFirewallRules();
    assert forall e :: e in a.fwRules.entries ==> !e.row.applied;
  }

  lemma ClearRtLeavesNothing(img: FwImage)
    requires img.WellFormed()
    ensures img.ClearRtAppliedState().AppliedRoutingRules() == []
  {
    var b := img.ClearRtAppliedState();
    var r := b.AppliedRoutingRules();
    assert forall e :: e in b.rtRules.entries ==> !e.row.applied;
  }

  /** A rule marked applied is listed as applied, with its handle. */
  lemma UpdateThenApplied(img: FwImage, id: int, handle: int)
    requires img.WellFormed() && id in img.fwRules.Ids()
    ensures exists i :: 0 <= i < |img.UpdateFwRuleApplied(id, true, handle).AppliedFirewallRules()| &&
              img.UpdateFwRuleApplied(id, true, handle).AppliedFirewallRules()[i] ==
                Entry(id, img.fwRules.Find(id).value.(applied := true, nftHandle := handle))
  {
    var u := img.UpdateFwRuleApplied(id, true, handle);
    var row := img.fwRules.Find(id).value.(applied := true, nftHandle := handle);
    assert u.fwRules.Find(id) == Some(row);
    assert Entry(id, row) in u.fwRules.entries;
    var k :| 0 <= k < |u.fwRules.entries| && u.fwRules.entries[k] == Entry(id, row);
    assert Entry(id, row) in u.AppliedFirewallRules();
  }

  /** A new rule is listed under its group, not applied and with handle 0. */
  lemma InsertThenListed(img: FwImage, def: FwRuleDef, now: int)
    requires img.WellFormed() && img.InsertFirewallRule(def, now).Ok?
    ensures Entry(img.InsertFirewallRule(def, now).value.1, FirewallRule(def, false, 0, now))
              in img.InsertFirewallRule(def, now).value.0.FirewallRulesForGroup(def.groupId)
  {
    var (res, id) := img.InsertFirewallRule(def, now).value;
    assert res.fwRules.entries[|img.fwRules.entries|] == Entry(id, FirewallRule(def, false, 0, now));
  }

  // ---- Helper lemmas ----

  lemma FindAt<R>(t: Table<R>, k: int)
    requires t.Valid() && 0 <= k < |t.entries|
    ensures t.Find(t.entries[k].id) == Some(t.entries[k].row)
  {
    var f := t.Find(t.entries[k].id);
    assert f.Some?;
    var m :| 0 <= m < |t.entries| && t.entries[m] == Entry(t.entries[k].id, f.value);
    if m != k { SortedDistinct(t.entries, m, k); }
  }

  lemma FindUpdated<R>(t: Table<R>, id: int, f: R -> R)
    requires t.Valid()
    ensures id in t.Ids() ==> t.UpdateId(id, f).Find(id) == Some(f(t.Find(id).value))
  {
    if id in t.Ids() {
      var k :| 0 <= k < |t.entries| && t.entries[k].id == id;
      FindAt(t, k);
      FindAt(t.UpdateId(id, f), k);
    }
  }

  lemma SortedDistinct<R>(es: seq<Entry<R>>, i: int, j: int)
    requires forall a, b :: 0 <= a < b < |es| ==> es[a].id < es[b].id
    requires 0 <= i < |es| && 0 <= j < |es| && i != j
    ensures es[i].id != es[j].id
  {
    if i < j { assert es[i].id < es[j].id; } else { assert es[j].id < es[i].id; }
  }

  lemma FindGroupLast(es: seq<Entry<RuleGroup>>, e: Entry<RuleGroup>)
    requires FindGroup(es, e.row.name).None?
    ensures FindGroup(es + [e], e.row.name) == Some(e)
  {
    if es != [] {
      assert (es + [e])[1..] == es[1..] + [e];
      FindGroupLast(es[1..], e);
    }
  }

  /** Deleting the unique group named `name` removes exactly its id. */
  /** The image `DeleteRuleGroup` builds: well formed, the group gone, exactly its rules gone. */
  lemma DeleteGroupCascade(img: FwImage, name: string, gid: int)
    requires img.WellFormed()
    requires FindGroup(img.groups.entries, name).Some? && FindGroup(img.groups.entries, name).value.id == gid
    ensures var res := FwImage(img.userVersion, img.config, img.groups.DeleteWhere(NameIs(name)),
              img.fwRules.DeleteWhere(FwInGroup(gid)), img.rtRules.DeleteWhere(RtInGroup(gid)));
      && res.WellFormed() && res.GetRuleGroup(name).Err?
      && res.groups.Ids() == img.groups.Ids() - {gid}
      && (forall i :: 0 <= i < |img.fwRules.entries| ==>
            (img.fwRules.entries[i] in res.fwRules.entries <==> img.fwRules.entries[i].row.def.groupId != gid))
      && (forall i :: 0 <= i < |img.rtRules.entries| ==>
            (img.rtRules.entries[i] in res.rtRules.entries <==> img.rtRules.entries[i].row.def.groupId != gid))
      && (forall i :: 0 <= i < |res.fwRules.entries| ==> res.fwRules.entries[i] in img.fwRules.entries)
      && (forall i :: 0 <= i < |res.rtRules.entries| ==> res.rtRules.entries[i] in img.rtRules.entries)
  {
    var res := FwImage(img.userVersion, img.config, img.groups.DeleteWhere(NameIs(name)),
      img.fwRules.DeleteWhere(FwInGroup(gid)), img.rtRules.DeleteWhere(RtInGroup(gid)));
    DeleteGroupIds(img.groups, name, gid);
    CascadeKeys(img, res, gid);
    DeleteGroupNames(img.groups, name);
  }

  lemma DeleteGroupIds(groups: Table<RuleGroup>, name: string, gid: int)
    requires groups.Valid() && UniqueNames(groups.entries)
    requires FindGroup(groups.entries, name).Some? && FindGroup(groups.entries, name).value.id == gid
    ensures groups.DeleteWhere(NameIs(name)).Ids() == groups.Ids() - {gid}
  {
    var es := groups.entries;
    var k :| 0 <= k < |es| && es[k] == FindGroup(es, name).value;
    DeleteGroupIdsSub(groups, name, k);
    DeleteGroupIdsSup(groups, name, k);
  }

  lemma DeleteGroupIdsSub(groups: Table<RuleGroup>, name: string, k: int)
    requires groups.Valid() && 0 <= k < |groups.entries| && groups.entries[k].row.name == name
    ensures groups.DeleteWhere(NameIs(name)).Ids() <= groups.Ids() - {groups.entries[k].id}
  {
    var es := groups.entries;
    var g := groups.DeleteWhere(NameIs(name)).entries;
    forall x | x in groups.DeleteWhere(NameIs(name)).Ids() ensures x in groups.Ids() && x != es[k].id {
      var i :| 0 <= i < |g| && g[i].id == x;
      var m :| 0 <= m < |es| && es[m] == g[i];
      assert es[m].row.name != name;
      if m != k { SortedDistinct(es, m, k); }
    }
  }

  lemma DeleteGroupIdsSup(groups: Table<RuleGroup>, name: string, k: int)
    requires groups.Valid() && UniqueNames(groups.entries)
    requires 0 <= k < |groups.entries| && groups.entries[k].row.name == name
    ensures groups.Ids() - {groups.entries[k].id} <= groups.DeleteWhere(NameIs(name)).Ids()
  {
    var es := groups.entries;
    var g := groups.DeleteWhere(NameIs(name)).entries;
    forall x | x in groups.Ids() && x != es[k].id ensures x in groups.DeleteWhere(NameIs(name)).Ids() {
      var m :| 0 <= m < |es| && es[m].id == x;
      assert m != k;
      assert es[m].row.name != name;
      assert es[m] in g;
      var i :| 0 <= i < |g| && g[i] == es[m];
    }
  }

  /** After the delete, no group has the name and the remaining names stay unique. */
  lemma DeleteGroupNames(groups: Table<RuleGroup>, name: string)
    requires groups.Valid() && UniqueNames(groups.entries)
    ensures UniqueNames(groups.DeleteWhere(NameIs(name)).entries)
    ensures FindGroup(groups.DeleteWhere(NameIs(name)).entries, name).None?
  {
    var es := groups.entries;
    var g := groups.DeleteWhere(NameIs(name)).entries;
    forall i, j | 0 <= i < |g| && 0 <= j < |g| && g[i].row.name == g[j].row.name
      ensures i == j
    {
      var m :| 0 <= m < |es| && es[m] == g[i];
      var n :| 0 <= n < |es| && es[n] == g[j];
      assert m == n;
      if i != j { SortedDistinct(g, i, j); }
    }
  }

  /** The cascade keeps exactly the rules whose group is still there. */
  lemma CascadeKeys(img: FwImage, res: FwImage, gid: int)
    requires img.WellFormed()
    requires res.groups.Valid() && res.groups.Ids() == img.groups.Ids() - {gid}
    requires res.fwRules == img.fwRules.DeleteWhere(FwInGroup(gid))
    requires res.rtRules == img.rtRules.DeleteWhere(RtInGroup(gid))
    ensures res.fwRules.Valid() && res.rtRules.Valid()
    ensures forall i :: 0 <= i < |res.fwRules.entries| ==> res.fwRules.entries[i].row.def.groupId in res.groups.Ids()
    ensures forall i :: 0 <= i < |res.rtRules.entries| ==> res.rtRules.entries[i].row.def.groupId in res.groups.Ids()
  {
    forall i | 0 <= i < |res.fwRules.entries| ensures res.fwRules.entries[i].row.def.groupId in res.groups.Ids() {
      var e := res.fwRules.entries[i];
      var m :| 0 <= m < |img.fwRules.entries| && img.fwRules.entries[m] == e;
    }
    forall i | 0 <= i < |res.rtRules.entries| ensures res.rtRules.entries[i].row.def.groupId in res.groups.Ids() {
      var e := res.rtRules.entries[i];
      var m :| 0 <= m < |img.rtRules.entries| && img.rtRules.entries[m] == e;
    }
  }

}
