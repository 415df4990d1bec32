# phantom-wireguard bridges, modelled in Dafny

phantom-wireguard drives three native engines through "bridges". Each engine sits behind a lifecycle controller backed by SQLite. This project models the controllers, their stores, and the serialisers and parsers around them. Each engine, and the kernel beneath it, appears only as the calls the bridge makes and the answers it receives.

- **wstunnel bridge**:
  - `WstTypes`: error codes and `WstunnelError`.
  - `WstDb`: the store, with singleton configuration rows, allow-listed partial updates, and ordered tunnels, restrictions and headers.
  - `WstEngine`: what the two start adapters replay into the engine.
  - `WstState`: the controller (uninitialized, initialized, started, stopped, closed).
- **firewall bridge**:
  - `FwDb`: rule groups and firewall/routing rules, with applied flags and cascade delete.
  - `FwPresets`: the fixed preset rule lists.
  - `FwVerify`: drift detection between the database and the kernel listing.
  - `Nft`: the nft command strings and handle search.
  - `Route`: rtnetlink messages, attributes padded to four bytes as section 2.2 of RFC 3549 lays out.
  - `FwState`: the controller.
  - `Json`: the JSON values these modules read and write.
- **WireGuard bridge**:
  - `WgDb`, `WgServer`, `WgTunnels` and `WgPool`: bridge-db, with clients, the IP pool, the server configuration and multihop tunnels.
  - `WgStats`: the UAPI dump parser and the stats sync.
  - `WgPersist`: the persistent device.
  - `WgAllowedIps`: the allowed-IP configuration builders and parser.
  - `WgRegistry`: the handle registry.
  - `WgChain`: hop-chain accessors.
  - `WgKeys`: key clamping as section 5 of RFC 7748 prescribes, plus hex and base64.
  - `WgBridge`, `WgBridgePlan` and `WgBridgeText`: the bridge state machine (uninitialized, needs_setup, ready, running, error), the database effects and device calls of each operation, and the texts handed to wireguard-go.
- **Shared modules**: `Wrappers`, `Strings`, `Tables` (autoincrement tables kept in id order), `Ordering` (SQL `ORDER BY`) and `Machine` (fixed-width integers).

Classes stand for objects the source updates in place:
- the controllers;
- the open database connections;
- the netlink buffer and socket;
- the handle registry;
- the persistent device.

Each class method is proved against functions over the stored image, and the properties of those functions are stated as lemmas.

Error codes: the firewall bridge's status codes are the v2 values of its C header. The wstunnel state codes NOT_INITIALIZED, DB_OPEN and INVALID_STATE have no numeric value in the source, so they are modelled as named state codes; see Findings.

## Model

| member | source | states |
|---|---|---|
| FwDb.FindGroup | src/db.rs:191-199 | the group found carries the name and is stored; none is found exactly when no stored group has the name |
| FwDb.FwImage.Migrate | src/db.rs:101-116 | the schema version is raised to the current one only when it is below it; every table keeps its rows |
| FwDb.FwImage.InitConfig | src/db.rs:120-128 | afterwards a config row exists; an existing row is left alone, a missing one gets the column defaults |
| FwDb.FwImage.GetConfig | src/db.rs:130-142 | succeeds exactly when the config row exists and returns it; otherwise the "no rows" error |
| FwDb.FwImage.SetState | src/db.rs:144-152 | only the state and update time of the config row change; without a row nothing changes |
| FwDb.FwImage.SetConfigFlag | src/db.rs:154-169 | fails exactly for a column outside the three flag columns; otherwise only that flag and the update time change |
| FwDb.FwImage.GetRuleGroup | src/db.rs:191-199 | succeeds exactly when a stored group has the name, and returns that group |
| FwDb.FwImage.GetRuleGroupById | src/db.rs:201-209 | succeeds exactly when the id is stored, and returns that row |
| FwDb.FwImage.CreateRuleGroup | src/db.rs:173-189 | fails with the UNIQUE error exactly when the name is taken; otherwise the new group is enabled, gets a fresh id, and is found by its name |
| FwDb.FwImage.ListRuleGroups | src/db.rs:211-221 | a permutation of the stored groups, sorted by (priority, name) |
| FwDb.FwImage.EnabledGroups | src/db.rs:223-233 | exactly the enabled groups, sorted by (priority, name) |
| FwDb.FwImage.SetGroupEnabled | src/db.rs:235-247 | fails exactly for an unknown name; otherwise only that group's flag and update time change |
| FwDb.FwImage.DeleteRuleGroup | src/db.rs:249-258 | fails exactly for an unknown name; otherwise the group's id goes, and a rule stays exactly when it belongs to another group |
| FwDb.FwImage.InsertFirewallRule | src/db.rs:275-307 | fails with the foreign-key error exactly when the group is missing; otherwise the rule is appended, not applied, with handle 0 and a fresh id |
| FwDb.FwImage.UpdateFwRuleApplied | src/db.rs:309-322 | only the applied flag and handle of the rule with that id change |
| FwDb.FwImage.DeleteFirewallRule | src/db.rs:324-329 | the id is gone and no other; an absent id changes nothing |
| FwDb.FwImage.FirewallRulesForGroup | src/db.rs:331-343 | exactly the group's rules, sorted by (position, id) |
| FwDb.FwImage.AllFirewallRules | src/db.rs:345-355 | a permutation of every rule, sorted by (group, position, id) |
| FwDb.FwImage.AppliedFirewallRules | src/db.rs:357-367 | exactly the applied rules, sorted by (group, position) |
| FwDb.FwImage.ClearFwAppliedState | src/db.rs:369-377 | every rule keeps its id and definition and becomes not applied with handle 0 |
| FwDb.FwImage.InsertRoutingRule | src/db.rs:404-430 | fails with the foreign-key error exactly when the group is missing; otherwise the rule is appended, not applied, with a fresh id |
| FwDb.FwImage.UpdateRtRuleApplied | src/db.rs:432-440 | only the applied flag of the rule with that id changes |
| FwDb.FwImage.DeleteRoutingRule | src/db.rs:442-447 | the id is gone and no other; an absent id changes nothing |
| FwDb.FwImage.RoutingRulesForGroup | src/db.rs:449-459 | exactly the group's routing rules, in ascending id order |
| FwDb.FwImage.AppliedRoutingRules | src/db.rs:461-471 | exactly the applied routing rules, sorted by (group, id) |
| FwDb.FwImage.ClearRtAppliedState | src/db.rs:473-478 | every routing rule keeps its id and definition and becomes not applied |
| FwDb.FirewallDB.Open | src/db.rs:92-99 | the connection sees the file's tables, migrated |
| FwDb.FirewallDB.InitConfig | src/db.rs:120-128 | the stored image becomes the one FwImage.InitConfig gives |
| FwDb.FirewallDB.SetState | src/db.rs:144-152 | the stored image becomes the one FwImage.SetState gives |
| FwDb.FirewallDB.SetConfigFlag | src/db.rs:154-169 | the error of FwImage.SetConfigFlag with nothing changed, or its image |
| FwDb.FirewallDB.CreateRuleGroup | src/db.rs:173-189 | the error of FwImage.CreateRuleGroup with nothing changed, or its image and the new row |
| FwDb.FirewallDB.SetGroupEnabled | src/db.rs:235-247 | the error of FwImage.SetGroupEnabled with nothing changed, or its image |
| FwDb.FirewallDB.DeleteRuleGroup | src/db.rs:249-258 | the error of FwImage.DeleteRuleGroup with nothing changed, or its image |
| FwDb.FirewallDB.InsertFirewallRule | src/db.rs:275-307 | the error of FwImage.InsertFirewallRule with nothing changed, or its image and the new id |
| FwDb.FirewallDB.UpdateFwRuleApplied | src/db.rs:309-322 | the stored image becomes the one FwImage.UpdateFwRuleApplied gives |
| FwDb.FirewallDB.DeleteFirewallRule | src/db.rs:324-329 | the stored image becomes the one FwImage.DeleteFirewallRule gives |
| FwDb.FirewallDB.ClearFwAppliedState | src/db.rs:369-377 | the stored image becomes the one FwImage.ClearFwAppliedState gives |
| FwDb.FirewallDB.InsertRoutingRule | src/db.rs:404-430 | the error of FwImage.InsertRoutingRule with nothing changed, or its image and the new id |
| FwDb.FirewallDB.UpdateRtRuleApplied | src/db.rs:432-440 | the stored image becomes the one FwImage.UpdateRtRuleApplied gives |
| FwDb.FirewallDB.DeleteRoutingRule | src/db.rs:442-447 | the stored image becomes the one FwImage.DeleteRoutingRule gives |
| FwDb.FirewallDB.ClearRtAppliedState | src/db.rs:473-478 | the stored image becomes the one FwImage.ClearRtAppliedState gives |
| FwDb.MigrateIdempotent | src/db.rs:721-725 | migrating twice is migrating once, and migration changes nothing but the version |
| FwDb.InitConfigIdempotent | src/db.rs:606-618 | a second init_config never overwrites the row; a fresh row has state "initialized" and the flags off |
| FwDb.ListRuleGroupsDetermined | src/db.rs:211-221 | group names are unique, so any permutation sorted by (priority, name) is the listing |
| FwDb.CreateDuplicateFails | src/db.rs:513-515 | a second group with the same name is refused with the UNIQUE error |
| FwDb.DeleteCascades | src/db.rs:693-706 | after a group is deleted, no firewall or routing rule is listed under its id |
| FwDb.DeleteGroupCascade | src/db.rs:524-526 | the delete keeps the image well formed, removes exactly the group's id, and keeps exactly the rules of other groups |
| FwDb.CascadeKeys | src/db.rs:545-547 | after the cascade every remaining rule refers to a remaining group |
| FwDb.ClearLeavesNothingApplied | src/db.rs:369-377 | after clearing, neither applied listing has any rule |
| FwDb.UpdateThenApplied | src/db.rs:309-322 | a rule marked applied is listed among the applied rules with its handle |
| FwDb.InsertThenListed | src/db.rs:641-666 | a new firewall rule is listed under its group, not applied and with handle 0 |
| FwDb.DeleteGroupNames | src/db.rs:513-515 | after the delete no group has the name and the remaining names stay unique |
| FwPresets.VpnRules | src/presets.rs:21-72 | four IPv4 rules of the group, numbered from 0: the UDP accept on the WireGuard port; forward accepts from the WireGuard interface to the outbound one and, for established/related traffic, back; masquerade of the tunnel subnet out of the outbound interface |
| FwPresets.MultihopRoutes | src/presets.rs:85-148 | three routing rules, four when a fwmark is set, all on the named table with the id cast to i32 |
| FwPresets.MultihopRules | src/presets.rs:133-146 | two IPv4 rules of the group, numbered from 0: a forward accept from the inbound to the outbound interface, and the established/related forward accept back |
| FwPresets.KillSwitchRules | src/presets.rs:169-245 | ten rules, eleven with a wstunnel port, numbered from 0: loopback accept first, every output accept before the output drop, the input drop last |
| FwPresets.KillSwitchWstunnel | src/presets.rs:393-401 | the wstunnel accept is among the kill-switch rules exactly when a wstunnel port is given |
| FwPresets.DnsRules | src/presets.rs:257-289 | five output rules on port 53: accepts through the tunnel first, drops last |
| FwPresets.Ipv6Rules | src/presets.rs:296-311 | three IPv6 drops, on input, output and forward |
| FwPresets.InsertFwRules | src/presets.rs:21-72 | one insert per definition in order: the image gains exactly those rows |
| FwPresets.InsertRtRules | src/presets.rs:85-148 | one insert per definition in order: the image gains exactly those rows |
| FwPresets.CreateGroup | src/presets.rs:21-72 | fails with the UNIQUE write error, changing nothing, exactly when the name is taken; otherwise returns the next group id |
| FwPresets.Populate | src/presets.rs:85-148 | the routing rules, then the firewall rules, are appended to the group |
| FwPresets.PresetVpn | src/presets.rs:21-72 | fails exactly when the name is taken; otherwise the image gains the "vpn" group (priority 100) with its metadata and VpnRules |
| FwPresets.PresetMultihop | src/presets.rs:85-148 | fails exactly when the name is taken; otherwise the image gains the "multihop" group (priority 80), MultihopRoutes and MultihopRules |
| FwPresets.PresetKillSwitch | src/presets.rs:169-245 | fails exactly when "kill-switch" exists; otherwise the image gains that group (priority 10) and KillSwitchRules |
| FwPresets.PresetDnsProtection | src/presets.rs:257-289 | fails exactly when "dns-protection" exists; otherwise the image gains that group (priority 20) and DnsRules |
| FwPresets.PresetIpv6Block | src/presets.rs:296-311 | fails exactly when "ipv6-block" exists; otherwise the image gains that group (priority 5) and Ipv6Rules |
| FwPresets.CreatedGroup | src/presets.rs:327-342 | the created group is the only one with its name, enabled, under the next id |
| FwPresets.PresetListing | src/presets.rs:445-454 | after a preset the database is consistent, the group reads back with its columns, and its rules read back as the definitions in insertion order, not applied |
| FwPresets.VpnMetadataFields | src/presets.rs:445-454 | the vpn metadata records the preset name and every parameter |
| FwPresets.EnabledByPriority | src/db.rs:223-233 | an enabled group of smaller priority is listed, and so applied, before one of larger priority |
| FwPresets.EnabledByName | src/db.rs:223-233 | among enabled groups of equal priority, names are listed in ascending order |
| FwState.AsI64 | src/state.rs:118-119 | the handle read as a signed 64-bit integer: in range, congruent to the handle modulo 2^64, and unchanged below 2^63 |
| FwState.MarkFw | src/state.rs:116-124 | installing keeps the rule's id, definition and creation time |
| FwState.MarkRt | src/state.rs:129-136 | installing keeps the routing rule's id, definition and creation time |
| FwState.Report | src/state.rs:194-215 | the status report's counts: rules applied against rules stored, the routing total being the applied count, as the query computes it |
| FwState.FirewallState.constructor | src/state.rs:53-60 | a new state is Uninitialized, with no database, no nftables context and no last error |
| FwState.FirewallState.Db | src/state.rs:231-233 | succeeds exactly when the database is open; otherwise NotInitialized "DB not open" |
| FwState.FirewallState.NftContext | src/state.rs:235-237 | succeeds exactly when the nftables context exists; otherwise NotInitialized |
| FwState.FirewallState.StatusJson | src/state.rs:194-215 | the status JSON is the serialization of the status report |
| FwState.FirewallState.Init | src/state.rs:66-96 | succeeds exactly when the file opens, the nftables context is created and the table is ensured; each failure gives its own error code and message and keeps nothing |
| FwState.FirewallState.OpenFresh | src/state.rs:66-96 | init from Uninitialized: the same outcome as Init, without the preceding close |
| FwState.FirewallState.Attach | src/state.rs:82-96 | the nftables context then the table; the database and context are kept only when both succeed |
| FwState.FirewallState.Start | src/state.rs:99-145 | Started gives AlreadyStarted, Uninitialized or Error gives InvalidState, each changing nothing; otherwise the database becomes StartedImage, the calls are the enabled groups' rules in order, and last_error the last refusal |
| FwState.FirewallState.StartFlushed | src/state.rs:112-144 | after the flush: every enabled group is applied, and the state column and status become started |
| FwState.FirewallState.ApplyGroups | src/state.rs:113-137 | the loop over the enabled groups reconciles exactly their rules, with one call per rule in listing order |
| FwState.FirewallState.ApplyGroupAt | src/state.rs:113-137 | one more group of the loop, after the groups before it |
| FwState.FirewallState.ApplyGroup | src/state.rs:114-136 | one group: its firewall rules, then its routing rules |
| FwState.FirewallState.ApplyGroupFw | src/state.rs:115-126 | the group's firewall rules are reconciled; the other tables are kept |
| FwState.FirewallState.ApplyGroupRt | src/state.rs:128-136 | the group's routing rules are reconciled; the other tables are kept |
| FwState.FirewallState.ApplyFwRule | src/state.rs:117-124 | a handle from the kernel marks the rule applied with that handle; a refusal sets last_error and changes no row |
| FwState.FirewallState.ApplyRtRule | src/state.rs:130-136 | success marks the routing rule applied; a refusal sets last_error and changes no row |
| FwState.FirewallState.ApplyFwRuleAt | src/state.rs:116-125 | one more firewall rule of the listing, after the rules before it |
| FwState.FirewallState.ApplyRtRuleAt | src/state.rs:129-136 | one more routing rule of the listing, after the rules before it |
| FwState.FirewallState.ApplyFwRules | src/state.rs:115-126 | every listed firewall rule is handed to the kernel in order and marked when accepted |
| FwState.FirewallState.ApplyRtRules | src/state.rs:128-137 | every listed routing rule is handed to the kernel in order and marked when accepted |
| FwState.FirewallState.Stop | src/state.rs:148-174 | not Started gives NotStarted and changes nothing; otherwise the table is flushed, each applied route removed, every applied flag cleared and the state becomes Stopped |
| FwState.FirewallState.StopStarted | src/state.rs:153-173 | the Started case: the database becomes StoppedImage and the calls are the flush and the route removals |
| FwState.FirewallState.RemoveRoutes | src/state.rs:159-163 | one removal call per applied routing rule, answers ignored |
| FwState.FirewallState.Close | src/state.rs:177-190 | always succeeds; stops first when Started, then drops the database and the context and returns to Uninitialized with no last error |
| FwState.OpenStore | src/state.rs:66-96 | open, migrate, create the config row, clear stale applied flags |
| FwState.ClearApplied | src/state.rs:166-167 | both applied-state clears, in order |
| FwState.ReportSerialized | src/state.rs:194-215 | the report serializes to the status text |
| FwState.EnabledDistinct | src/db.rs:223-233 | enabled_groups lists each group at most once |
| FwState.ReconciledValid | src/state.rs:113-137 | reconciling keeps ids, definitions, groups and config, so the table constraints hold |
| FwState.FwListingAgrees | src/state.rs:115 | a group not yet reconciled lists the same firewall rules as before |
| FwState.RtListingAgrees | src/state.rs:128 | a group not yet reconciled lists the same routing rules as before |
| FwState.FwGroupStep | src/state.rs:115-126 | marking the rules firewall_rules_for_group lists reconciles that group too |
| FwState.RtGroupStep | src/state.rs:128-136 | marking the rules routing_rules_for_group lists reconciles that group too |
| FwState.EnabledIds | src/db.rs:223-233 | a group id is in the enabled listing exactly when the group exists and is enabled |
| FwState.StartedFwRule | src/state.rs:113-126 | after start, a firewall rule is applied exactly when it was, or its group is enabled and the kernel installed it; its id and definition are kept |
| FwState.StartedRtRule | src/state.rs:128-136 | after start, a routing rule is applied exactly when it was, or its group is enabled and the kernel installed it |
| FwState.StartedKeeps | src/state.rs:99-145 | start changes only the rule tables' applied columns and the state column |
| FwState.StartThenStop | src/state.rs:148-174 | stopping after a start leaves the database as stopping without the start would |
| FwState.StoppedNothingApplied | src/state.rs:166-167 | after stop no rule of either kind is listed as applied |
| FwState.InitializedNothingApplied | src/state.rs:66-96 | after a successful init no rule of either kind is listed as applied |
| FwState.StartStepsCover | src/state.rs:113-137 | start hands the kernel exactly the rules of the enabled groups, every one of them and no other |
| FwState.StepsOfGroups | src/state.rs:113-137 | the steps of a list of groups are exactly the rules whose group is listed |
| FwState.GroupStepsMembers | src/state.rs:114-136 | the steps of one group are exactly its firewall and routing rules |
| FwState.LastErrorNone | src/state.rs:120-123 | with no failing rule, last_error is left as it was |
| FwState.LastErrorLast | src/state.rs:120-135 | otherwise last_error is the message of the last rule that failed |
| FwState.FwStepsSnoc | src/state.rs:120-123 | one more firewall rule adds one call, and its "Failed to apply rule" text when refused |
| FwState.RtStepsSnoc | src/state.rs:132-135 | one more routing rule adds one call, and its "Failed to apply routing rule" text when refused |
| FwState.FwMarkStep | src/state.rs:118-119 | a rule the kernel accepted is the UPDATE of its row with the handle; a refused one changes nothing |
| FwState.RtMarkStep | src/state.rs:130-131 | a routing rule the kernel accepted is the UPDATE of its row; a refused one changes nothing |
| FwVerify.StrMember | src/verify.rs:184-186 | present exactly when the member exists and is a JSON string, and then it is that string |
| FwVerify.LastCommentNone | src/verify.rs:189-195 | no comment is found in `expr` exactly when no item has a string comment |
| FwVerify.LastCommentSome | src/verify.rs:189-195 | a comment found in `expr` is that of an item after which no item has one |
| FwVerify.RuleComment | src/verify.rs:183-196 | the rule's own comment wins over the ones in `expr` |
| FwVerify.ListingItems | src/verify.rs:163-171 | invalid JSON or a missing or non-array `nftables` member gives no items |
| FwVerify.RulesOf | src/verify.rs:173-200 | at most one kernel rule per item |
| FwVerify.ExprComment | src/verify.rs:189-195 | the loop over `expr` keeps the last comment seen |
| FwVerify.ParseKernelRules | src/verify.rs:160-203 | one pass over the items gives the rules of the items that have a `rule` member, in order |
| FwVerify.AnyTagged | src/verify.rs:88-90 | true exactly when some kernel rule carries the tag |
| FwVerify.AnyId | src/verify.rs:108 | true exactly when some applied rule has the id |
| FwVerify.FindMissing | src/verify.rs:84-98 | the missing-rule loop computes MissingOf |
| FwVerify.FindExtra | src/verify.rs:100-127 | the extra-rule loop computes ExtraOf |
| FwVerify.VerifyRules | src/verify.rs:72-148 | the result is the report of the database's applied rules against the kernel listing |
| FwVerify.MissingMember | src/verify.rs:84-98 | a rule is reported missing exactly when it is applied and no kernel rule carries its tag |
| FwVerify.ExtraMember | src/verify.rs:100-127 | a kernel rule is reported extra exactly when its comment has the prefix and names no applied rule |
| FwVerify.MissingEmpty | src/verify.rs:84-98 | nothing is missing exactly when every applied rule's tag is in the listing |
| FwVerify.ExtraEmpty | src/verify.rs:100-127 | nothing is extra exactly when no kernel rule is extra |
| FwVerify.InSyncIff | src/verify.rs:133 | in_sync holds exactly when every applied rule's tag is in the kernel and no kernel rule is extra |
| FwVerify.ReportCounts | src/verify.rs:135-147 | the counts are the applied rows of each table and the parsed kernel rules |
| FwVerify.TagNamesId | src/verify.rs:87 | a rule's tag starts with the prefix and parses back to the rule's id |
| FwVerify.TaggedNotExtra | src/verify.rs:104-114 | a kernel rule carrying an applied rule's tag is never extra |
| FwVerify.MirroredInSync | src/verify.rs:72-148 | a kernel listing exactly the applied rules' tags, beside rules without the prefix, is in sync |
| FwVerify.LeadingZeroTag | src/verify.rs:105-111 | the tag "phantom-rule-042" counts as tracking rule 42 without being its tag: rule 42 is reported missing and the kernel rule is not extra |
| Nft.Run | src/nft.rs:64-81 | succeeds exactly when the command has no NUL and libnftables returns 0, giving its output; a NUL is refused before the call with `NulError`'s message; a failure carries the error buffer, or the generic rc message when it is empty |
| Nft.NulPosition | src/nft.rs:65 | the position `CString::new` reports is the UTF-8 byte offset of the first NUL: at least its character index and at most four times it, and equal to it exactly when every character before it is ASCII |
| Nft.RunAll | src/nft.rs:138-154 | the commands issued are a prefix of the list, all but the last succeeding; the result is Ok exactly when all were issued and succeeded, otherwise the last one's error |
| Nft.EnsureTable | src/nft.rs:138-154 | the table command, then the input, forward and postrouting chains, in that order, stopping at the first failure, whose error is the result |
| Nft.FlushTable | src/nft.rs:251-253 | the result of running "flush table inet phantom" |
| Nft.SourceSpaced | src/nft.rs:158-168 | the source match is nothing for an empty source, "ip6 saddr S " for family 10 and "ip saddr S " otherwise |
| Nft.PortSpaced | src/nft.rs:171-176 | the port match is nothing for port 0 and "P dport D " otherwise |
| Nft.InputCommandWords | src/nft.rs:180-190 | an input command splits at its spaces into exactly the rule prefix, the source words, the port words and the action |
| Nft.ForwardCommandWords | src/nft.rs:207-218 | a forward command names iifname, oifname and the lower-cased ct state only when they are set, and always ends in accept |
| Nft.NatMasqueradeCommandWords | src/nft.rs:231-234 | a masquerade command matches the source network, the output interface when set, and ends in masquerade |
| Nft.HandleOf | src/nft.rs:326 | a handle read as a u64 is below 2^64 |
| Nft.ScanAt | src/nft.rs:323-334 | the search stops at the first rule item it does not move past, with that rule's handle |
| Nft.ScanNone | src/nft.rs:323-338 | a search that moves past every item finds nothing |
| Nft.ScanFirst | src/nft.rs:323-334 | whatever is found comes from the first item the search does not move past |
| Nft.ScanFound | src/nft.rs:323-334 | a found handle belongs to a rule item whose text matches |
| Nft.FindHandle | src/nft.rs:319-339 | the loop shared by both searches returns the handle HandleIn specifies |
| Nft.FindForwardHandle | src/nft.rs:319-339 | the handle of the first rule whose text contains both interfaces and, ignoring case, the state; empty fields match anything |
| Nft.FindNatHandle | src/nft.rs:341-361 | the same search, also requiring "masquerade" in the text |
| Nft.NatFoundMasquerades | src/nft.rs:341-361 | a NAT rule is only ever found when its text names masquerade and the source network |
| Route.ParseIpv4 | src/route.rs:222-232 | a parsed address has four octets |
| Route.ParseNetwork | src/route.rs:222-232 | a parsed network has a four-octet address |
| Route.Ipv4Iff | src/route.rs:222-232 | a text parses as four octets exactly when it is their dotted quad: parsing and rendering are inverse |
| Route.ParseDottedQuad | src/route.rs:222-232 | the dotted quad of four octets parses back to them |
| Route.Ipv4Canonical | src/route.rs:222-232 | only the canonical dotted quad parses as a given address |
| Route.ParseNetworkText | src/route.rs:222-232 | "address/prefix" parses as that network for every prefix up to 255, not only up to 32 |
| Route.NetworkFormatError | src/route.rs:222-232 | the malformed-network error is given exactly when the text does not hold exactly one '/' |
| Route.TableIdText | src/route.rs:273-274 | an id in rt_tables that does not parse as u32 is the invalid-table-id error |
| Route.ResolveTable | src/route.rs:247-279 | the loop computes TableId: built-in names, then a decimal id, then the rt_tables lines in order |
| Route.LinesTableStep | src/route.rs:266-276 | the first line that names the table answers; later lines are not read |
| Route.TableIdNumber | src/route.rs:257-260 | a decimal id is its own table whatever rt_tables holds |
| Route.EntryLine | src/route.rs:266-275 | an rt_tables line "<id> <name>" names its table |
| Route.LinesTableFirst | src/route.rs:266-276 | the first line naming the table answers for it whatever follows |
| Route.TableFromFile | src/route.rs:247-279 | a name neither built in nor numeric is resolved by the first rt_tables line "<id> <name>" |
| Route.LinesTableAnswers | src/route.rs:272-275 | an answer read from rt_tables is the id or an invalid id, never "not found" |
| Route.TableNotFoundIff | src/route.rs:247-279 | "not found" exactly when the name is not built in, not a number and named by no line |
| Route.Align4 | src/route.rs:201-203 | the least multiple of four not below n |
| Route.AttrBytes | src/route.rs:205-215 | an attribute that fits takes exactly align4(4 + payload length) bytes |
| Route.AttrsAligned | src/route.rs:205-215 | attributes that fit keep a buffer four-aligned |
| Route.AttrRoundTrip | src/route.rs:205-215 | the length, type and payload of an attribute read back, and the padding ends at the next four-byte boundary |
| Route.AttrsRoundTrip | src/route.rs:205-215 | every run of attributes that fit is read back as itself |
| Route.ByteBuffer.Extend | src/route.rs:296 | the buffer grows by the data |
| Route.ByteBuffer.Push | src/route.rs:211-214 | the buffer grows by one byte |
| Route.ByteBuffer.Set | src/route.rs:323-324 | one byte is overwritten, the rest kept |
| Route.ByteBuffer.CopyFromSlice | src/route.rs:347 | the prefix of the buffer is overwritten with the source, the rest kept |
| Route.PushAttr | src/route.rs:205-215 | the buffer grows by exactly the attribute's bytes: length, type, payload, zero padding |
| Route.PushAttrU32 | src/route.rs:217-219 | the buffer grows by the attribute with the four-byte little-endian payload |
| Route.NlHeader | src/route.rs:337-343 | the netlink header is sixteen bytes |
| Route.NlHeaderFields | src/route.rs:337-343 | the header's length, type, flags, sequence and zero port id read back |
| Route.FibHeader | src/route.rs:299-309 | the rule header is twelve bytes |
| Route.RtHeader | src/route.rs:427-437 | the route header is twelve bytes |
| Route.MessageRoundTrip | src/route.rs:286-350 | every request reads back as the fields it was built from, its length field is its length, and it is a whole number of four-byte words |
| Route.MessageShape | src/route.rs:335-347 | a request is its header, its family header and its attributes, in that order |
| Route.PolicyMessageFields | src/route.rs:286-350 | in a policy request the table travels in the header byte when it fits and in FRA_TABLE exactly when it does not; the destination length is the destination's prefix, 0 without one; source first, priority last |
| Route.PolicyAttrsFacts | src/route.rs:315-333 | where the source, destination, table and priority sit among a policy request's attributes |
| Route.PolicyAttrsSmall | src/route.rs:315-333 | a policy request's attributes fit and take at most 32 bytes |
| Route.PolicyRequestParsed | src/route.rs:286-291 | a parsed policy request is well formed and has a destination exactly when one was given |
| Route.DestinationAgrees | src/route.rs:418-422 | every destination but "default" is what parse_network makes of it, the "0.0.0.0/0" shortcut included |
| Route.InterfaceIndex | src/route.rs:235-243 | a found interface index is non-zero and the host's index for that name |
| Route.RouteMessageFields | src/route.rs:412-470 | in a route request prefix 0 gives universe scope and no RTA_DST, any other prefix link scope and RTA_DST; RTA_OIF always; the table in the header byte or in RTA_TABLE exactly when it does not fit |
| Route.RouteAttrsFacts | src/route.rs:443-454 | RTA_DST exactly when the prefix is non-zero, RTA_OIF always, RTA_TABLE exactly when the table exceeds 255 |
| Route.ErrorReplyRead | src/route.rs:168-184 | an NLMSG_ERROR reply fails with its errno; errno 0, the acknowledgement, succeeds |
| Route.OtherRepliesSucceed | src/route.rs:168-184 | a reply too short to hold an error code, or of another type, is success |
| Route.NetlinkSocket.constructor | src/route.rs:141 | a new socket starts its sequence at 1 |
| Route.NetlinkSocket.NextSeq | src/route.rs:144-148 | returns the current number and moves the counter on by one, wrapping at 32 bits |
| Route.NetlinkSocket.SendAndAck | src/route.rs:151-185 | the result is the kernel's reply read as an acknowledgement |
| Route.Open | src/route.rs:108-142 | fails exactly when the host refuses the socket; a new socket starts at sequence 1 |
| Route.BuildPolicy | src/route.rs:286-350 | the assembled bytes are PolicyMessage of the parsed request; an unparsable destination is its error |
| Route.FinishRule | src/route.rs:327-347 | the table and priority pushed, then the header written over its room, give PolicyMessage |
| Route.PushRuleDst | src/route.rs:319-325 | FRA_DST is pushed and its prefix patched into the rule header |
| Route.PushRuleTail | src/route.rs:327-333 | FRA_TABLE when the table needs 32 bits, then FRA_PRIORITY |
| Route.Policy | src/route.rs:286-408 | the socket error, then the request error, or the kernel's answer to the assembled request |
| Route.PolicyAdd | src/route.rs:286-350 | Policy with RTM_NEWRULE and REQUEST, ACK, CREATE, EXCL |
| Route.PolicyDelete | src/route.rs:353-408 | Policy with RTM_DELRULE and REQUEST, ACK |
| Route.BuildRoute | src/route.rs:412-470 | the assembled bytes are RouteMessage of the request |
| Route.RouteOp | src/route.rs:412-528 | the socket error, then the request error, or the kernel's answer to the assembled request |
| Route.RouteAdd | src/route.rs:412-470 | RouteOp with RTM_NEWROUTE and REQUEST, ACK, CREATE, EXCL |
| Route.RouteDelete | src/route.rs:473-528 | RouteOp with RTM_DELROUTE and REQUEST, ACK |
| Tables.Table.Insert | src/db.rs:513-514 | AUTOINCREMENT: the row is appended under the id after the largest ever issued, never reused |
| Tables.Table.Delete | src/db.rs:324-329 | exactly the id is removed and the others are kept in order; an absent id deletes nothing |
| Tables.Table.UpdateWhere | src/db.rs:369-377 | UPDATE of the rows the filter accepts: ids, order and the other rows are unchanged |
| Tables.Table.UpdateId | src/db.rs:309-322 | UPDATE of the row with that id: ids, order and the other rows are unchanged |
| Tables.Table.DeleteWhere | src/db.rs:524-526 | DELETE of the rows the filter accepts: exactly the others are kept, in order |
| Tables.SelectSorted | src/db.rs:211-221 | a filtered, ordered query returns a permutation of exactly the rows that pass the filter, sorted |
| Tables.FindBy | src/db/client.go:122-125 | the row found holds the value in the column; none is found exactly when no row holds it |
| Tables.UniqueFind | src/db/client.go:122-125 | in a UNIQUE column the row found by a value is the only row holding it |
| Tables.UniqueSnoc | src/db/client.go:81-97 | appending a row whose value is not present keeps the column unique and finds the row |
| Ordering.SortByCorrect | src/db.rs:211-221 | ORDER BY returns the same rows, sorted by the key |
| Ordering.SortedUnique | src/db.rs:211-221 | when no two rows share a key, the order is unique |
| Json.Get | src/verify.rs:168 | a member of an object; nothing for any other value |
| Json.AsU64 | src/verify.rs:179-181 | present exactly for an integer in the range of u64 |
| Json.AsStr | src/verify.rs:175-177 | present exactly for a string |
| Machine.AsI32 | src/presets.rs:110 | `as i32` on a u32: in range, congruent modulo 2^32, unchanged below 2^31 |
| Machine.ReadLE32Of | src/route.rs:217-219 | a 32-bit value encoded in host (little-endian) order reads back as itself |
| Strings.ParseRustIntRender | src/route.rs:258 | a rendered integer in range parses back to itself under str::parse |
| Strings.SplitJoin | src/db/stats.go:84-129 | parts free of the separator, joined, split back into those parts |
| Strings.JoinSplit | src/db/stats.go:84-129 | splitting then joining with the separator gives the text back |
| WgAllowedIps.InsertConfig | src/bridge_allowedips.go:38 | the text is the key line then the allowed_ip line, each ended by a line break |
| WgAllowedIps.RemoveConfig | src/bridge_allowedips.go:76 | the text is the key line then replace_allowed_ips=true, each ended by a line break |
| WgAllowedIps.Kept | src/bridge_allowedips.go:56-60 | at most one kept prefix per input line |
| WgAllowedIps.KeptPlain | src/bridge_allowedips.go:56-60 | every kept prefix is non-empty, trimmed at both ends and free of line breaks |
| WgAllowedIps.AppendKept | src/bridge_allowedips.go:55-61 | the loop appends exactly one allowed_ip line per kept prefix, in order |
| WgAllowedIps.ReplaceConfig | src/bridge_allowedips.go:53-61 | the text sent is the replacing section for the key and the kept prefixes |
| WgAllowedIps.BlankKeepsNothing | src/bridge_allowedips.go:56-60 | a list of blank lines keeps no prefix |
| WgAllowedIps.RemoveIsEmptyReplace | src/bridge_allowedips.go:53-82 | replacing with an all-blank prefix list sends exactly what RemoveByPeer sends |
| WgAllowedIps.TrimAll | src/bridge_allowedips.go:103-104 | each line with surrounding white space removed, one per line |
| WgAllowedIps.ParsePeerPrefixes | src/bridge_allowedips.go:99-112 | the result is the prefix lines of the target peer's sections, in order, read from the trimmed lines |
| WgAllowedIps.ScanPeerLines | src/bridge_allowedips.go:103-112 | the scanning loop computes the target's prefixes over the trimmed lines |
| WgAllowedIps.ScanLine | src/bridge_allowedips.go:104-111 | a public_key line opens the section exactly when its key is the target's; inside it an allowed_ip line yields its prefix |
| WgAllowedIps.AllowedLinesRead | src/bridge_allowedips.go:103-112 | a section of allowed_ip lines for the target reads back as its prefixes |
| WgAllowedIps.KeyLineSwitches | src/bridge_allowedips.go:105-107 | a public_key line opens the named peer's section and closes any other |
| WgAllowedIps.OtherPeerEndsSection | src/bridge_allowedips.go:105-107 | a key line for another peer ends the target's section |
| WgAllowedIps.ReplaceLineSkipped | src/bridge_allowedips.go:103-112 | the replace_allowed_ips line yields nothing and leaves the section as it was |
| WgAllowedIps.ReplaceTextSplit | src/bridge_allowedips.go:53-61 | the replacing text splits into the key line, the replace line and one allowed_ip line per kept prefix |
| WgAllowedIps.ReplaceSectionRead | src/bridge_allowedips.go:99-112 | the section Replace sends, once trimmed, reads back as its prefixes |
| WgAllowedIps.ReplaceReadBack | src/bridge_allowedips.go:47-115 | what ReplaceForPeer sends for a key, parsed back for that key by GetForPeer, is exactly the kept prefixes |
| WgAllowedIps.GetDevice | src/bridge_device.go:351-357 | the device under the handle, or WG_ERR_NOT_FOUND exactly when there is none |
| WgAllowedIps.SetCode | src/bridge_allowedips.go:40-43 | WG_OK exactly when IpcSet succeeds, WG_ERR_IPC_SET otherwise |
| WgAllowedIps.AllowedIpsInsert | src/bridge_allowedips.go:32-44 | unknown handle is WG_ERR_NOT_FOUND; otherwise the insert text goes to IpcSet and its outcome is the code |
| WgAllowedIps.AllowedIpsReplaceForPeer | src/bridge_allowedips.go:47-67 | unknown handle is WG_ERR_NOT_FOUND; otherwise the replacing text goes to IpcSet and its outcome is the code |
| WgAllowedIps.ReplaceOn | src/bridge_allowedips.go:53-63 | the replacing text is handed to the device and its answer returned |
| WgAllowedIps.AllowedIpsRemoveByPeer | src/bridge_allowedips.go:70-82 | unknown handle is WG_ERR_NOT_FOUND; otherwise the removing text goes to IpcSet and its outcome is the code |
| WgAllowedIps.AllowedIpsGetForPeer | src/bridge_allowedips.go:88-115 | nil for an unknown handle or a failed dump; otherwise the target's prefixes joined by line breaks |
| WgChain.Chain.Entry | src/multihop/config.go:35-40 | none exactly for an empty chain, otherwise the first hop |
| WgChain.Chain.Exit | src/multihop/config.go:43-48 | none exactly for an empty chain, otherwise the last hop |
| WgChain.FWMarks | src/multihop/config.go:51-59 | the loop collects the non-zero marks in hop order |
| WgChain.MarksBounded | src/multihop/config.go:51-59 | no more marks than hops |
| WgChain.MarksMembership | src/multihop/config.go:51-59 | a mark is listed exactly when it is non-zero and some hop carries it |
| WgChain.MarksNonZero | src/multihop/config.go:54 | no listed mark is zero |
| WgChain.MarksAllSet | src/multihop/config.go:51-59 | with no zero mark the marks are exactly the hops' marks in order |
| WgChain.SingleHop | src/multihop/config.go:35-48 | a one-hop chain enters and exits at that hop |
| WgRegistry.HandleRegistry.constructor | src/handle_registry.go:17-21 | nothing stored and no handle issued |
| WgRegistry.HandleRegistry.Add | src/handle_registry.go:23-29 | the object is stored under the next handle, greater than every handle issued before; the count grows by one |
| WgRegistry.HandleRegistry.Get | src/handle_registry.go:31-36 | the stored object exactly when the handle is live; handles at or below zero are never live |
| WgRegistry.HandleRegistry.Remove | src/handle_registry.go:38-46 | the handle is dropped, reporting whether it was live; the counter is kept so handles are never reused |
| WgRegistry.HandleRegistry.Count | src/handle_registry.go:48-52 | zero exactly when nothing is stored |
| WgServer.ServerConfig.DnsString | src/db/server.go:114-123 | the primary server, then ", " and each of the secondary and IPv6 servers that is set |
| WgServer.DnsStringCases | src/db/server.go:114-123 | the four cases of which optional servers are set |
| WgServer.NullStr | src/db/server.go:131-136 | NULL exactly for the empty text |
| WgServer.OrEmpty | src/db/server.go:41-82 | a NULL column reads as "" |
| WgServer.ToRow | src/db/server.go:28-38 | the IPv6 endpoint, network and DNS go through nullStr; the other columns are stored as given |
| WgServer.FromRow | src/db/server.go:41-82 | every nullable column is read with NULL as "" |
| WgServer.RowRoundTrip | src/db/server.go:28-82 | reading back an upserted row gives the same config: nothing is lost to NULL |
| WgServer.GetServerConfig | src/db/server.go:41-82 | the stored config of the device, or "no server config for device N" exactly when there is none |
| WgServer.Upsert | src/db/server.go:28-38 | INSERT OR REPLACE: the device's row is replaced and every other row kept |
| WgServer.UpsertThenGet | src/db/server.go:28-82 | reading the device after an upsert gives exactly the config written |
| WgServer.DefaultConfig | src/db/server.go:85-105 | the defaults: endpoint 0.0.0.0:port, 10.8.0.0/24, 1.1.1.1 and 9.9.9.9, MTU 1420, no IPv6 |
| WgServer.GetOrCreate | src/db/server.go:85-105 | an existing config is returned with nothing written; otherwise the defaults are stored and returned |
| WgServer.GetOrCreateIdempotent | src/db/server.go:85-105 | a second call is the same as the first |
| WgPool.PutBigEndian | src/db/client.go:368-391 | four bytes |
| WgPool.Texts4 | src/db/client.go:368-391 | one dotted text per address |
| WgPool.ExpandV4 | src/db/client.go:368-391 | the loop yields the addresses base+2 .. base+hostCount that the network holds, as text |
| WgPool.HostsAll | src/db/client.go:368-391 | on a network with its host bits clear every candidate is inside, so the hosts are exactly base+2 .. base+n-1 |
| WgPool.HostInside | src/db/client.go:380-386 | every offset inside the block stays below 2^32 and inside the network |
| WgPool.Slash24 | src/db/client.go:368-391 | a /24 network offers .2 to .254: 253 addresses in order |
| WgPool.TinyNetworks | src/db/client.go:372-378 | a /31 or /32 network offers no address |
| WgPool.Texts16 | src/db/client.go:393-410 | one text per address |
| WgPool.ExpandV6 | src/db/client.go:393-410 | the loop yields the network's address with last byte 2 .. 254, each one the network holds |
| WgPool.Hosts6Shape | src/db/client.go:393-410 | every host agrees with the network on its first 15 bytes and has last byte 2 .. 254, in increasing order |
| WgPool.V6Shape | src/db/client.go:393-410 | at most 253 hosts, each the network's address with last byte 2 .. 254 |
| WgPool.CandidateInside | src/db/client.go:400-406 | a candidate differs from the network only in its last byte, so a prefix of at most 120 bits contains it |
| WgPool.Hosts6All | src/db/client.go:393-410 | a prefix of at most 120 bits keeps every candidate |
| WgPool.V6Full | src/db/client.go:393-410 | a prefix of at most 120 bits offers exactly 253 addresses |
| WgPool.Expansion | src/db/client.go:356-366 | the parse error "parse cidr: …", or the IPv4 hosts for family 4, or the IPv6 hosts otherwise |
| WgPool.ExpandSubnet | src/db/client.go:356-366 | computes the expansion |
| WgPersist.FilterIpcDump | src/persistent_device.go:106-120 | the loop computes the filtered dump: each line that is not a read-only field, followed by a line break |
| WgPersist.KeptLinesExact | src/persistent_device.go:106-120 | a line is kept exactly when it is in the dump and is not a read-only field |
| WgPersist.FilterTerminated | src/persistent_device.go:106-120 | the filtered text is the kept lines, each followed by a line break |
| WgPersist.FilteredLines | src/persistent_device.go:106-120 | the filtered dump splits back into exactly the kept lines, then an empty piece |
| WgPersist.KeptAll | src/persistent_device.go:106-120 | a dump with no read-only field keeps every line |
| WgPersist.FilterTwice | src/persistent_device.go:93-120 | filtering a filtered dump keeps every line and adds one more empty line |
| WgPersist.PersistentDevice.Wrap | src/persistent_device.go:40-76 | the device and the stored row, with the state database open |
| WgPersist.PersistentDevice.Restore | src/persistent_device.go:123-136 | no row or an empty dump restores nothing; otherwise the dump goes to IpcSet and its error is the result |
| WgPersist.PersistentDevice.Persist | src/persistent_device.go:93-102 | the filtered dump replaces the stored row; an IpcGet error is reported as "ipc get: …", and a closed state database gives "sql: database is closed", in both cases with nothing written |
| WgPersist.PersistentDevice.IpcSet | src/persistent_device.go:79-84 | the configuration goes to the device; only when it is accepted is the state persisted, with Persist's outcome |
| WgPersist.PersistentDevice.IpcGet | src/persistent_device.go:87-89 | the device's dump as it stands |
| WgPersist.PersistentDevice.Close | src/persistent_device.go:139-142 | the device and then the state database are closed; the stored row is kept |
| WgPersist.NewPersistentDevice | src/persistent_device.go:40-76 | fails exactly at the first failing step (open, ping, TUN, device, restore) with that step's message; otherwise a fresh device holding the stored row, restored from it when it is non-empty |
| WgKeys.Clamp0 | src/core/keys.go:19 | masking with 248 clears exactly the three low bits |
| WgKeys.Clamp31 | src/core/keys.go:20-21 | masking with 127 then or-ing 64 clears the top bit and sets the next one |
| WgKeys.ClampFirst | src/core/keys.go:19 | the first byte rounded down to a multiple of 8 |
| WgKeys.ClampLast | src/core/keys.go:20-21 | the last byte forced into 64 .. 127, keeping its low six bits |
| WgKeys.Clamped | src/core/keys.go:19-21 | only the first and last bytes change, as Curve25519 clamping requires |
| WgKeys.ClampedIdempotent | src/core/keys.go:19-21 | clamping a clamped key changes nothing |
| WgKeys.ClampInPlace | src/core/keys.go:19-21 | the array ends as the clamped key |
| WgKeys.HexDigit | src/core/keys.go:22 | a lower-case digit whose value is the nibble |
| WgKeys.HexEncode | src/core/keys.go:22 | two lower-case hex digits per byte |
| WgKeys.HexDecodeIff | src/core/keys.go:28 | decoding succeeds exactly on even-length all-hex text, giving half as many bytes |
| WgKeys.HexDecodeError | src/core/keys.go:28-30 | the first invalid character is the error reported |
| WgKeys.HexRoundTrip | src/core/keys.go:22-28 | decoding an encoding gives the bytes back |
| WgKeys.HexCanonical | src/core/keys.go:28-36 | encoding a decoded text gives its lower-case spelling back |
| WgKeys.Sextet | src/core/keys.go:55 | each six-bit value maps to a character of the standard alphabet |
| WgKeys.SextetValue | src/core/keys.go:55 | a decoded character's sextet maps back to it |
| WgKeys.SextetInverse | src/core/keys.go:55 | the character of a sextet decodes to that sextet |
| WgKeys.DecodeGroup | src/core/keys.go:55 | a decoded group holds one to three bytes, three unless it is the final one |
| WgKeys.BytesOfSextets | src/core/keys.go:55 | each byte comes back from the two sextets that hold its bits |
| WgKeys.Base64Length | src/core/keys.go:55 | four characters per three bytes or part of three |
| WgKeys.Base64RoundTrip | src/core/keys.go:55 | decoding the standard encoding gives the bytes back |
| WgKeys.Base64Alphabet | src/core/keys.go:55 | every character is from the alphabet or is padding |
| WgKeys.GeneratePrivateKey | src/core/keys.go:14-23 | a failed random read is "random read: …"; otherwise the clamped random bytes in hex |
| WgKeys.GeneratePresharedKey | src/core/keys.go:41-47 | a failed random read is "random read: …"; otherwise 64 hex digits that decode to the random bytes |
| WgKeys.PrivateKeyShape | src/core/keys.go:12-23 | a generated private key is 64 lower-case hex digits naming a clamped key |
| WgKeys.DerivePublicKey | src/core/keys.go:27-37 | "invalid private key hex" unless the text decodes to exactly 32 bytes; then the X25519 error as "x25519: …" or the public key in hex |
| WgKeys.GeneratedKeyDerives | src/core/keys.go:14-37 | every generated private key passes DerivePublicKey's validation |
| WgKeys.HexToBase64 | src/core/keys.go:50-56 | fails exactly when the hex does not decode, with that error; otherwise a text that decodes back to the key bytes |
| WgKeys.KeyBase64Length | src/core/keys.go:50-56 | a 64-digit key converts to the 44 characters of a WireGuard configuration key |
| WgKeys.KeyEncodedLength | src/core/keys.go:55 | 32 bytes encode to 44 characters |
| WgStats.Push | src/db/stats.go:111-121 | one more decimal character: a non-digit is a syntax error, a value past 2^64 - 1 a range error, and the first error stands |
| WgStats.ScanUint | src/db/stats.go:111-121 | a value the scan ends on fits in 64 bits |
| WgStats.ParseInt64 | src/db/stats.go:111-121 | strconv.ParseInt base 10: the value lies in the signed 64-bit range; on error it is 0 or the nearest bound |
| WgStats.ScanAllDigits | src/db/stats.go:111-121 | on digits the scan finds their value, or a range error once it passes 2^64 - 1 |
| WgStats.ScanOnlyDigits | src/db/stats.go:111-121 | a scan that ends on a value saw only digits, and the value is theirs |
| WgStats.ParseInt64Ok | src/db/stats.go:111-121 | parsing succeeds only on an optional sign followed by at least one digit |
| WgStats.ParseInt64Digits | src/db/stats.go:111-121 | on a sign and digits: the value when it fits in 64 bits, else the nearest bound with an error |
| WgStats.ParseInt64Syntax | src/db/stats.go:111-121 | a sign alone or a non-digit after the sign gives 0 with an error |
| WgStats.ScanErrorStays | src/db/stats.go:111-121 | once a prefix is in error the whole scan is, with the same error |
| WgStats.ParseInt64Render | src/db/stats.go:111-121 | every 64-bit integer rendered in decimal parses back to itself |
| WgStats.NewPeer | src/db/stats.go:104 | a public_key line opens a record with that key, empty endpoint, no handshake and zero counters |
| WgStats.KeyValue | src/db/stats.go:93-97 | SplitN on the first '=': the key holds no '=' and key, '=' and value rebuild the line; none without '=' |
| WgStats.FieldOf | src/db/stats.go:89-97 | a trimmed, non-blank line with '=' gives a key free of '=' |
| WgStats.Apply | src/db/stats.go:105-122 | a field other than public_key never changes the open record's key |
| WgStats.Finish | src/db/stats.go:125-128 | the records read are the closed ones, then the open one |
| WgStats.ParseIpcGetPeers | src/db/stats.go:84-129 | the loop computes the parsed records of the output |
| WgStats.ReadAppend | src/db/stats.go:88-124 | reading two runs of lines is reading the first, then the second |
| WgStats.StepKeys | src/db/stats.go:99-104 | a line adds a record key exactly when its key is public_key |
| WgStats.OneRecordPerKey | src/db/stats.go:84-129 | one record per public_key line, in line order, carrying that line's value |
| WgStats.Preamble | src/db/stats.go:101-122 | lines before any public_key line (the interface section) leave no trace |
| WgStats.ParsedSane | src/db/stats.go:105-122 | every parsed record has a positive handshake or none |
| WgStats.LineField | src/db/stats.go:89-97 | a line key=val with a plain key and a value free of white space reads back as that pair |
| WgStats.ReadPeer | src/db/stats.go:99-122 | reading one peer's fields closes the open record and leaves exactly that peer open |
| WgStats.ReadDump | src/db/stats.go:84-129 | reading the fields of several peers appends exactly those peers |
| WgStats.ParseDump | src/db/stats.go:84-129 | an interface section without public_key lines followed by the lines of each peer parses back to exactly those peers, in order |
| WgStats.EmptyDump | src/db/stats.go:84-129 | the empty output holds no peer |
| WgStats.ApplyStats | src/db/stats.go:71-73 | writing the records keeps the image well formed |
| WgStats.LastFor | src/db/stats.go:71-73 | the last record for a key, or none exactly when no record carries it |
| WgStats.SyncLastWins | src/db/stats.go:71-73 | a sync keeps the clients, their order and every other table; each reported client carries the figures of the last record for its key |
| WgStats.SyncOnce | src/db/stats.go:64-74 | an IpcGet error writes nothing; otherwise each parsed record is written in order, a write matching no client ignored |
| WgTunnels.Insert | src/db/multihop.go:49-68 | fails exactly when the name or the interface is taken, reporting interface_name when both are (SQLite checks the index declared last first); otherwise appends the tunnel under a fresh id |
| WgTunnels.Get | src/db/multihop.go:71-79 | the tunnel with that name, or "scan multihop: sql: no rows in result set" exactly when none has it |
| WgTunnels.Delete | src/db/multihop.go:82-92 | an absent name is sql.ErrNoRows; otherwise that tunnel is gone and every other kept |
| WgTunnels.List | src/db/multihop.go:95-116 | every tunnel, in id order |
| WgTunnels.Enabled | src/db/multihop.go:119-140 | exactly the enabled tunnels, lowest priority first |
| WgTunnels.SetEnabled | src/db/multihop.go:145-155 | an absent name is sql.ErrNoRows; otherwise only the named tunnel's enabled flag changes |
| WgTunnels.SetStatus | src/db/multihop.go:158-163 | only the named tunnel's status, error and start time change; an unknown name changes nothing |
| WgTunnels.ClearRuntime | src/db/multihop.go:166-169 | every tunnel is stopped with no error and no start time; enabled is kept |
| WgTunnels.Update | src/db/multihop.go:172-191 | an absent name is sql.ErrNoRows; otherwise the named tunnel takes the update's remote and routing fields |
| WgTunnels.UpdateKeepsIdentity | src/db/multihop.go:172-191 | an update keeps name, enabled, keys, interface, listen port and runtime state, and applying it twice is applying it once |
| WgTunnels.DeleteFreesName | src/db/multihop.go:82-92 | after a delete the name is free for a new tunnel |
| WgTunnels.ListToJson | src/db/multihop.go:200-206 | a bracketed JSON array; no tunnels give "[]" and one tunnel gives its encoding in brackets |
| WgTunnels.ListToJsonSnoc | src/db/multihop.go:200-206 | one more tunnel adds a comma and its encoding before the closing bracket, so the array holds the encodings in list order |
| WgDb.ReleaseWhere | src/db/client.go:341-351 | the matching pool rows become free and every other row is kept |
| WgDb.FirstFree | src/db/client.go:312-322 | the lowest-rowid free row of the family; none exactly when the family has no free row |
| WgDb.CountFamily | src/db/client.go:233-238 | zero exactly when no row is of the family |
| WgDb.FreeRows | src/db/client.go:248-262 | one free row per address, in order |
| WgDb.AddRowsSpec | src/db/client.go:248-266 | on a unique pool the transaction commits exactly when the addresses are new and distinct, appending one free row each; otherwise it rolls back with the UNIQUE error |
| WgDb.LastSlash | src/db/client.go:343-346 | the last '/' of the text; none exactly when it has no '/' |
| WgDb.CutCidr | src/db/client.go:343-346 | the text before the last '/', or the whole text without one |
| WgDb.CutSuffix | src/db/client.go:312-346 | releasing what AllocateIP returned names the allocated address again |
| WgDb.NormalPage | src/db/client.go:129-131 | pages below 1 become 1 |
| WgDb.NormalLimit | src/db/client.go:132-134 | limits outside 1..100 become 50 |
| WgDb.Offset | src/db/client.go:135 | the rows before the page: (page - 1) * limit |
| WgDb.Window | src/db/client.go:142 | LIMIT and OFFSET over rows in id order: at most l rows taken consecutively from the offset; empty past the end |
| WgDb.WgImage.UpsertDevice | src/db/client.go:54-60 | INSERT OR REPLACE of row 1: the device reads back with no start time and nothing else changes |
| WgDb.WgImage.GetDevice | src/db/client.go:63-70 | the device row, or sql.ErrNoRows exactly when there is none |
| WgDb.WgImage.SetDeviceStartedAt | src/db/client.go:73-76 | only the device's start time changes; without a device nothing changes |
| WgDb.WgImage.GetClient | src/db/client.go:122-125 | the client with that key, or sql.ErrNoRows exactly when none has it |
| WgDb.WgImage.InsertClient | src/db/client.go:81-97 | fails exactly when public_key, allowed_ip or a non-empty allowed_ip_v6 is taken, reporting allowed_ip_v6, then allowed_ip, then public_key (SQLite checks the index declared last first); otherwise the row is appended enabled, stamped, with a fresh id |
| WgDb.WgImage.DeleteClient | src/db/client.go:100-119 | an unknown key is sql.ErrNoRows with nothing changed; otherwise the client's addresses return to the pool and its row is deleted together |
| WgDb.WgImage.ListClients | src/db/client.go:128-166 | the normalised page of clients in id order at offset (page - 1) * limit, and the total |
| WgDb.WgImage.SetEnabled | src/db/client.go:169-183 | an unknown key is sql.ErrNoRows; otherwise the flag is set and peer_index cleared on that client only |
| WgDb.WgImage.SetPeerIndex | src/db/client.go:186-189 | only the named client's peer_index changes; an unknown key changes nothing |
| WgDb.WgImage.UpdateStats | src/db/client.go:211-217 | only the named client's runtime columns change |
| WgDb.WgImage.ClearRuntimeState | src/db/client.go:220-223 | no client keeps a peer_index; everything else is kept |
| WgDb.WgImage.EnabledClients | src/db/client.go:192-208 | exactly the enabled clients, in id order |
| WgDb.WgImage.UpdatePeers | src/db/client.go:169-223 | a rewrite that keeps the UNIQUE columns keeps the image well formed |
| WgDb.WgImage.SetAllowedIp | src/bridge/state.go:374 | fails on the UNIQUE index exactly when another client holds the address; otherwise only that client's address changes |
| WgDb.WgImage.SetAllowedIpV6 | src/bridge/state.go:383 | fails exactly when another client holds the non-empty IPv6 address; otherwise only that client's IPv6 address changes |
| WgDb.WgImage.AllocateIP | src/db/client.go:312-338 | the lowest-rowid free address of the family goes to the peer and is returned with /32 or /128; an exhausted pool or an unknown peer changes nothing |
| WgDb.WgImage.ReleaseIP | src/db/client.go:341-351 | the address, with any /prefix cut, is free again |
| WgDb.WgImage.InitV6 | src/db/client.go:272-308 | only with an IPv6 network and no IPv6 rows yet; an error leaves the image unchanged |
| WgDb.WgImage.Populate | src/db/client.go:248-266 | committed whole when the pool stays unique, otherwise rolled back with the UNIQUE error |
| WgDb.WgImage.InitIPPool | src/db/client.go:232-270 | the IPv4 pool is populated only while empty, then the IPv6 step runs; a committed IPv4 population stays when the IPv6 step fails |
| WgDb.WgImage.GetServerConfig | src/db/server.go:41-82 | the server config stored for the device |
| WgDb.WgImage.UpsertServerConfig | src/db/server.go:28-38 | the foreign key admits only device row 1 when it exists; then the config reads back as written |
| WgDb.WgImage.GetOrCreateServerConfig | src/db/server.go:85-105 | an existing config is returned untouched; otherwise the defaults are upserted and returned |
| WgDb.Fresh | src/db/schema.go:46-60 | the empty database: no device, no server config, no clients, no pool |
| WgDb.DeleteDropsKey | src/db/client.go:100-119 | after deleting the row a unique key finds, no row holds that key |
| WgDb.UpdateFinds | src/db/client.go:169-217 | an update by key rewrites the row the key finds, and finds it again |
| WgDb.CountGrows | src/db/client.go:233-238 | appending rows keeps a family present once present |
| WgDb.CountFreeRows | src/db/client.go:248-262 | rows added for one family are of that family only |
| WgDb.InitV6Idempotent | src/db/client.go:272-308 | running the IPv6 step twice changes nothing more |
| WgDb.InitIPPoolIdempotent | src/db/client.go:232-308 | a second InitIPPool with the same networks leaves the database as the first left it |
| WgDb.ReuseAfterDelete | src/db/client.go:100-119 | after a client is deleted the next allocation of its address's family hands out that address or a lower one |
| WgDb.AllocateThenRelease | src/db/client.go:312-351 | releasing the address AllocateIP returned restores the database exactly |
| WgDb.PagingCoversAll | src/db/client.go:128-166 | with a valid limit the first k pages together are the first k * l clients in id order |
| WgDb.InsertPool | src/db/client.go:248-266 | the population loop computes the transaction's outcome |
| WgDb.StripCidr | src/db/client.go:343-346 | the scan back for '/' computes the cut |
| WgDb.BridgeDB.Open | src/db/schema.go:18-35 | the connection sees the file |
| WgDb.BridgeDB.UpsertDevice | src/db/client.go:54-60 | the image becomes WgImage.UpsertDevice of the old one |
| WgDb.BridgeDB.SetDeviceStartedAt | src/db/client.go:73-76 | the image becomes WgImage.SetDeviceStartedAt of the old one |
| WgDb.BridgeDB.InsertClient | src/db/client.go:81-97 | WgImage.InsertClient's error with nothing changed, or its new row and image |
| WgDb.BridgeDB.DeleteClient | src/db/client.go:100-119 | WgImage.DeleteClient's error with nothing changed, or its image |
| WgDb.BridgeDB.SetEnabled | src/db/client.go:169-183 | WgImage.SetEnabled's error with nothing changed, or its image |
| WgDb.BridgeDB.SetPeerIndex | src/db/client.go:186-189 | the image becomes WgImage.SetPeerIndex of the old one |
| WgDb.BridgeDB.UpdateStats | src/db/client.go:211-217 | the image becomes WgImage.UpdateStats of the old one |
| WgDb.BridgeDB.ClearRuntimeState | src/db/client.go:220-223 | the image becomes WgImage.ClearRuntimeState of the old one |
| WgDb.BridgeDB.SetAllowedIp | src/bridge/state.go:374 | WgImage.SetAllowedIp's error with nothing changed, or its image |
| WgDb.BridgeDB.SetAllowedIpV6 | src/bridge/state.go:383 | WgImage.SetAllowedIpV6's error with nothing changed, or its image |
| WgDb.BridgeDB.AllocateIP | src/db/client.go:312-338 | WgImage.AllocateIP's error with nothing changed, or its address and image |
| WgDb.BridgeDB.ReleaseIP | src/db/client.go:341-351 | the image becomes WgImage.ReleaseIP of the old one |
| WgDb.BridgeDB.InitV6 | src/db/client.go:272-308 | the statements compute WgImage.InitV6 |
| WgDb.BridgeDB.Commit | src/db/client.go:248-266 | the transaction computes WgImage.Populate |
| WgDb.BridgeDB.InitIPPool | src/db/client.go:232-270 | the statements compute WgImage.InitIPPool |
| WgDb.BridgeDB.UpsertServerConfig | src/db/server.go:28-38 | WgImage.UpsertServerConfig's error with nothing changed, or its image |
| WgDb.BridgeDB.GetOrCreateServerConfig | src/db/server.go:85-105 | WgImage.GetOrCreateServerConfig's error with nothing changed, or its config and image |
| WgDb.BridgeDB.InsertTunnel | src/db/multihop.go:49-68 | WgTunnels.Insert's error with nothing changed, or its row and table |
| WgDb.BridgeDB.DeleteTunnel | src/db/multihop.go:82-92 | WgTunnels.Delete's error with nothing changed, or its table |
| WgDb.BridgeDB.SetTunnelEnabled | src/db/multihop.go:145-155 | WgTunnels.SetEnabled's error with nothing changed, or its table |
| WgDb.BridgeDB.SetTunnelStatus | src/db/multihop.go:158-163 | the tunnels become WgTunnels.SetStatus of the old ones |
| WgDb.BridgeDB.ClearTunnelRuntime | src/db/multihop.go:166-169 | the tunnels become WgTunnels.ClearRuntime of the old ones |
| WgDb.BridgeDB.UpdateTunnel | src/db/multihop.go:172-191 | WgTunnels.Update's error with nothing changed, or its table |
| WgBridge.GenerateKeyPair | src/core/keys.go:14-39 | the private key is the hex of the clamped random bytes and the public key its X25519 image; a failure of either step is the error, prefixed with its step |
| WgBridge.GenerateClientKeys | src/bridge/state.go:335-347 | a client's key pair, then its preshared key; the first failing step's prefixed error is the result |
| WgBridge.LaunchDevice | src/bridge/state.go:246-276 | a device is returned iff creation, configuration and bring-up all succeed; it then received exactly the configuration and Up; otherwise the first failing step's error pair is returned |
| WgBridge.StartHopDevice | src/bridge/state.go:918-960 | a hop device is returned iff every step succeeds, and then it received exactly the hop's device configuration, its one peer and Up; otherwise the first failing step's message |
| WgBridge.RestoreHops | src/bridge/state.go:897-914 | every enabled tunnel is attempted in turn and its outcome written (Restored); the devices returned are fresh, distinct, keyed by the names that started, each configured for its tunnel |
| WgBridge.RestoreNext | src/bridge/state.go:903-913 | one iteration of the restore loop: the restore state moves on by one tunnel and only fresh devices are added |
| WgBridge.RestoreHop | src/bridge/state.go:904-912 | one tunnel's attempt: its row gets the outcome (HopOutcome) and a started device is listed under its name, replacing nothing else |
| WgBridge.RecordHop | src/bridge/state.go:904-912 | the row of the attempted tunnel gets "error" with the message, or "running" with the time |
| WgBridge.AddPeerToDevice | src/bridge/state.go:884-893 | the device receives exactly one IpcSet with the client's peer configuration |
| WgBridge.AddPeers | src/bridge/state.go:284-290 | the device receives one peer configuration per enabled client, in order (PeerCalls) |
| WgBridge.Bring | src/bridge/state.go:278-293 | after bring-up the start time is stored, every enabled client is handed to the device and the enabled tunnels restored (RunningImage) |
| WgBridge.AddV6Db | src/bridge/state.go:377-385 | the database and record after the IPv6 step equal AddV6 of the old database |
| WgBridge.EnrollDb | src/bridge/state.go:349-385 | the database and result after insert, IPv4 allocation and the IPv6 step equal Enroll of the old database |
| WgBridge.EnrollPeer | src/bridge/state.go:349-401 | database, device calls and result equal AddedClient of the old database |
| WgBridge.LaunchDb | src/bridge/state.go:776-788 | the tunnels table after a start attempt equals Launched; nothing else in the database changes |
| WgBridge.HaltDb | src/bridge/state.go:804-808 | the tunnels table after a stop or disable equals Halted; nothing else in the database changes |
| WgBridge.State.constructor | src/bridge/state.go:62-64 | a new bridge is uninitialised, with no database, device, stats sync or registered hop |
| WgBridge.State.CloseHops | src/bridge/state.go:194-200 | every registered multihop device receives exactly one Close; the main device is not touched |
| WgBridge.State.QuiesceDb | src/bridge/state.go:202-206 | an open database is left Quiesced (runtime state cleared, start time removed); a closed one is unchanged |
| WgBridge.State.ClearDb | src/bridge/state.go:91-93 | the database after the two clears equals RuntimeCleared of the old one |
| WgBridge.State.CloseInternal | src/bridge/state.go:188-219 | the stats sync stops, each hop device and the main device are closed once, an open database is Quiesced, and the bridge is uninitialised with no database, device or hops |
| WgBridge.State.Release | src/bridge/state.go:194-219 | every device is closed once and every field reset, the interface name kept |
| WgBridge.State.Close | src/bridge/state.go:175-185 | uninitialised: "not initialized" and nothing changes; otherwise no error and the state closeInternal leaves |
| WgBridge.State.Init | src/bridge/state.go:70-125 | a failed open leaves status error with its message; otherwise the runtime state is cleared, a missing device record seeded from fresh keys (a key failure closes the database), and the status is ready iff a server configuration exists, needs_setup otherwise |
| WgBridge.State.Open | src/bridge/state.go:79-125 | the part of Init after the previous state is closed, with the same outcomes as Init |
| WgBridge.State.Seed | src/bridge/state.go:95-124 | a missing device record is created from the generated keys, or the key error returned with the database closed and nothing written; the status becomes InitStatus |
| WgBridge.State.Setup | src/bridge/state.go:130-171 | refused outside needs_setup and ready with the status named; otherwise the defaulted configuration is stored and the pool initialised (SetupImage) and the status is ready |
| WgBridge.State.SetError | src/bridge/state.go:707-710 | status becomes error and the last error the message; nothing else changes |
| WgBridge.State.Start | src/bridge/state.go:223-298 | running: "already running"; other non-ready: "not ready"; a failing read or device step records its error and leaves status error with the database unchanged; success: a fresh device with exactly the configuration, Up and one peer per enabled client, RunningImage written, restored hops registered, status running |
| WgBridge.State.Activate | src/bridge/state.go:278-297 | the device installed, peers added, tunnels restored and registered, status running with no error |
| WgBridge.State.Install | src/bridge/state.go:278-296 | the device and the restored hops are installed and the status is running with no error; nothing else changes |
| WgBridge.State.StartHop | src/bridge/state.go:918-969 | the error is HopError; on success a fresh device configured for the tunnel is registered under its name, replacing any earlier entry |
| WgBridge.State.StopHop | src/bridge/state.go:972-983 | the name leaves the registry and its device, if any, is closed once; other hop devices receive nothing |
| WgBridge.State.Stop | src/bridge/state.go:301-321 | not running: "not running" and nothing changes; running: the device gets Down then Close, the database is Quiesced and the status is ready |
| WgBridge.State.AddClient | src/bridge/state.go:327-402 | refused unless running; a key failure writes nothing and touches no device; otherwise database, device calls and result are those of AddedClient |
| WgBridge.State.RemoveClient | src/bridge/state.go:405-419 | refused unless running; the device receives the removal whatever happens, then the client is deleted or the delete error returned with the database unchanged |
| WgBridge.State.EnableClient | src/bridge/state.go:422-437 | refused unless running; an unknown key is "get client" with nothing changed; a known client is given to the device again with its stored configuration and marked enabled |
| WgBridge.State.DisableClient | src/bridge/state.go:440-452 | refused unless running; the device receives the removal, then the client is marked disabled or the error returned with the database unchanged |
| WgBridge.State.GetClient | src/bridge/state.go:455-468 | the guard's error, or the stored client with that key |
| WgBridge.State.ListClients | src/bridge/state.go:471-484 | the guard's error, or the stored page of clients with the total |
| WgBridge.State.ExportClientConfig | src/bridge/state.go:488-569 | not initialised, a closed database, an unknown client and a missing device record are each their error; otherwise the text of ExportConf, whose properties ExportConfSpec states |
| WgBridge.State.GetServerConfig | src/bridge/state.go:572-585 | the guard's error, or the stored configuration of device 1 |
| WgBridge.State.GetDeviceInfo | src/bridge/state.go:645-672 | the guard's error, or DeviceInfoFrom of the database |
| WgBridge.State.GetStatus | src/bridge/state.go:679-705 | the status and last error, with counts and presence flags only from an open database (StatusFrom) |
| WgBridge.State.SetServerConfig | src/bridge/state.go:588-609 | not initialised or a parse error is reported with nothing written; the fwmark goes to the device only when PushesFwmark holds; the configuration is upserted for device 1 or the database error returned |
| WgBridge.State.StartStatsSync | src/bridge/state.go:612-629 | refused when uninitialised or already running; otherwise the sync is running and nothing else changes |
| WgBridge.State.StopStatsSync | src/bridge/state.go:632-642 | never an error; afterwards the sync is not running and nothing else changes |
| WgBridge.State.StatsTick | src/db/stats.go:64-74 | when TickAsksDevice holds the device receives one IpcGet and the parsed counters are written (ApplyStats), or nothing on a read error; otherwise nothing changes |
| WgBridge.State.CreateMultihopTunnel | src/bridge/state.go:725-762 | refused when not initialised; a key failure writes nothing; otherwise NewTunnel with the generated keys is inserted, or the insert error returned with the table unchanged |
| WgBridge.State.StartMultihopTunnel | src/bridge/state.go:767-789 | guard and unknown-name errors change nothing (a closed handle gives "get tunnel: scan multihop: sql: database is closed"); otherwise the error is HopError, the outcome is written (Launched), and on success the device is registered under the name |
| WgBridge.State.Launch | src/bridge/state.go:776-788 | the error is HopError, the tunnels table becomes Launched, and a started device is registered |
| WgBridge.State.StopMultihopTunnel | src/bridge/state.go:793-829 | guard and unknown-name errors change nothing (a closed handle gives "get tunnel: scan multihop: sql: database is closed"); otherwise the device is unregistered and closed and the row Halted, with the flag cleared only for disable |
| WgBridge.State.DeleteMultihopTunnel | src/bridge/state.go:832-845 | guard errors change nothing; the row is deleted or the delete error returned; on success the name leaves the registry |
| WgBridge.State.ListMultihopTunnels | src/bridge/state.go:848-861 | the guard's error, or every tunnel in id order |
| WgBridge.State.GetMultihopTunnel | src/bridge/state.go:864-877 | "not initialized" when uninitialised; on a closed handle the error `scanMultihopTunnel` wraps, "scan multihop: sql: database is closed"; otherwise the tunnel with that name |
| WgBridgePlan.StatusTextDistinct | src/bridge/state.go:17-25 | the status names are pairwise distinct, so a name identifies its status |
| WgBridgePlan.KeyPairFails | src/core/keys.go:14-39 | key generation fails iff reading randomness or the scalar multiplication fails; the private key is the hex of the clamped bytes |
| WgBridgePlan.RuntimeClearedKeeps | src/bridge/state.go:91-93 | clearing runtime state keeps the device record, the pool, the server configuration and every row id |
| WgBridgePlan.SeededOnlyWhenMissing | src/bridge/state.go:95-115 | an existing device record is kept as it is; a missing one is created from the generated keys with the interface name and port, or the key error is returned |
| WgBridgePlan.InitStatus | src/bridge/state.go:117-122 | ready iff a server configuration for device 1 exists, needs_setup otherwise |
| WgBridgePlan.QuiescedKeepsConfig | src/bridge/state.go:202-206 | afterwards no peer has an index, every tunnel is stopped with no error or start time, the device has no start time; keys, addresses, flags, pool and server configuration are kept row by row |
| WgBridgePlan.SetupDefaults | src/bridge/state.go:138-156 | network, primary DNS and MTU default to 10.8.0.0/24, 1.1.1.1 and 1420 exactly when empty or zero; the other arguments are stored as given for device 1, with no IPv6 network |
| WgBridgePlan.SetupImage | src/bridge/state.go:157-167 | the upsert fails iff there is no device record, with the foreign-key error; otherwise the result is a well-formed database |
| WgBridgePlan.SetupStores | src/bridge/state.go:157-167 | after Setup the configuration reads back as stored, the device record, clients and tunnels are untouched and the pool only extended |
| WgBridgePlan.PoolExtends | src/bridge/state.go:161-167 | initialising the pool only appends addresses and leaves the server configuration alone |
| WgBridgePlan.V6Extends | src/bridge/state.go:161-167 | the IPv6 pool step only appends addresses and leaves the server configuration alone |
| WgBridgePlan.StartNeedsRecords | src/bridge/state.go:234-276 | Start gets through iff a device record and a server configuration exist and every device step succeeds; a missing device record is the read-device error |
| WgBridgePlan.PeerCalls | src/bridge/state.go:284-290 | one IpcSet per client, in order, each with that client's peer configuration |
| WgBridgePlan.NewTunnel | src/bridge/state.go:742-757 | a created tunnel is disabled, listens on port 0, routes 0.0.0.0/0 with keepalive 25 through table phantom_multihop (100) at priority 100, and carries the given names, keys and fwmark |
| WgBridgePlan.NewTunnelConfigs | src/bridge/state.go:931-951 | a created tunnel's device configuration is the key plus the fwmark iff it is set; its peer routes everything to the remote endpoint with keepalive 25 |
| WgBridgePlan.Restored | src/bridge/state.go:897-914 | the restore keeps the tunnels table well-formed and the same size |
| WgBridgePlan.StartedTunnelsSpec | src/bridge/state.go:903-913 | a name is registered iff one of its attempts succeeded, and it maps to a tunnel of that name that starts |
| WgBridgePlan.RestoreStep | src/bridge/state.go:903-913 | restoring one tunnel more applies that tunnel's outcome to the previous table and registers it only on success |
| WgBridgePlan.RestoredKeepsRows | src/bridge/state.go:903-913 | through the restore every row keeps its id, name and enabled flag |
| WgBridgePlan.RestoreContinues | src/bridge/state.go:903-913 | with distinct names every attempted tunnel ends with its own outcome, running or error, whatever happened to the others |
| WgBridgePlan.LaunchedRow | src/bridge/state.go:776-788 | the started tunnel's row is running, error-free, stamped and enabled; or, on failure, error with the message, no start time and the flag as before; id and configuration stay |
| WgBridgePlan.HaltedRow | src/bridge/state.go:793-829 | a stopped tunnel keeps its flag and a disabled one loses it; both are stopped with no error or start time; every other row is untouched |
| WgBridgePlan.Rollback | src/bridge/state.go:369-371 | after the rollback no client has the key |
| WgBridgePlan.AddV6 | src/bridge/state.go:377-385 | the IPv6 step keeps the record's id and changes at most its IPv6 address |
| WgBridgePlan.EnrollOutcome | src/bridge/state.go:349-364 | a duplicate key or address is refused with the insert error and nothing written; an accepted client gets a fresh id, is enabled and stamped, and keeps its keys and any given address |
| WgBridgePlan.EnrollAllocates | src/bridge/state.go:366-375 | with no address given the client gets the lowest free IPv4 address as a /32; an exhausted pool is the error and the client is deleted again |
| WgBridgePlan.AddedClientAtomic | src/bridge/state.go:327-402 | all or nothing: a refused insert writes nothing and calls no device; a later failure leaves no client under the key; a success hands the device exactly the new key and addresses with keepalive 25 |
| WgBridgePlan.DeviceInfoFrom | src/bridge/state.go:645-672 | an error iff there is no device record; otherwise its name, key, port and start time with the number of clients |
| WgBridgePlan.StatusFrom | src/bridge/state.go:679-705 | the status and last error as given; without an open database nothing is present and every count is 0; otherwise presence and counts match the database |
| WgBridgePlan.DbGuard | src/bridge/state.go:455-468 | a query proceeds only with a status other than uninitialised and an open database handle; uninitialised is "not initialized" |
| WgBridgePlan.FailedOpenPassesGuard | src/bridge/state.go:80-85 | after a failed open, status error passes the as-written guard while DbGuard refuses |
| WgBridgePlan.FwmarkWithoutDevice | src/bridge/state.go:602-606 | with status ready and fwmark 1 the as-written code reaches the absent device and PushesFwmark does not; PushesFwmark implies running |
| WgBridgePlan.TickAfterStop | src/bridge/state.go:623-625 | after Stop with the sync running the as-written tick reaches the absent device and TickAsksDevice does not; TickAsksDevice implies a device |
| WgBridgeText.DeviceConfigLines | src/bridge/state.go:261-264 | the device configuration is the key and port lines plus the fwmark line iff the fwmark is not 0, in that order |
| WgBridgeText.PeerConfigLines | src/bridge/state.go:884-891 | a peer configuration splits back into its lines |
| WgBridgeText.PeerConfigAddresses | src/bridge/state.go:884-891 | a peer configuration grants the IPv4 address, then the IPv6 one exactly when there is one |
| WgBridgeText.RemoveConfigLines | src/bridge/state.go:405-419 | the removal configuration is the key line and remove=true |
| WgBridgeText.FwmarkConfigLines | src/bridge/state.go:602-606 | the fwmark configuration is the single fwmark line |
| WgBridgeText.HopDeviceConfigLines | src/bridge/state.go:931-938 | a hop's device configuration has the key line, a port line iff the port is positive and a fwmark line iff the fwmark is set |
| WgBridgeText.HopPeerConfigLines | src/bridge/state.go:944-951 | a hop's peer configuration ends with the preshared key iff there is one |
| WgBridgeText.ExportAddressV4 | src/bridge/state.go:530-534 | a /32 host address becomes its /24 network; other text is left as it is |
| WgBridgeText.ExportAddressV6 | src/bridge/state.go:535-541 | an IPv6 /128 address is widened to /64 and follows the IPv4 part after ", " |
| WgBridgeText.ExportAllowedIpsDual | src/bridge/state.go:548-552 | AllowedIPs is dual stack iff the client has an IPv6 address, 0.0.0.0/0 otherwise |
| WgBridgeText.ConfTextLines | src/bridge/state.go:554-566 | the exported text splits back into its twelve lines, field by field |
| WgBridgeText.ExportConfSpec | src/bridge/state.go:505-566 | fails iff one of the three keys is not hex; otherwise the keys are the base64 of the stored bytes, the MTU is the server's or 1420, endpoint and DNS come from the server only when not given, AllowedIPs dual stack iff IPv6 |
| WstTypes.CodeValue | wstunnel_bridge/types.py:8-15 | every code's value lies between -6 and 0 |
| WstTypes.CodeOf | wstunnel_bridge/types.py:40-43 | the enum conversion succeeds exactly for -6..0, and gives the code with that value |
| WstTypes.CodeOfValue | wstunnel_bridge/types.py:8-15 | converting a code's value gives the code back |
| WstTypes.NewError | wstunnel_bridge/types.py:39-48 | the error keeps the code's value and the detail; the message is the table text, then ": detail" when a detail is given |
| WstTypes.UnknownCodeMessage | wstunnel_bridge/types.py:45 | a code outside the table, OK included, reads "Unknown error (code)" |
| WstTypes.KnownCodeMessage | wstunnel_bridge/types.py:26-33 | a known non-OK code reports its table text |
| WstTypes.CheckError | wstunnel_bridge/types.py:51-54 | returns exactly when the result is OK; otherwise raises an error carrying the result and no detail |
| WstDb.Migrate | wstunnel-bridge/linux-arm64/wstunnel_bridge/db.py:102-107 | the DDL and the version bump run only below version 1 and touch no stored row |
| WstDb.MigrateIdempotent | wstunnel-bridge/linux-arm64/wstunnel_bridge/db.py:102-107 | a migrated file runs no DDL again and migrating twice is migrating once |
| WstDb.PartialUpdate | wstunnel-bridge/linux-arm64/wstunnel_bridge/db.py:272-285 | an unknown column is a ValueError naming the unknown columns; no arguments change nothing; otherwise exactly the given columns and updated_at change |
| WstDb.AllowListsDistinct | wstunnel-bridge/linux-arm64/wstunnel_bridge/db.py:148-170 | the client and server allow-lists differ: remote_url is refused by the server update |
| WstDb.SeedConfig | wstunnel-bridge/linux-arm64/wstunnel_bridge/db.py:111-124 | INSERT OR IGNORE of the three singleton rows: existing rows are kept, missing ones get the defaults |
| WstDb.InitConfigIdempotent | wstunnel-bridge/linux-arm64/wstunnel_bridge/db.py:111-124 | a second init_config never overwrites; its mode has no effect once the row exists |
| WstDb.SeededConfigRow | wstunnel-bridge/linux-arm64/wstunnel_bridge/db.py:25-30 | a seeded config row is "initialized" with the requested mode |
| WstDb.SeededClientDefaults | wstunnel-bridge/linux-arm64/wstunnel_bridge/db.py:32-47 | a seeded client row holds the schema's column defaults |
| WstDb.SeededServerDefaults | wstunnel-bridge/linux-arm64/wstunnel_bridge/db.py:49-59 | a seeded server row holds the schema's column defaults |
| WstDb.GetRow | wstunnel-bridge/linux-arm64/wstunnel_bridge/db.py:159-163 | the stored row, or LookupError "... not initialized" before seeding |
| WstDb.SetConfigColumn | wstunnel-bridge/linux-arm64/wstunnel_bridge/db.py:132-144 | the column and updated_at are set on an existing row; a missing row stays missing |
| WstDb.WstunnelDB.Open | wstunnel-bridge/linux-arm64/wstunnel_bridge/db.py:95-100 | the connection sees the file, migrated |
| WstDb.WstunnelDB.InitConfig | wstunnel-bridge/linux-arm64/wstunnel_bridge/db.py:111-124 | the image becomes SeedConfig of the old one |
| WstDb.WstunnelDB.GetConfig | wstunnel-bridge/linux-arm64/wstunnel_bridge/db.py:126-130 | the config row, or LookupError |
| WstDb.WstunnelDB.GetClientConfig | wstunnel-bridge/linux-arm64/wstunnel_bridge/db.py:159-163 | the client row, or LookupError |
| WstDb.WstunnelDB.GetServerConfig | wstunnel-bridge/linux-arm64/wstunnel_bridge/db.py:175-179 | the server row, or LookupError |
| WstDb.WstunnelDB.SetState | wstunnel-bridge/linux-arm64/wstunnel_bridge/db.py:132-137 | only the config row's state and updated_at change |
| WstDb.WstunnelDB.SetMode | wstunnel-bridge/linux-arm64/wstunnel_bridge/db.py:139-144 | only the config row's mode and updated_at change |
| WstDb.WstunnelDB.SetClientConfig | wstunnel-bridge/linux-arm64/wstunnel_bridge/db.py:156-157 | PartialUpdate against the client allow-list: its error with nothing changed, or its row |
| WstDb.WstunnelDB.SetServerConfig | wstunnel-bridge/linux-arm64/wstunnel_bridge/db.py:172-173 | PartialUpdate against the server allow-list: its error with nothing changed, or its row |
| WstDb.WstunnelDB.AddTunnel | wstunnel-bridge/linux-arm64/wstunnel_bridge/db.py:183-190 | the tunnel is appended under a fresh id, the id returned |
| WstDb.WstunnelDB.ListTunnels | wstunnel-bridge/linux-arm64/wstunnel_bridge/db.py:202-204 | the tunnels in ascending id order |
| WstDb.WstunnelDB.DeleteTunnel | wstunnel-bridge/linux-arm64/wstunnel_bridge/db.py:206-208 | exactly that id is removed |
| WstDb.WstunnelDB.ClearTunnels | wstunnel-bridge/linux-arm64/wstunnel_bridge/db.py:210-212 | every tunnel is removed, the id sequence kept |
| WstDb.WstunnelDB.AddRestriction | wstunnel-bridge/linux-arm64/wstunnel_bridge/db.py:216-223 | the restriction is appended under a fresh id, the id returned |
| WstDb.WstunnelDB.ListRestrictions | wstunnel-bridge/linux-arm64/wstunnel_bridge/db.py:225-229 | the restrictions in ascending id order |
| WstDb.WstunnelDB.DeleteRestriction | wstunnel-bridge/linux-arm64/wstunnel_bridge/db.py:231-235 | exactly that id is removed |
| WstDb.WstunnelDB.ClearRestrictions | wstunnel-bridge/linux-arm64/wstunnel_bridge/db.py:237-239 | every restriction is removed |
| WstDb.WstunnelDB.AddHttpHeader | wstunnel-bridge/linux-arm64/wstunnel_bridge/db.py:243-249 | the header is appended under a fresh id, the id returned |
| WstDb.WstunnelDB.ListHttpHeaders | wstunnel-bridge/linux-arm64/wstunnel_bridge/db.py:251-255 | the headers in ascending id order |
| WstDb.WstunnelDB.DeleteHttpHeader | wstunnel-bridge/linux-arm64/wstunnel_bridge/db.py:257-259 | exactly that id is removed |
| WstDb.WstunnelDB.ClearHttpHeaders | wstunnel-bridge/linux-arm64/wstunnel_bridge/db.py:261-263 | every header is removed |
| WstDb.WstunnelDB.Close | wstunnel-bridge/linux-arm64/wstunnel_bridge/db.py:267-268 | the connection is released and the stored tables kept |
| WstEngine.ReplaySetters | wstunnel_bridge/state.py:178-210 | replaying the setter calls on any settings overrides exactly the options the adapter sends |
| WstEngine.DefaultsPlusSent | wstunnel_bridge/state.py:178-210 | where a falsy value is the default, the defaults overridden by what is sent are the stored row's settings |
| WstEngine.ReplayIsStored | wstunnel_bridge/state.py:178-210 | an engine at its defaults that receives the adapter's setters ends with exactly the stored configuration |
| WstEngine.SettersNonDefault | wstunnel_bridge/state.py:178-210 | every setter sent carries a setting different from the default, so no call is redundant |
| WstEngine.DefaultRowSendsNothing | wstunnel_bridge/state.py:178-210 | a row at the defaults on every setter column sends no setter |
| WstEngine.ClientRowFits | wstunnel_bridge/state.py:168-210 | a stored client_config row has remote_url and every column the client adapter reads |
| WstEngine.ServerRowFits | wstunnel_bridge/state.py:243-265 | a stored server_config row has bind_url and every column the server adapter reads |
| WstEngine.ClientDefaultsAreSchema | wstunnel_bridge/state.py:179-210 | the defaults the client tests compare against (v1, 30, 300, 2, falsy) are the schema's column defaults |
| WstEngine.HeaderCalls | wstunnel_bridge/state.py:212-214 | one add_http_header per stored header, in stored order, with its name and value |
| WstEngine.TunnelCallsDispatch | wstunnel_bridge/state.py:216-233 | one call per tunnel of a known type in stored order: udp with remote and timeout, tcp with remote, socks5 with timeout; other types send nothing |
| WstEngine.RestrictionCallsDispatch | wstunnel_bridge/state.py:267-272 | one call per restriction of a known type in stored order: target as restrict_to, path_prefix as restrict_path_prefix |
| WstEngine.SetterPhases | wstunnel_bridge/state.py:178-210 | setter calls all belong to the configuration phase |
| WstEngine.TunnelPhases | wstunnel_bridge/state.py:216-233 | tunnel calls all belong to the rule phase |
| WstEngine.RestrictionPhases | wstunnel_bridge/state.py:267-272 | restriction calls all belong to the rule phase |
| WstEngine.ClientPlanOrder | wstunnel_bridge/state.py:165-236 | the client adapter creates the handle first, then sends setters, headers and tunnels in that order, and starts last and only once |
| WstEngine.ServerPlanOrder | wstunnel_bridge/state.py:240-275 | the server adapter creates the handle, sends setters then restrictions, and starts last and only once |
| WstState.NamesDistinct | wstunnel_bridge/state.py:15 | the five status names are pairwise different |
| WstState.ErrorCodeMember | wstunnel_bridge/types.py:8-15 | attribute lookup on ErrorCode succeeds only for the declared names |
| WstState.StateCodesMissing | wstunnel_bridge/state.py:50 | INVALID_STATE, NOT_INITIALIZED and DB_OPEN are not members of ErrorCode, so those raise statements raise AttributeError; INVALID_PARAM does raise a WstunnelError |
| WstState.AdapterPlan | wstunnel_bridge/state.py:66-76 | unknown mode is INVALID_PARAM "Unknown mode: …"; client needs a truthy remote_url and at least one tunnel; server needs a truthy bind_url; otherwise the role's plan |
| WstState.AdapterPlanShape | wstunnel_bridge/state.py:165-275 | a successful plan is phase-ordered, creates the role's handle first and ends with its single start call |
| WstState.StartFailure | wstunnel_bridge/state.py:77-81 | a WstunnelError passes unchanged; any other error becomes START_FAILED carrying its text |
| WstState.InitializedImage | wstunnel_bridge/state.py:48-53 | after init the file is migrated and seeded with state "initialized", and its tunnels, restrictions and headers are kept |
| WstState.OpenSeeded | wstunnel_bridge/state.py:47-53 | a fresh open store whose image is the initialized image of the file |
| WstState.WstunnelState.constructor | wstunnel_bridge/state.py:33-38 | uninitialized, no error, no store and no handle |
| WstState.WstunnelState.Db | wstunnel_bridge/state.py:160-161 | the open store, or NOT_INITIALIZED "DB not open" exactly when there is none |
| WstState.WstunnelState.Emit | wstunnel_bridge/state.py:176-235 | the plan's calls are traced up to and including the one that raises, and nothing else changes |
| WstState.WstunnelState.Stop | wstunnel_bridge/state.py:87-114 | from a non-started state INVALID_STATE "Cannot stop from '…'" with nothing changed; otherwise the held handle is stopped and freed and "stopped" is recorded |
| WstState.WstunnelState.Close | wstunnel_bridge/state.py:284-304 | a started controller is stopped, the store closed, and the controller ends closed with no error and no handle; the closed store holds the "stopped" state row when the controller was started and is otherwise unchanged |
| WstState.WstunnelState.Init | wstunnel_bridge/state.py:42-56 | a live controller is closed first; an unopenable file is DB_OPEN; otherwise the store is seeded and "initialized" is recorded with the error cleared |
| WstState.WstunnelState.OpenFresh | wstunnel_bridge/state.py:47-55 | with no store open: DB_OPEN on failure with nothing changed, or the seeded store and status initialized |
| WstState.WstunnelState.Launch | wstunnel_bridge/state.py:70-85 | a raising call leaves the status and db state, records the text of a non-Wst error as last error and reports StartFailure; success holds the role's handle and records "started" |
| WstState.WstunnelState.Start | wstunnel_bridge/state.py:58-85 | only from initialized or stopped (else INVALID_STATE "Cannot start from '…'"); a failed adapter check changes nothing; then the plan is sent as Launch does |
| WstState.WstunnelState.GetStatus | wstunnel_bridge/state.py:122-154 | status and last_error always; mode and counts exactly when a store is open; is_running and a non-empty runtime_error from the held handle when its queries answer |

## Left out

- Kernel and OS I/O:
  - the netlink socket syscalls;
  - the rt_tables file append;
  - `flush_cache` and enabling IP forwarding;
  - TUN creation and `if_nametoindex`.

  Each of these is an oracle parameter (`Host`, `Runner`, fault records), not an effect.
- Route: the kernel's side of a request is a function from the request bytes to the reply.
- Route.Open: the socket's address binding is not modelled; only whether it opens.
- `nft::apply_rule`, `remove_rule_by_handle`, `apply_routing_rule` and `remove_routing_rule` are not part of this model. They are success/failure oracles recorded in the firewall controller's call trace.
- The foreign-function glue is not part of this model:
  - the cgo exports;
  - lib.rs C-string marshalling;
  - the ctypes wrappers, including the wstunnel `client.py` and `server.py`.
- The wstunnel engine itself: its settings are taken to start at the schema defaults, which is what the adapters' "differs from default" tests assume. Engine stop exceptions other than WstunnelError and OSError are not modelled.
- The wireguard-go engine: `WgDevice.Device` only records each call (IpcSet, IpcGet, Up, Down, Close). The caller supplies each answer.
- X25519, the random byte source and the wall clock are parameters.
- Concurrency is not modelled:
  - the StatsSyncer goroutine and its ticker (a tick is `WgBridge.State.StatsTick`, called explicitly);
  - the mutexes;
  - the UAPI accept loops.

  Every operation runs to completion in sequence.
- WgRegistry.HandleRegistry: the Go registry is a package-level global; here it is an object, and locking is not modelled.
- WgBridge.State: the multihop registry is a field of the state instead of a package global.
- `net.ParseCIDR` is a `CidrParser` parameter; `net.IP.String` is stated only for the addresses the pool expands.
- SQL:
  - SQL text, WAL pragmas and I/O errors of the database driver are left out.
  - A write fails only for the constraint violations the schema states: UNIQUE, foreign keys, and a closed handle.
  - NULL text columns are held as "".
- JSON: only the documents the modules produce or read are modelled. Floating-point numbers are not.
- Strings: `Strings.TrimSpace` and `Strings.ToLower` are ASCII only, for Go's `strings.TrimSpace`/`strings.ToLower` and for Rust's `str::to_lowercase` (src/nft.rs:214 in `Nft.ForwardCommand`, src/nft.rs:330 in `Nft.FindForwardHandle`); no Unicode case mapping or normalisation.
- Logging is not modelled (the callback logger, the wstunnel log callback).
- WgBridge.State.Stop: stops only the main device, as the source does. The stats sync and the multihop devices keep running, and their registry entries stay.
- WgBridge.RestoreHops: registers each restored device under its name, replacing any earlier registry entry without closing it, as the source does.
- WgBridge.State.AddClient: an explicit `allowedIP` is stored as given and not reserved in the pool, as in the source.
- WgDb.WgImage.SetAllowedIp: a UNIQUE failure leaves the "pending" placeholder, as in the source.
- WgBridge.LaunchDevice: a device closed on a failure path is not returned, so its Close call is not visible to the caller.
- WstDb.WstunnelDB: the `closed` flag is recorded, but statements after `Close` are not refused as Python's sqlite3 refuses them; WstState.WstunnelState drops its store when it closes it, so no statement reaches a closed connection.
- Route.RouteError.Text: a message that ends with the description of an OS or standard-library error (send, recv, kernel errno, prefix parse, rt_tables read, table id parse) stops before that description, which is not modelled.
- WgBridgeText.HexMessage: keys are decoded as characters, not bytes, so a non-ASCII character is reported by its code point, where Go reports the first byte of its UTF-8 encoding.

## Findings

| source | as written | input that shows it | evidently intended | confidence | as-written member | corrected member |
|---|---|---|---|---|---|---|
| src/bridge/state.go:602-606 | `SetServerConfig` pushes a non-zero fwmark with `s.dev.IpcSet` whenever the status is not uninitialized, but `dev` is nil outside running | status ready (after `Init` and `Setup`), a configuration with fwmark 1 | push the fwmark only while running, when a device exists | not executed | WgBridgePlan.FwmarkWithoutDevice | WgBridgePlan.PushesFwmark |
| src/bridge/state.go:80-85 | a failed database open leaves status error with `db` nil; the queries check only `status == uninitialized` and then call the nil database | `Init` with a database file that fails to open, then `GetClient` | refuse queries when there is no database | not executed | WgBridgePlan.FailedOpenPassesGuard | WgBridgePlan.DbGuard |
| src/bridge/state.go:623-625 | the stats sync reads `s.dev.IpcGet()`; `Stop` sets `dev` to nil and leaves the sync running | `Start`, `StartStatsSync`, `Stop`, then a tick | skip the tick when there is no device | not executed | WgBridgePlan.TickAfterStop | WgBridgePlan.TickAsksDevice |
| wstunnel_bridge/state.py:61-64 | `start`, `stop`, `init` and `db` raise `ErrorCode.INVALID_STATE`, `DB_OPEN` and `NOT_INITIALIZED`, which `ErrorCode` (types.py:8-15) does not define, so an AttributeError is raised instead | `start` on a new controller | raise WstunnelError with the state code | not executed | WstState.StateCodesMissing | WstState.WstunnelState.Start |
