/**
 * The `multihop_tunnels` table of bridge-db: one row per upstream tunnel of
 * a multihop chain, with a unique name and a unique interface name. The
 * `enabled` column is the crash-recovery flag; `status`, `error_msg` and
 * `started_at` are runtime state. NULL `error_msg` and `remote_preshared_key`
 * are held as "", which is how the bridge reads them back.
 */
module WgTunnels {
  import opened Wrappers
  import opened Strings
  import opened Tables
  import opened Ordering

  /** The text of Go's `sql.ErrNoRows`. */
  const NO_ROWS := "sql: no rows in result set"

  const UNIQUE_NAME := "UNIQUE constraint failed: multihop_tunnels.name"
  const UNIQUE_INTERFACE := "UNIQUE constraint failed: multihop_tunnels.interface_name"

  datatype Tunnel = Tunnel(
    name: string,
    enabled: bool,
    interfaceName: string,
    listenPort: int,
    privateKey: string,
    publicKey: string,
    remoteEndpoint: string,
    remotePublicKey: string,
    remotePresharedKey: string,
    remoteAllowedIps: string,
    remoteKeepalive: int,
    fwmark: int,
    routingTable: string,
    routingTableId: int,
    priority: int,
    status: string,
    errorMsg: string,
    startedAt: Option<int>,
    createdAt: int)

  function NameKey(t: Tunnel): Option<string> { Some(t.name) }
  function InterfaceKey(t: Tunnel): Option<string> { Some(t.interfaceName) }

  function HasName(name: string): Tunnel -> bool
  {
    (t: Tunnel) => t.name == name
  }

  /** The table's invariant: ids in order, names and interface names unique. */
  ghost predicate WellFormed(tbl: Table<Tunnel>)
  {
    tbl.Valid() && UniqueBy(tbl.entries, NameKey) && UniqueBy(tbl.entries, InterfaceKey)
  }

  /** A tunnel as `InsertMultihopTunnel` stores it: stopped, stamped, with no error and no start time. */
  function Stored(t: Tunnel, now: int): Tunnel
  {
    t.(status := "stopped", createdAt := now, errorMsg := "", startedAt := None)
  }

  /**
   * `InsertMultihopTunnel`. SQLite keeps a table's indexes newest first, so
   * the unique interface name (declared after the name) is checked first.
   */
  function Insert(tbl: Table<Tunnel>, t: Tunnel, now: int): (r: Result<(Table<Tunnel>, Entry<Tunnel>), string>)
    requires WellFormed(tbl)
    ensures r.Err? <==> FindBy(tbl.entries, NameKey, t.name).Some? || FindBy(tbl.entries, InterfaceKey, t.interfaceName).Some?
    ensures FindBy(tbl.entries, InterfaceKey, t.interfaceName).Some? ==> r == Err(UNIQUE_INTERFACE)
    ensures FindBy(tbl.entries, InterfaceKey, t.interfaceName).None? && FindBy(tbl.entries, NameKey, t.name).Some? ==>
              r == Err(UNIQUE_NAME)
    ensures r.Ok? ==> WellFormed(r.value.0)
    ensures r.Ok? ==> r.value.1.row == Stored(t, now) && r.value.1.id !in tbl.Ids()
    ensures r.Ok? ==> r.value.0 == tbl.Insert(Stored(t, now)).0
    ensures r.Ok? ==> Get(r.value.0, t.name) == Ok(r.value.1)
  {
    if FindBy(tbl.entries, InterfaceKey, t.interfaceName).Some? then Err(UNIQUE_INTERFACE)
    else if FindBy(tbl.entries, NameKey, t.name).Some? then Err(UNIQUE_NAME)
    else
      var (t1, id) := tbl.Insert(Stored(t, now));
      UniqueSnoc(tbl.entries, NameKey, Entry(id, Stored(t, now)));
      UniqueSnoc(tbl.entries, InterfaceKey, Entry(id, Stored(t, now)));
      Ok((t1, Entry(id, Stored(t, now))))
  }

  /** `GetMultihopTunnel`: the tunnel with that name. */
  function Get(tbl: Table<Tunnel>, name: string): (r: Result<Entry<Tunnel>, string>)
    ensures r.Ok? <==> exists i :: 0 <= i < |tbl.entries| && tbl.entries[i].row.name == name
    ensures r.Ok? ==> r.value in tbl.entries && r.value.row.name == name
    ensures r.Err? ==> r.error == "scan multihop: " + NO_ROWS
  {
    var f := FindBy(tbl.entries, NameKey, name);
    if f.Some? then Ok(f.value)
    else
      assert forall i :: 0 <= i < |tbl.entries| ==> NameKey(tbl.entries[i].row) != Some(name);
      Err("scan multihop: " + NO_ROWS)
  }

  /** `DeleteMultihopTunnel`: an absent name is `sql.ErrNoRows`. */
  function Delete(tbl: Table<Tunnel>, name: string): (r: Result<Table<Tunnel>, string>)
    requires WellFormed(tbl)
    ensures r.Err? <==> Get(tbl, name).Err?
    ensures r.Err? ==> r.error == NO_ROWS
    ensures r.Ok? ==> WellFormed(r.value) && Get(r.value, name).Err?
    ensures r.Ok? ==> forall i :: 0 <= i < |tbl.entries| && tbl.entries[i].row.name != name ==> tbl.entries[i] in r.value.entries
    ensures r.Ok? ==> r.value == tbl.DeleteWhere(HasName(name))
  {
    if FindBy(tbl.entries, NameKey, name).None? then Err(NO_ROWS)
    else
      var t := tbl.DeleteWhere(HasName(name));
      DeleteWellFormed(tbl, name);
      Ok(t)
  }

  /** Deleting rows keeps names and interfaces unique. */
  lemma DeleteWellFormed(tbl: Table<Tunnel>, name: string)
    requires WellFormed(tbl)
    ensures WellFormed(tbl.DeleteWhere(HasName(name)))
  {
    var t := tbl.DeleteWhere(HasName(name));
    UniqueSub(tbl.entries, t.entries, NameKey);
    UniqueSub(tbl.entries, t.entries, InterfaceKey);
  }

  /** `ListMultihopTunnels`: every tunnel in id order. */
  function List(tbl: Table<Tunnel>): (r: seq<Entry<Tunnel>>)
    requires WellFormed(tbl)
    ensures forall i, j :: 0 <= i < j < |r| ==> r[i].id < r[j].id
    ensures multiset(r) == multiset(tbl.entries)
  {
    tbl.entries
  }

  function IsEnabled(t: Tunnel): bool { t.enabled }

  /** `ORDER BY priority`, ties in id order as SQLite's scan returns them. */
  function PriorityKey(e: Entry<Tunnel>): Key { [I(e.row.priority), I(e.id)] }

  /** `EnabledMultihopTunnels`: exactly the enabled tunnels, lowest priority first. */
  function Enabled(tbl: Table<Tunnel>): (r: seq<Entry<Tunnel>>)
    ensures SortedBy(r, PriorityKey)
    ensures multiset(r) == multiset(Table<Tunnel>.Select(tbl.entries, IsEnabled))
    ensures forall i :: 0 <= i < |r| ==> r[i] in tbl.entries && r[i].row.enabled
    ensures forall i :: 0 <= i < |tbl.entries| && tbl.entries[i].row.enabled ==> tbl.entries[i] in r
  {
    SelectSorted(tbl.entries, IsEnabled, PriorityKey);
    SortBy(Table<Tunnel>.Select(tbl.entries, IsEnabled), PriorityKey)
  }

  function SetEnabledTo(enabled: bool): Tunnel -> Tunnel
  {
    (t: Tunnel) => t.(enabled := enabled)
  }

  /** `SetMultihopEnabled`: only the `enabled` flag of the named tunnel changes. */
  function SetEnabled(tbl: Table<Tunnel>, name: string, enabled: bool): (r: Result<Table<Tunnel>, string>)
    requires WellFormed(tbl)
    ensures r.Err? <==> Get(tbl, name).Err?
    ensures r.Err? ==> r.error == NO_ROWS
    ensures r.Ok? ==> WellFormed(r.value) && |r.value.entries| == |tbl.entries|
    ensures r.Ok? ==> forall i :: 0 <= i < |tbl.entries| ==>
              r.value.entries[i] == if tbl.entries[i].row.name == name
                                    then Entry(tbl.entries[i].id, tbl.entries[i].row.(enabled := enabled))
                                    else tbl.entries[i]
  {
    if FindBy(tbl.entries, NameKey, name).None? then Err(NO_ROWS)
    else
      var t := tbl.UpdateWhere(HasName(name), SetEnabledTo(enabled));
      UniqueKeep(tbl.entries, t.entries, NameKey);
      UniqueKeep(tbl.entries, t.entries, InterfaceKey);
      Ok(t)
  }

  function SetRuntime(status: string, errorMsg: string, startedAt: Option<int>): Tunnel -> Tunnel
  {
    (t: Tunnel) => t.(status := status, errorMsg := errorMsg, startedAt := startedAt)
  }

  /** `SetMultihopStatus`: silent; a name that matches nothing changes nothing. */
  function SetStatus(tbl: Table<Tunnel>, name: string, status: string, errorMsg: string, startedAt: Option<int>)
    : (r: Table<Tunnel>)
    requires WellFormed(tbl)
    ensures WellFormed(r) && |r.entries| == |tbl.entries|
    ensures forall i :: 0 <= i < |tbl.entries| ==>
              r.entries[i] == if tbl.entries[i].row.name == name
                              then Entry(tbl.entries[i].id, tbl.entries[i].row.(status := status, errorMsg := errorMsg, startedAt := startedAt))
                              else tbl.entries[i]
    ensures Get(tbl, name).Err? ==> r == tbl
  {
    var t := tbl.UpdateWhere(HasName(name), SetRuntime(status, errorMsg, startedAt));
    UniqueKeep(tbl.entries, t.entries, NameKey);
    UniqueKeep(tbl.entries, t.entries, InterfaceKey);
    if Get(tbl, name).Err? then
      assert t.entries == tbl.entries;
      t
    else t
  }

  function All(t: Tunnel): bool { true }

  /** `ClearMultihopRuntimeState`: every tunnel is stopped, with no error and no start time; `enabled` is kept. */
  function ClearRuntime(tbl: Table<Tunnel>): (r: Table<Tunnel>)
    requires WellFormed(tbl)
    ensures WellFormed(r) && |r.entries| == |tbl.entries|
    ensures forall i :: 0 <= i < |tbl.entries| ==>
              r.entries[i] == Entry(tbl.entries[i].id, tbl.entries[i].row.(status := "stopped", errorMsg := "", startedAt := None))
  {
    var t := tbl.UpdateWhere(All, SetRuntime("stopped", "", None));
    UniqueKeep(tbl.entries, t.entries, NameKey);
    UniqueKeep(tbl.entries, t.entries, InterfaceKey);
    t
  }

  /** The columns `UpdateMultihopTunnel` rewrites: the remote peer and the policy routing. */
  function ApplyRemote(u: Tunnel): Tunnel -> Tunnel
  {
    (t: Tunnel) => t.(remoteEndpoint := u.remoteEndpoint, remotePublicKey := u.remotePublicKey,
            remotePresharedKey := u.remotePresharedKey, remoteAllowedIps := u.remoteAllowedIps,
            remoteKeepalive := u.remoteKeepalive, fwmark := u.fwmark, routingTable := u.routingTable,
            routingTableId := u.routingTableId, priority := u.priority)
  }

  /** `UpdateMultihopTunnel`: the tunnel named `u.name` takes `u`'s remote and routing fields. */
  function Update(tbl: Table<Tunnel>, u: Tunnel): (r: Result<Table<Tunnel>, string>)
    requires WellFormed(tbl)
    ensures r.Err? <==> Get(tbl, u.name).Err?
    ensures r.Err? ==> r.error == NO_ROWS
    ensures r.Ok? ==> WellFormed(r.value) && |r.value.entries| == |tbl.entries|
    ensures r.Ok? ==> forall i :: 0 <= i < |tbl.entries| ==>
              r.value.entries[i] == if tbl.entries[i].row.name == u.name
                                    then Entry(tbl.entries[i].id, ApplyRemote(u)(tbl.entries[i].row))
                                    else tbl.entries[i]
  {
    if FindBy(tbl.entries, NameKey, u.name).None? then Err(NO_ROWS)
    else
      var t := tbl.UpdateWhere(HasName(u.name), ApplyRemote(u));
      UniqueKeep(tbl.entries, t.entries, NameKey);
      UniqueKeep(tbl.entries, t.entries, InterfaceKey);
      Ok(t)
  }

  /**
   * An update leaves the tunnel's identity, keys, interface, listen port,
   * crash-recovery flag and runtime state as they were.
   */
  lemma UpdateKeepsIdentity(t: Tunnel, u: Tunnel)
    ensures var n := ApplyRemote(u)(t);
            && n.name == t.name && n.enabled == t.enabled && n.interfaceName == t.interfaceName
            && n.listenPort == t.listenPort && n.privateKey == t.privateKey && n.publicKey == t.publicKey
            && n.status == t.status && n.errorMsg == t.errorMsg && n.startedAt == t.startedAt
            && n.createdAt == t.createdAt
    ensures ApplyRemote(u)(t) == ApplyRemote(u)(ApplyRemote(u)(t))
  {
  }

  /** A deleted tunnel can be created again: its name and interface are free. */
  lemma DeleteFreesName(tbl: Table<Tunnel>, name: string)
    requires WellFormed(tbl) && Delete(tbl, name).Ok?
    ensures FindBy(Delete(tbl, name).value.entries, NameKey, name).None?
  {
    var t := Delete(tbl, name).value;
    forall i | 0 <= i < |t.entries| ensures NameKey(t.entries[i].row) != Some(name) {
      assert t.entries[i] in tbl.DeleteWhere(HasName(name)).entries;
    }
  }

  /** `MultihopTunnelListToJSON`: a JSON array of the encoded tunnels; no tunnels give "[]". */
  function ListToJson(ts: seq<Entry<Tunnel>>, encode: Entry<Tunnel> -> string): (s: string)
    ensures ts == [] ==> s == "[]"
    ensures |ts| == 1 ==> s == "[" + encode(ts[0]) + "]"
    ensures |s| >= 2 && s[0] == '[' && s[|s| - 1] == ']'
  {
    "[" + Join(Encoded(ts, encode), ",") + "]"
  }

  function Encoded(ts: seq<Entry<Tunnel>>, encode: Entry<Tunnel> -> string): (es: seq<string>)
    ensures |es| == |ts| && forall i :: 0 <= i < |ts| ==> es[i] == encode(ts[i])
  {
    seq(|ts|, i requires 0 <= i < |ts| => encode(ts[i]))
  }

  /**
   * One more tunnel in the list adds a comma and its encoding before the
   * closing bracket: with the cases of ListToJson for no tunnel and one
   * tunnel, the array holds exactly the encodings in list order.
   */
  lemma ListToJsonSnoc(ts: seq<Entry<Tunnel>>, t: Entry<Tunnel>, encode: Entry<Tunnel> -> string)
    requires ts != []
    ensures var s := ListToJson(ts, encode);
            ListToJson(ts + [t], encode) == s[..|s| - 1] + "," + encode(t) + "]"
  {
    var j := Join(Encoded(ts, encode), ",");
    assert Encoded(ts + [t], encode) == Encoded(ts, encode) + [encode(t)];
    JoinSnoc(Encoded(ts, encode), encode(t), ",");
    var s := ListToJson(ts, encode);
    assert s[..|s| - 1] == "[" + j;
  }
}
