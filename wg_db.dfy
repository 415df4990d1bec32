/**
 * bridge-db, the SQLite store of the WireGuard bridge: the singleton device
 * row, the peers (clients), the per-address IP pool, the server config and
 * the multihop tunnels. Foreign keys are enforced (`_foreign_keys=ON`):
 * `ip_pool.peer_id` must name a peer and `server_config.device_id` the
 * device row, whose id is always 1.
 *
 * Nullable text columns that the bridge reads back as "" are held as "";
 * `allowed_ip_v6` is "" exactly when it is NULL, which is what its UNIQUE
 * index ignores. The pool is held in rowid order; its rows are never deleted.
 */
module WgDb {
  import opened Wrappers
  import opened Strings
  import opened Tables
  import WgServer
  import WgTunnels
  import WgPool

  /** The text of Go's `sql.ErrNoRows`. */
  const NO_ROWS := "sql: no rows in result set"
  const FK_FAILED := "FOREIGN KEY constraint failed"
  const UNIQUE_PUBLIC_KEY := "UNIQUE constraint failed: peers.public_key"
  const UNIQUE_ALLOWED_IP := "UNIQUE constraint failed: peers.allowed_ip"
  const UNIQUE_ALLOWED_IP_V6 := "UNIQUE constraint failed: peers.allowed_ip_v6"
  const UNIQUE_POOL_IP := "UNIQUE constraint failed: ip_pool.ip"

  /** `DeviceRecord`: the server's own interface, key pair and port. */
  datatype DeviceRecord = DeviceRecord(
    name: string,
    privateKey: string,
    publicKey: string,
    listenPort: int,
    startedAt: Option<int>)

  /** `ClientRecord` without its id, which is the table entry's. */
  datatype Client = Client(
    publicKey: string,
    presharedKey: string,
    privateKey: string,
    allowedIp: string,
    allowedIpV6: string,
    keepalive: int,
    enabled: bool,
    createdAt: int,
    peerIndex: Option<int>,
    endpoint: string,
    lastHandshake: Option<int>,
    rxBytes: int,
    txBytes: int)

  function PublicKeyOf(c: Client): Option<string> { Some(c.publicKey) }
  function AllowedIpOf(c: Client): Option<string> { Some(c.allowedIp) }
  function AllowedIpV6Of(c: Client): Option<string> { if c.allowedIpV6 == "" then None else Some(c.allowedIpV6) }

  function HasPublicKey(pk: string): Client -> bool
  {
    (c: Client) => c.publicKey == pk
  }

  /** The peers table's invariant: ids in order, the three UNIQUE columns unique. */
  ghost predicate PeersOk(peers: Table<Client>)
  {
    && peers.Valid()
    && UniqueBy(peers.entries, PublicKeyOf)
    && UniqueBy(peers.entries, AllowedIpOf)
    && UniqueBy(peers.entries, AllowedIpV6Of)
  }

  /** One `ip_pool` row. */
  datatype PoolRow = PoolRow(ip: string, family: int, inUse: bool, peerId: Option<int>)

  /** `ip` is UNIQUE in the pool. */
  ghost predicate PoolUnique(pool: seq<PoolRow>)
  {
    forall i, j :: 0 <= i < j < |pool| ==> pool[i].ip != pool[j].ip
  }

  /** A row is assigned exactly when it names a peer, and the peer exists. */
  ghost predicate PoolLinked(pool: seq<PoolRow>, ids: set<int>)
  {
    forall i :: 0 <= i < |pool| ==>
      && (pool[i].inUse <==> pool[i].peerId.Some?)
      && (pool[i].peerId.Some? ==> pool[i].peerId.value in ids)
  }

  /** A row of `family` that `AllocateIP` may hand out. */
  predicate IsFree(r: PoolRow, family: int)
  {
    r.family == family && !r.inUse
  }

  /** The row as `ReleaseIP` and `DeleteClient` leave it. */
  function Free(r: PoolRow): PoolRow
  {
    r.(inUse := false, peerId := None)
  }

  /** `UPDATE ip_pool SET assigned = 0, peer_id = NULL WHERE hit(row)`. */
  function ReleaseWhere(pool: seq<PoolRow>, hit: PoolRow -> bool): (p: seq<PoolRow>)
    ensures |p| == |pool|
    ensures forall i :: 0 <= i < |pool| ==> p[i] == if hit(pool[i]) then Free(pool[i]) else pool[i]
  {
    seq(|pool|, i requires 0 <= i < |pool| => if hit(pool[i]) then Free(pool[i]) else pool[i])
  }

  function HeldBy(id: int): PoolRow -> bool
  {
    (r: PoolRow) => r.peerId == Some(id)
  }

  function WithIp(ip: string): PoolRow -> bool
  {
    (r: PoolRow) => r.ip == ip
  }

  /** The suffix `AllocateIP` appends: "/128" for family 6, "/32" for any other. */
  function HostSuffix(family: int): string
  {
    if family == 6 then "/128" else "/32"
  }

  function ExhaustedError(family: int): string
  {
    "ip pool exhausted (family=" + IntToString(family) + "): " + NO_ROWS
  }

  /** The lowest-rowid free row of `family`, if any. */
  function FirstFree(pool: seq<PoolRow>, family: int): (r: Option<nat>)
    ensures r.Some? ==> r.value < |pool| && IsFree(pool[r.value], family)
    ensures r.Some? ==> forall j :: 0 <= j < r.value ==> !IsFree(pool[j], family)
    ensures r.None? <==> forall j :: 0 <= j < |pool| ==> !IsFree(pool[j], family)
  {
    if pool == [] then None
    else if IsFree(pool[0], family) then Some(0)
    else
      var r := FirstFree(pool[1..], family);
      assert forall j :: 1 <= j < |pool| ==> pool[j] == pool[1..][j - 1];
      if r.None? then None else Some(r.value + 1)
  }

  /** `SELECT COUNT(*) FROM ip_pool WHERE family = ?`. */
  function CountFamily(pool: seq<PoolRow>, family: int): (n: nat)
    ensures n <= |pool|
    ensures n == 0 <==> forall i :: 0 <= i < |pool| ==> pool[i].family != family
  {
    if pool == [] then 0
    else
      var n := CountFamily(pool[1..], family);
      assert forall j :: 1 <= j < |pool| ==> pool[j] == pool[1..][j - 1];
      (if pool[0].family == family then 1 else 0) + n
  }

  predicate HasIp(pool: seq<PoolRow>, ip: string)
  {
    exists i :: 0 <= i < |pool| && pool[i].ip == ip
  }

  function FreeRow(ip: string, family: int): PoolRow
  {
    PoolRow(ip, family, false, None)
  }

  /** The rows one prepared INSERT per address adds. */
  function FreeRows(ips: seq<string>, family: int): (rows: seq<PoolRow>)
    ensures |rows| == |ips|
    ensures forall i :: 0 <= i < |ips| ==> rows[i] == FreeRow(ips[i], family)
  {
    seq(|ips|, i requires 0 <= i < |ips| => FreeRow(ips[i], family))
  }

  /**
   * The pool-population transaction: one INSERT per address, in order; the
   * first address already present violates `ip UNIQUE` and rolls back all.
   */
  function AddRows(pool: seq<PoolRow>, ips: seq<string>, family: int): (r: Result<seq<PoolRow>, string>)
    decreases |ips|
  {
    if ips == [] then Ok(pool)
    else if HasIp(pool, ips[0]) then Err(UNIQUE_POOL_IP)
    else AddRows(pool + [FreeRow(ips[0], family)], ips[1..], family)
  }

  /**
   * On a unique pool, the transaction commits exactly when the addresses are
   * new and distinct, and then appends one free row per address.
   */
  lemma {:induction false} AddRowsSpec(pool: seq<PoolRow>, ips: seq<string>, family: int)
    requires PoolUnique(pool)
    ensures AddRows(pool, ips, family).Ok? <==> PoolUnique(pool + FreeRows(ips, family))
    ensures AddRows(pool, ips, family).Ok? ==> AddRows(pool, ips, family).value == pool + FreeRows(ips, family)
    ensures AddRows(pool, ips, family).Err? ==> AddRows(pool, ips, family).error == UNIQUE_POOL_IP
    decreases |ips|
  {
    var all := pool + FreeRows(ips, family);
    if ips == [] {
      assert all == pool;
    } else {
      var row := FreeRow(ips[0], family);
      if HasIp(pool, ips[0]) {
        var k :| 0 <= k < |pool| && pool[k].ip == ips[0];
        assert all[k].ip == all[|pool|].ip;
      } else {
        var p1 := pool + [row];
        assert PoolUnique(p1);
        AddRowsSpec(p1, ips[1..], family);
        assert p1 + FreeRows(ips[1..], family) == all;
      }
    }
  }

  /** The index of the last '/' in `s`, if any. */
  function LastSlash(s: string): (k: Option<nat>)
    ensures k.Some? ==> k.value < |s| && s[k.value] == '/' && forall j :: k.value < j < |s| ==> s[j] != '/'
    ensures k.None? <==> forall j :: 0 <= j < |s| ==> s[j] != '/'
  {
    if s == [] then None
    else if s[|s| - 1] == '/' then Some(|s| - 1)
    else
      var k := LastSlash(s[..|s| - 1]);
      assert forall j :: 0 <= j < |s| - 1 ==> s[..|s| - 1][j] == s[j];
      k
  }

  /** Everything before the last '/', or the whole text when it has none. */
  function CutCidr(ip: string): (r: string)
    ensures |r| <= |ip| && r == ip[..|r|]
    ensures (forall j :: 0 <= j < |ip| ==> ip[j] != '/') ==> r == ip
    ensures (exists j :: 0 <= j < |ip| && ip[j] == '/') ==>
              |r| < |ip| && ip[|r|] == '/' && forall j :: |r| < j < |ip| ==> ip[j] != '/'
  {
    match LastSlash(ip)
    case None => ip
    case Some(k) => ip[..k]
  }

  /** Releasing what `AllocateIP` returned names the allocated address again. */
  lemma CutSuffix(ip: string, family: int)
    requires forall j :: 0 <= j < |ip| ==> ip[j] != '/'
    ensures CutCidr(ip + HostSuffix(family)) == ip
  {
    var suf := HostSuffix(family);
    var s := ip + suf;
    assert suf[0] == '/' && forall j :: 1 <= j < |suf| ==> suf[j] != '/';
    assert forall j :: |ip| < j < |s| ==> s[j] == suf[j - |ip|];
    assert s[|ip|] == '/';
    var r := CutCidr(s);
    assert |r| == |ip|;
    assert s[..|ip|] == ip;
  }

  /** `ClientList`: one page of clients, the table's size, and the page and limit used. */
  datatype ClientList = ClientList(clients: seq<Entry<Client>>, total: int, page: int, limit: int)

  function Min(a: int, b: int): int { if a <= b then a else b }

  /** The page `ListClients` serves: below 1 means the first. */
  function NormalPage(page: int): (p: int)
    ensures p >= 1
  {
    if page < 1 then 1 else page
  }

  /** The limit `ListClients` uses: outside 1..100 means 50. */
  function NormalLimit(limit: int): (l: int)
    ensures 1 <= l <= 100
  {
    if limit < 1 || limit > 100 then 50 else limit
  }

  /** `OFFSET`: the rows before the page. */
  function Offset(page: int, limit: int): (off: nat)
    requires page >= 1 && limit >= 1
    ensures off == (page - 1) * limit
  {
    (page - 1) * limit
  }

  /**
   * `LIMIT l OFFSET off` over rows in id order: at most `l` rows, in id order,
   * taken consecutively from position `off`; past the end it is empty.
   */
  function Window<T>(es: seq<T>, off: nat, l: nat): (w: seq<T>)
    ensures |w| <= l
    ensures off >= |es| ==> w == []
    ensures off + l <= |es| ==> |w| == l
    ensures forall i :: 0 <= i < |w| ==> off + i < |es| && w[i] == es[off + i]
  {
    es[Min(off, |es|)..Min(off + l, |es|)]
  }

  /** The row `InsertClient` writes: enabled, stamped, with every runtime column at its default. */
  function StoredClient(rec: Client, now: int): Client
  {
    rec.(enabled := true, createdAt := now, peerIndex := None, endpoint := "", lastHandshake := None, rxBytes := 0, txBytes := 0)
  }

  /**
   * The UNIQUE index of `peers` that SQLite reports when `rec` violates
   * several: SQLite keeps a table's indexes newest first, so the column
   * declared last (allowed_ip_v6, then allowed_ip, then public_key) is
   * checked first. An empty IPv6 address is stored as NULL and never clashes.
   */
  function InsertConflict(es: seq<Entry<Client>>, rec: Client): Option<string>
  {
    if V6Taken(es, rec) then Some(UNIQUE_ALLOWED_IP_V6)
    else if IpTaken(es, rec) then Some(UNIQUE_ALLOWED_IP)
    else if KeyTaken(es, rec) then Some(UNIQUE_PUBLIC_KEY)
    else None
  }

  /** Some row already holds the record's public key. */
  predicate KeyTaken(es: seq<Entry<Client>>, rec: Client)
  {
    FindBy(es, PublicKeyOf, rec.publicKey).Some?
  }

  /** Some row already holds the record's IPv4 address. */
  predicate IpTaken(es: seq<Entry<Client>>, rec: Client)
  {
    FindBy(es, AllowedIpOf, rec.allowedIp).Some?
  }

  /** The record has an IPv6 address and some row already holds it. */
  predicate V6Taken(es: seq<Entry<Client>>, rec: Client)
  {
    rec.allowedIpV6 != "" && FindBy(es, AllowedIpV6Of, rec.allowedIpV6).Some?
  }

  function SetEnabledRow(enabled: bool): Client -> Client
  {
    (c: Client) => c.(enabled := enabled, peerIndex := None)
  }

  function SetPeerIndexRow(idx: Option<int>): Client -> Client
  {
    (c: Client) => c.(peerIndex := idx)
  }

  function SetStatsRow(endpoint: string, lastHandshake: Option<int>, rx: int, tx: int): Client -> Client
  {
    (c: Client) => c.(endpoint := endpoint, lastHandshake := lastHandshake, rxBytes := rx, txBytes := tx)
  }

  function SetIpRow(ip: string): Client -> Client
  {
    (c: Client) => c.(allowedIp := ip)
  }

  function SetIpV6Row(ip: string): Client -> Client
  {
    (c: Client) => c.(allowedIpV6 := ip)
  }

  function AnyClient(c: Client): bool { true }
  function IsEnabledClient(c: Client): bool { c.enabled }

  /** The whole database. */
  datatype WgImage = WgImage(
    device: Option<DeviceRecord>,
    peers: Table<Client>,
    pool: seq<PoolRow>,
    servers: map<int, WgServer.ServerRow>,
    tunnels: Table<WgTunnels.Tunnel>)
  {
    ghost predicate WellFormed()
    {
      && PeersOk(peers)
      && PoolUnique(pool)
      && PoolLinked(pool, peers.Ids())
      && (forall d :: d in servers ==> d == 1 && device.Some?)
      && WgTunnels.WellFormed(tunnels)
    }

    // ---- device ----

    /** `UpsertDevice`: INSERT OR REPLACE of row 1, which also drops `started_at`. */
    function UpsertDevice(name: string, privateKey: string, publicKey: string, port: int): (r: WgImage)
      requires WellFormed()
      ensures r.WellFormed()
      ensures r.GetDevice() == Ok(DeviceRecord(name, privateKey, publicKey, port, None))
      ensures r.peers == peers && r.pool == pool && r.servers == servers && r.tunnels == tunnels
    {
      this.(device := Some(DeviceRecord(name, privateKey, publicKey, port, None)))
    }

    /** `GetDevice`. */
    function GetDevice(): (r: Result<DeviceRecord, string>)
      ensures r.Ok? <==> device.Some?
      ensures r.Ok? ==> r.value == device.value
      ensures r.Err? ==> r.error == NO_ROWS
    {
      if device.Some? then Ok(device.value) else Err(NO_ROWS)
    }

    /** `SetDeviceStartedAt`: without a device row nothing is updated. */
    function SetDeviceStartedAt(t: Option<int>): (r: WgImage)
      requires WellFormed()
      ensures r.WellFormed()
      ensures device.None? ==> r == this
      ensures device.Some? ==> r.device == Some(device.value.(startedAt := t))
      ensures r.peers == peers && r.pool == pool && r.servers == servers && r.tunnels == tunnels
    {
      if device.None? then this else this.(device := Some(device.value.(startedAt := t)))
    }

    // ---- peers ----

    /** `GetClient`: the client with that public key. */
    function GetClient(pk: string): (r: Result<Entry<Client>, string>)
      ensures r.Ok? <==> exists i :: 0 <= i < |peers.entries| && peers.entries[i].row.publicKey == pk
      ensures r.Ok? ==> r.value in peers.entries && r.value.row.publicKey == pk
      ensures r.Err? ==> r.error == NO_ROWS
    {
      var f := FindBy(peers.entries, PublicKeyOf, pk);
      if f.Some? then Ok(f.value)
      else
        assert forall i :: 0 <= i < |peers.entries| ==> PublicKeyOf(peers.entries[i].row) != Some(pk);
        Err(NO_ROWS)
    }

    /**
     * `InsertClient`: fails with the UNIQUE index SQLite checks first among
     * those the record violates; otherwise the stored row is enabled, stamped
     * `now`, with a fresh id.
     */
    function InsertClient(rec: Client, now: int): (r: Result<(WgImage, Entry<Client>), string>)
      requires WellFormed()
      ensures r.Err? <==> KeyTaken(peers.entries, rec) || IpTaken(peers.entries, rec) || V6Taken(peers.entries, rec)
      ensures V6Taken(peers.entries, rec) ==> r == Err(UNIQUE_ALLOWED_IP_V6)
      ensures !V6Taken(peers.entries, rec) && IpTaken(peers.entries, rec) ==> r == Err(UNIQUE_ALLOWED_IP)
      ensures !V6Taken(peers.entries, rec) && !IpTaken(peers.entries, rec) && KeyTaken(peers.entries, rec) ==>
                r == Err(UNIQUE_PUBLIC_KEY)
      ensures r.Err? <==> InsertConflict(peers.entries, rec).Some?
      ensures r.Err? ==> r.error == InsertConflict(peers.entries, rec).value
      ensures r.Ok? ==> r.value.0.WellFormed()
      ensures r.Ok? ==> r.value.1 == Entry(peers.lastId + 1, StoredClient(rec, now)) && r.value.1.id !in peers.Ids()
      ensures r.Ok? ==> r.value.0 == this.(peers := peers.Insert(StoredClient(rec, now)).0)
      ensures r.Ok? ==> r.value.0.GetClient(rec.publicKey) == Ok(r.value.1)
    {
      match InsertConflict(peers.entries, rec)
      case Some(e) => Err(e)
      case None =>
        var row := StoredClient(rec, now);
        var (t, id) := peers.Insert(row);
        UniqueSnoc(peers.entries, PublicKeyOf, Entry(id, row));
        UniqueSnoc(peers.entries, AllowedIpOf, Entry(id, row));
        UniqueSnoc(peers.entries, AllowedIpV6Of, Entry(id, row));
        InsertIds(peers, row);
        Ok((this.(peers := t), Entry(id, row)))
    }

    /**
     * `DeleteClient`: the client's addresses go back to the pool and its row
     * is deleted, in one transaction; an unknown key is `sql.ErrNoRows` and
     * changes nothing.
     */
    function DeleteClient(pk: string): (r: Result<WgImage, string>)
      requires WellFormed()
      ensures r.Err? <==> GetClient(pk).Err?
      ensures r.Err? ==> r.error == NO_ROWS
      ensures r.Ok? ==> r.value.WellFormed() && r.value.GetClient(pk).Err?
      ensures r.Ok? ==> var id := GetClient(pk).value.id;
                        && r.value.peers == peers.Delete(id)
                        && r.value.pool == ReleaseWhere(pool, HeldBy(id))
                        && r.value.device == device && r.value.servers == servers && r.value.tunnels == tunnels
    {
      match GetClient(pk)
      case Err(e) => Err(e)
      case Ok(e) =>
        var t := peers.Delete(e.id);
        var p := ReleaseWhere(pool, HeldBy(e.id));
        var img := this.(peers := t, pool := p);
        DeleteKeepsPeers(peers, t, e.id);
        DeleteDropsKey(peers, t, e, pk);
        Ok(img)
    }

    /**
     * `ListClients`: the normalised page of clients in id order, at offset
     * (page - 1) * limit, and the number of clients in the table.
     */
    function ListClients(page: int, limit: int): (r: ClientList)
      requires WellFormed()
      ensures r.page == NormalPage(page) && r.limit == NormalLimit(limit)
      ensures r.total == |peers.entries|
      ensures r.clients == Window(peers.entries, Offset(r.page, r.limit), r.limit)
    {
      var p := NormalPage(page);
      var l := NormalLimit(limit);
      ClientList(Window(peers.entries, Offset(p, l), l), |peers.entries|, p, l)
    }

    /** `SetEnabled`: sets the flag and clears `peer_index`; an unknown key is `sql.ErrNoRows`. */
    function SetEnabled(pk: string, enabled: bool): (r: Result<WgImage, string>)
      requires WellFormed()
      ensures r.Err? <==> GetClient(pk).Err?
      ensures r.Err? ==> r.error == NO_ROWS
      ensures r.Ok? ==> r.value.WellFormed()
      ensures r.Ok? ==> r.value == this.(peers := peers.UpdateWhere(HasPublicKey(pk), SetEnabledRow(enabled)))
      ensures r.Ok? ==> var c := r.value.GetClient(pk);
                        c.Ok? && c.value.id == GetClient(pk).value.id
                        && c.value.row == GetClient(pk).value.row.(enabled := enabled, peerIndex := None)
    {
      match GetClient(pk)
      case Err(e) => Err(e)
      case Ok(e) =>
        var img := UpdatePeers(HasPublicKey(pk), SetEnabledRow(enabled));
        UpdateFinds(peers, HasPublicKey(pk), SetEnabledRow(enabled), e, pk);
        Ok(img)
    }

    /** `SetPeerIndex`: silent; an unknown key changes nothing. */
    function SetPeerIndex(pk: string, idx: Option<int>): (r: WgImage)
      requires WellFormed()
      ensures r.WellFormed()
      ensures r == this.(peers := peers.UpdateWhere(HasPublicKey(pk), SetPeerIndexRow(idx)))
    {
      UpdatePeers(HasPublicKey(pk), SetPeerIndexRow(idx))
    }

    /** `UpdateStats`: the runtime columns of the client with that key. */
    function UpdateStats(pk: string, endpoint: string, lastHandshake: Option<int>, rx: int, tx: int): (r: WgImage)
      requires WellFormed()
      ensures r.WellFormed()
      ensures r == this.(peers := peers.UpdateWhere(HasPublicKey(pk), SetStatsRow(endpoint, lastHandshake, rx, tx)))
    {
      UpdatePeers(HasPublicKey(pk), SetStatsRow(endpoint, lastHandshake, rx, tx))
    }

    /** `ClearRuntimeState`: no client keeps a `peer_index`. */
    function ClearRuntimeState(): (r: WgImage)
      requires WellFormed()
      ensures r.WellFormed() && r.peers.Ids() == peers.Ids() && |r.peers.entries| == |peers.entries|
      ensures forall i :: 0 <= i < |peers.entries| ==>
                r.peers.entries[i] == Entry(peers.entries[i].id, peers.entries[i].row.(peerIndex := None))
      ensures r.device == device && r.pool == pool && r.servers == servers && r.tunnels == tunnels
    {
      UpdatePeers(AnyClient, SetPeerIndexRow(None))
    }

    /** `EnabledClients`: exactly the enabled clients, in id order. */
    function EnabledClients(): (r: seq<Entry<Client>>)
      requires WellFormed()
      ensures forall i :: 0 <= i < |r| ==> r[i] in peers.entries && r[i].row.enabled
      ensures forall i :: 0 <= i < |peers.entries| && peers.entries[i].row.enabled ==> peers.entries[i] in r
      ensures forall i, j :: 0 <= i < j < |r| ==> r[i].id < r[j].id
    {
      Table<Client>.SelectSpec(peers.entries, IsEnabledClient);
      Table<Client>.Select(peers.entries, IsEnabledClient)
    }

    /** A rewrite of the rows `keep` accepts through `f`, which leaves the UNIQUE columns alone. */
    function UpdatePeers(keep: Client -> bool, f: Client -> Client): (r: WgImage)
      requires WellFormed()
      requires forall c :: f(c).publicKey == c.publicKey && f(c).allowedIp == c.allowedIp && f(c).allowedIpV6 == c.allowedIpV6
      ensures r.WellFormed()
      ensures r == this.(peers := peers.UpdateWhere(keep, f))
    {
      var t := peers.UpdateWhere(keep, f);
      UniqueKeep(peers.entries, t.entries, PublicKeyOf);
      UniqueKeep(peers.entries, t.entries, AllowedIpOf);
      UniqueKeep(peers.entries, t.entries, AllowedIpV6Of);
      this.(peers := t)
    }

    /**
     * `UPDATE peers SET allowed_ip = ? WHERE id = ?`, as `AddClient` issues
     * it: fails on the UNIQUE index when another client holds the address.
     */
    function SetAllowedIp(id: int, ip: string): (r: Result<WgImage, string>)
      requires WellFormed()
      ensures r.Err? <==> HeldByOther(peers.entries, AllowedIpOf, ip, id)
      ensures r.Err? ==> r.error == UNIQUE_ALLOWED_IP
      ensures r.Ok? ==> r.value.WellFormed() && r.value == this.(peers := peers.UpdateId(id, SetIpRow(ip)))
    {
      if HeldByOther(peers.entries, AllowedIpOf, ip, id) then Err(UNIQUE_ALLOWED_IP)
      else
        var t := peers.UpdateId(id, SetIpRow(ip));
        UniqueKeep(peers.entries, t.entries, PublicKeyOf);
        UniqueSet(peers.entries, t.entries, AllowedIpOf, id);
        UniqueKeep(peers.entries, t.entries, AllowedIpV6Of);
        Ok(this.(peers := t))
    }

    /** `UPDATE peers SET allowed_ip_v6 = ? WHERE id = ?`. */
    function SetAllowedIpV6(id: int, ip: string): (r: Result<WgImage, string>)
      requires WellFormed()
      ensures r.Err? <==> ip != "" && HeldByOther(peers.entries, AllowedIpV6Of, ip, id)
      ensures r.Err? ==> r.error == UNIQUE_ALLOWED_IP_V6
      ensures r.Ok? ==> r.value.WellFormed() && r.value == this.(peers := peers.UpdateId(id, SetIpV6Row(ip)))
    {
      if ip != "" && HeldByOther(peers.entries, AllowedIpV6Of, ip, id) then Err(UNIQUE_ALLOWED_IP_V6)
      else
        var t := peers.UpdateId(id, SetIpV6Row(ip));
        UniqueKeep(peers.entries, t.entries, PublicKeyOf);
        UniqueKeep(peers.entries, t.entries, AllowedIpOf);
        UniqueSet(peers.entries, t.entries, AllowedIpV6Of, id);
        Ok(this.(peers := t))
    }

    // ---- IP pool ----

    /**
     * `AllocateIP`: the lowest-rowid free address of the family is assigned
     * to the peer and returned with "/32" or "/128". An exhausted pool, or a
     * peer id the foreign key rejects, changes nothing.
     */
    function AllocateIP(peerId: int, family: int): (r: Result<(WgImage, string), string>)
      requires WellFormed()
      ensures FirstFree(pool, family).None? ==> r == Err(ExhaustedError(family))
      ensures FirstFree(pool, family).Some? && peerId !in peers.Ids() ==> r == Err(FK_FAILED)
      ensures r.Ok? <==> FirstFree(pool, family).Some? && peerId in peers.Ids()
      ensures r.Ok? ==> var i := FirstFree(pool, family).value;
                        && r.value.1 == pool[i].ip + HostSuffix(family)
                        && r.value.0 == this.(pool := pool[i := pool[i].(inUse := true, peerId := Some(peerId))])
                        && r.value.0.WellFormed()
    {
      match FirstFree(pool, family)
      case None => Err(ExhaustedError(family))
      case Some(i) =>
        if peerId !in peers.Ids() then Err(FK_FAILED)
        else Ok((this.(pool := pool[i := pool[i].(inUse := true, peerId := Some(peerId))]), pool[i].ip + HostSuffix(family)))
    }

    /** `ReleaseIP`: the address, with any "/prefix" cut off, is free again. */
    function ReleaseIP(ip: string): (r: WgImage)
      requires WellFormed()
      ensures r.WellFormed()
      ensures r == this.(pool := ReleaseWhere(pool, WithIp(CutCidr(ip))))
    {
      this.(pool := ReleaseWhere(pool, WithIp(CutCidr(ip))))
    }

    /** `initIPPoolV6`: only with a v6 network and no v6 rows yet; the error is returned. */
    function InitV6(networkV6: string, parse: WgPool.CidrParser): (r: (WgImage, Option<string>))
      requires WellFormed()
      ensures r.0.WellFormed()
      ensures r.0.device == device && r.0.peers == peers && r.0.servers == servers && r.0.tunnels == tunnels
      ensures networkV6 == "" || CountFamily(pool, 6) > 0 ==> r == (this, None)
      ensures r.1.Some? ==> r.0 == this
      ensures r.1.None? && networkV6 != "" && CountFamily(pool, 6) == 0 ==>
                var e := WgPool.Expansion(networkV6, 6, parse);
                e.Ok? && r.0.pool == pool + FreeRows(e.value, 6)
    {
      if networkV6 == "" || CountFamily(pool, 6) > 0 then (this, None)
      else match WgPool.Expansion(networkV6, 6, parse)
        case Err(e) => (this, Some("expand v6: " + e))
        case Ok(ips) => Populate(ips, 6)
    }

    /** One committed or rolled-back population transaction. */
    function Populate(ips: seq<string>, family: int): (r: (WgImage, Option<string>))
      requires WellFormed()
      ensures r.0.WellFormed()
      ensures r.1.Some? ==> r.0 == this && r.1.value == UNIQUE_POOL_IP
      ensures r.1.None? ==> r.0 == this.(pool := pool + FreeRows(ips, family))
      ensures r.1.None? <==> PoolUnique(pool + FreeRows(ips, family))
    {
      AddRowsSpec(pool, ips, family);
      match AddRows(pool, ips, family)
      case Err(e) => (this, Some(e))
      case Ok(p) =>
        assert PoolLinked(p, peers.Ids()) by {
          forall i | 0 <= i < |p| ensures (p[i].inUse <==> p[i].peerId.Some?) && (p[i].peerId.Some? ==> p[i].peerId.value in peers.Ids()) {
            if i >= |pool| { assert p[i] == FreeRows(ips, family)[i - |pool|]; }
            else { assert p[i] == pool[i]; }
          }
        }
        (this.(pool := p), None)
    }

    /**
     * `InitIPPool`: the IPv4 pool is populated only while it is empty; the
     * IPv6 pool follows. A committed IPv4 population stays even when the
     * IPv6 step fails.
     */
    function InitIPPool(network: string, networkV6: string, parse: WgPool.CidrParser): (r: (WgImage, Option<string>))
      requires WellFormed()
      ensures r.0.WellFormed()
      ensures r.0.device == device && r.0.peers == peers && r.0.servers == servers && r.0.tunnels == tunnels
      ensures CountFamily(pool, 4) > 0 ==> r == InitV6(networkV6, parse)
      ensures CountFamily(pool, 4) == 0 && WgPool.Expansion(network, 4, parse).Err? ==>
                r == (this, Some("expand v4: " + WgPool.Expansion(network, 4, parse).error))
    {
      if CountFamily(pool, 4) > 0 then InitV6(networkV6, parse)
      else match WgPool.Expansion(network, 4, parse)
        case Err(e) => (this, Some("expand v4: " + e))
        case Ok(ips) =>
          var (img, err) := Populate(ips, 4);
          if err.Some? then (img, err) else img.InitV6(networkV6, parse)
    }

    // ---- server config ----

    function GetServerConfig(deviceId: int): (r: Result<WgServer.ServerConfig, string>)
      ensures r == WgServer.GetServerConfig(servers, deviceId)
    {
      WgServer.GetServerConfig(servers, deviceId)
    }

    /** `UpsertServerConfig`: the foreign key admits only the existing device row 1. */
    function UpsertServerConfig(cfg: WgServer.ServerConfig): (r: Result<WgImage, string>)
      requires WellFormed()
      ensures r.Err? <==> cfg.deviceId != 1 || device.None?
      ensures r.Err? ==> r.error == FK_FAILED
      ensures r.Ok? ==> r.value.WellFormed() && r.value == this.(servers := WgServer.Upsert(servers, cfg))
      ensures r.Ok? ==> r.value.GetServerConfig(cfg.deviceId) == Ok(cfg)
    {
      if cfg.deviceId != 1 || device.None? then Err(FK_FAILED)
      else
        WgServer.UpsertThenGet(servers, cfg);
        Ok(this.(servers := WgServer.Upsert(servers, cfg)))
    }

    /** `GetOrCreateServerConfig`: an existing config is returned untouched; otherwise the defaults are upserted. */
    function GetOrCreateServerConfig(deviceId: int, listenPort: int): (r: Result<(WgImage, WgServer.ServerConfig), string>)
      requires WellFormed()
      ensures GetServerConfig(deviceId).Ok? ==> r == Ok((this, GetServerConfig(deviceId).value))
      ensures GetServerConfig(deviceId).Err? ==>
                r == (match UpsertServerConfig(WgServer.DefaultConfig(deviceId, listenPort))
                      case Err(e) => Err(e)
                      case Ok(img) => Ok((img, WgServer.DefaultConfig(deviceId, listenPort))))
      ensures r.Ok? ==> r.value.0.WellFormed() && r.value.0.GetServerConfig(deviceId) == Ok(r.value.1)
    {
      match GetServerConfig(deviceId)
      case Ok(cfg) => Ok((this, cfg))
      case Err(_) =>
        var cfg := WgServer.DefaultConfig(deviceId, listenPort);
        match UpsertServerConfig(cfg)
        case Err(e) => Err(e)
        case Ok(img) => Ok((img, cfg))
    }
  }

  /** The empty database the schema creates. */
  function Fresh(): (img: WgImage)
    ensures img.WellFormed()
    ensures img.GetDevice().Err? && img.GetServerConfig(1).Err? && img.peers.entries == [] && img.pool == []
  {
    WgImage(None, Table([], 0), [], map[], Table([], 0))
  }

  // ---- proofs about deleting a client ----

  /** Deleting one row keeps the peers invariant. */
  lemma DeleteKeepsPeers(peers: Table<Client>, t: Table<Client>, id: int)
    requires PeersOk(peers) && t == peers.Delete(id)
    ensures PeersOk(t)
  {
    UniqueSub(peers.entries, t.entries, PublicKeyOf);
    UniqueSub(peers.entries, t.entries, AllowedIpOf);
    UniqueSub(peers.entries, t.entries, AllowedIpV6Of);
  }

  /** After deleting the row found by a unique key, no row holds that key. */
  lemma DeleteDropsKey(peers: Table<Client>, t: Table<Client>, e: Entry<Client>, pk: string)
    requires PeersOk(peers) && e in peers.entries && e.row.publicKey == pk && t == peers.Delete(e.id)
    ensures forall i :: 0 <= i < |t.entries| ==> t.entries[i].row.publicKey != pk
  {
    forall i | 0 <= i < |t.entries| ensures t.entries[i].row.publicKey != pk {
      var m :| 0 <= m < |peers.entries| && peers.entries[m] == t.entries[i];
      var p :| 0 <= p < |peers.entries| && peers.entries[p] == e;
      if t.entries[i].row.publicKey == pk {
        UniqueFind(peers.entries, PublicKeyOf, m);
        UniqueFind(peers.entries, PublicKeyOf, p);
      }
    }
  }

  /** An update by key rewrites the row that key finds, and finds it again. */
  lemma UpdateFinds(peers: Table<Client>, keep: Client -> bool, f: Client -> Client, e: Entry<Client>, pk: string)
    requires PeersOk(peers) && e in peers.entries && e.row.publicKey == pk
    requires keep == HasPublicKey(pk)
    requires forall c :: f(c).publicKey == c.publicKey
    ensures var t := peers.UpdateWhere(keep, f);
            FindBy(t.entries, PublicKeyOf, pk) == Some(Entry(e.id, f(e.row)))
  {
    var t := peers.UpdateWhere(keep, f);
    var p :| 0 <= p < |peers.entries| && peers.entries[p] == e;
    assert t.entries[p] == Entry(e.id, f(e.row));
    UniqueKeep(peers.entries, t.entries, PublicKeyOf);
    UniqueFind(t.entries, PublicKeyOf, p);
  }

  // ---- properties of the pool and the client list ----

  /** Rows appended to a pool that has some row of a family keep one. */
  lemma CountGrows(a: seq<PoolRow>, b: seq<PoolRow>, family: int)
    ensures CountFamily(a, family) > 0 ==> CountFamily(a + b, family) > 0
    ensures CountFamily(b, family) > 0 ==> CountFamily(a + b, family) > 0
    ensures CountFamily(a, family) == 0 && CountFamily(b, family) == 0 ==> CountFamily(a + b, family) == 0
  {
    if CountFamily(a, family) > 0 {
      var k :| 0 <= k < |a| && a[k].family == family;
      assert (a + b)[k] == a[k];
    }
    if CountFamily(b, family) > 0 {
      var k :| 0 <= k < |b| && b[k].family == family;
      assert (a + b)[|a| + k] == b[k];
    }
    if CountFamily(a, family) == 0 && CountFamily(b, family) == 0 {
      forall i | 0 <= i < |a + b| ensures (a + b)[i].family != family {
        if i < |a| { assert (a + b)[i] == a[i]; } else { assert (a + b)[i] == b[i - |a|]; }
      }
    }
  }

  /** Rows added for one family are of that family only. */
  lemma CountFreeRows(ips: seq<string>, family: int, other: int)
    ensures ips != [] ==> CountFamily(FreeRows(ips, family), family) > 0
    ensures other != family ==> CountFamily(FreeRows(ips, family), other) == 0
  {
    if ips != [] {
      assert FreeRows(ips, family)[0].family == family;
    }
  }

  /** Running the IPv6 step a second time changes nothing more. */
  lemma InitV6Idempotent(img: WgImage, networkV6: string, parse: WgPool.CidrParser)
    requires img.WellFormed()
    ensures img.InitV6(networkV6, parse).0.InitV6(networkV6, parse).0 == img.InitV6(networkV6, parse).0
  {
    if networkV6 != "" && CountFamily(img.pool, 6) == 0 && WgPool.Expansion(networkV6, 6, parse).Ok? {
      var ips := WgPool.Expansion(networkV6, 6, parse).value;
      var r := img.Populate(ips, 6);
      if r.1.None? {
        CountFreeRows(ips, 6, 6);
        CountGrows(img.pool, FreeRows(ips, 6), 6);
        if ips == [] {
          assert r.0.pool == img.pool;
        }
      }
    }
  }

  /** `InitIPPool` is idempotent: a second run with the same networks leaves the database as the first left it. */
  lemma InitIPPoolIdempotent(img: WgImage, network: string, networkV6: string, parse: WgPool.CidrParser)
    requires img.WellFormed()
    ensures var r := img.InitIPPool(network, networkV6, parse);
            r.0.InitIPPool(network, networkV6, parse).0 == r.0
  {
    var r := img.InitIPPool(network, networkV6, parse);
    if CountFamily(img.pool, 4) > 0 {
      var v := img.InitV6(networkV6, parse);
      if v.0 != img {
        CountGrows(img.pool, v.0.pool[|img.pool|..], 4);
        assert img.pool + v.0.pool[|img.pool|..] == v.0.pool;
      }
      InitV6Idempotent(img, networkV6, parse);
    } else if WgPool.Expansion(network, 4, parse).Ok? {
      var ips := WgPool.Expansion(network, 4, parse).value;
      var p := img.Populate(ips, 4);
      if p.1.None? {
        var mid := p.0;
        InitV6Idempotent(mid, networkV6, parse);
        var v := mid.InitV6(networkV6, parse);
        assert r.0 == v.0;
        if ips != [] {
          CountFreeRows(ips, 4, 4);
          CountGrows(img.pool, FreeRows(ips, 4), 4);
          if v.0 != mid {
            CountGrows(mid.pool, v.0.pool[|mid.pool|..], 4);
            assert mid.pool + v.0.pool[|mid.pool|..] == v.0.pool;
          }
        } else {
          assert mid == img;
          if v.0 != mid {
            var ips6 := WgPool.Expansion(networkV6, 6, parse).value;
            CountFreeRows(ips6, 6, 4);
            CountGrows(img.pool, FreeRows(ips6, 6), 4);
          }
        }
      }
    }
  }

  /**
   * After a client is deleted, the next allocation of a family its address
   * belonged to hands out that address or a lower one.
   */
  lemma ReuseAfterDelete(img: WgImage, pk: string, i: nat)
    requires img.WellFormed() && img.DeleteClient(pk).Ok?
    requires i < |img.pool| && img.pool[i].peerId == Some(img.GetClient(pk).value.id)
    ensures var p := img.DeleteClient(pk).value.pool;
            var f := FirstFree(p, img.pool[i].family);
            f.Some? && f.value <= i
  {
    var p := img.DeleteClient(pk).value.pool;
    assert IsFree(p[i], img.pool[i].family);
  }

  /** Releasing the address `AllocateIP` returned restores the database exactly. */
  lemma AllocateThenRelease(img: WgImage, peerId: int, family: int)
    requires img.WellFormed() && img.AllocateIP(peerId, family).Ok?
    requires forall k, j :: 0 <= k < |img.pool| && 0 <= j < |img.pool[k].ip| ==> img.pool[k].ip[j] != '/'
    ensures var (img1, cidr) := img.AllocateIP(peerId, family).value;
            img1.ReleaseIP(cidr) == img
  {
    var (img1, cidr) := img.AllocateIP(peerId, family).value;
    var i := FirstFree(img.pool, family).value;
    CutSuffix(img.pool[i].ip, family);
    var p := img1.ReleaseIP(cidr).pool;
    assert |p| == |img.pool|;
    forall k | 0 <= k < |p| ensures p[k] == img.pool[k] {
      if k != i {
        assert img.pool[k].ip != img.pool[i].ip;
      }
    }
  }

  /** The clients `ListClients` returns on pages 1 to `k` of size `l`. */
  ghost function PagesUpTo(img: WgImage, l: int, k: nat): seq<Entry<Client>>
    requires img.WellFormed()
  {
    if k == 0 then [] else PagesUpTo(img, l, k - 1) + img.ListClients(k, l).clients
  }

  /**
   * Paging with a valid limit visits the clients in id order, each once: the
   * first `k` pages together are the first `k * l` clients.
   */
  lemma {:induction false} PagingCoversAll(img: WgImage, l: int, k: nat)
    requires img.WellFormed() && 1 <= l <= 100
    ensures PagesUpTo(img, l, k) == img.peers.entries[..Min(k * l, |img.peers.entries|)]
  {
    if k > 0 {
      PagingCoversAll(img, l, k - 1);
      PageSlice(img, k, l);
      PrefixExtends(img.peers.entries, k, l);
    }
  }

  /** Page `k` of size `l` is the slice of the clients between the two page boundaries. */
  lemma PageSlice(img: WgImage, k: nat, l: int)
    requires img.WellFormed() && 1 <= l <= 100 && k >= 1
    ensures var es := img.peers.entries;
            img.ListClients(k, l).clients == es[Min(Offset(k, l), |es|)..Min(k * l, |es|)]
  {
    assert Offset(k, l) + l == k * l by { PageEnd(k, l); }
  }

  /** The prefix up to one page boundary, then the next page, is the prefix up to the next boundary. */
  lemma PrefixExtends<T>(es: seq<T>, k: nat, l: int)
    requires 1 <= l && k >= 1
    ensures es[..Min((k - 1) * l, |es|)] + es[Min(Offset(k, l), |es|)..Min(k * l, |es|)] == es[..Min(k * l, |es|)]
  {
    assert Offset(k, l) + l == k * l by { PageEnd(k, l); }
    SplitAt(es, Min(Offset(k, l), |es|), Min(k * l, |es|));
  }

  /** A prefix and the slice after it make up the longer prefix. */
  lemma SplitAt<T>(s: seq<T>, a: nat, b: nat)
    requires a <= b <= |s|
    ensures s[..a] + s[a..b] == s[..b]
  {
  }

  lemma PageEnd(k: int, l: int)
    requires k >= 1 && l >= 1
    ensures (k - 1) * l + l == k * l
  {
  }

  // ---- the store as the bridge drives it ----

  /** The population loop of `InitIPPool`: a prepared INSERT per address inside one transaction. */
  method InsertPool(pool: seq<PoolRow>, ips: seq<string>, family: int) returns (r: Result<seq<PoolRow>, string>)
    ensures r == AddRows(pool, ips, family)
  {
    var acc := pool;
    var i := 0;
    while i < |ips|
      invariant 0 <= i <= |ips|
      invariant AddRows(acc, ips[i..], family) == AddRows(pool, ips, family)
    {
      assert ips[i..][0] == ips[i] && ips[i..][1..] == ips[i + 1..];
      if HasIp(acc, ips[i]) {
        return Err(UNIQUE_POOL_IP);
      }
      acc := acc + [FreeRow(ips[i], family)];
      i := i + 1;
    }
    assert ips[i..] == [];
    return Ok(acc);
  }

  /** The cut `ReleaseIP` makes, scanning back from the end for a '/'. */
  method StripCidr(ip: string) returns (cut: string)
    ensures cut == CutCidr(ip)
  {
    cut := ip;
    var i := |ip|;
    while i > 0
      invariant 0 <= i <= |ip|
      invariant forall j :: i <= j < |ip| ==> ip[j] != '/'
    {
      if ip[i - 1] == '/' {
        cut := ip[..i - 1];
        CutAt(ip, i - 1);
        return;
      }
      i := i - 1;
    }
  }

  lemma CutAt(ip: string, k: nat)
    requires k < |ip| && ip[k] == '/' && forall j :: k < j < |ip| ==> ip[j] != '/'
    ensures CutCidr(ip) == ip[..k]
  {
    var r := CutCidr(ip);
    assert |r| == k;
  }

  /** `BridgeDB`: an open connection to bridge-db. */
  class BridgeDB {
    var device: Option<DeviceRecord>
    var peers: Table<Client>
    var pool: seq<PoolRow>
    var servers: map<int, WgServer.ServerRow>
    var tunnels: Table<WgTunnels.Tunnel>

    function Image(): WgImage
      reads this
    {
      WgImage(device, peers, pool, servers, tunnels)
    }

    ghost predicate Valid()
      reads this
    {
      Image().WellFormed()
    }

    /** `Open`: the connection sees the file; the schema's tables exist in it. */
    constructor Open(file: WgImage)
      requires file.WellFormed()
      ensures Valid() && Image() == file
    {
      device, peers, pool, servers, tunnels := file.device, file.peers, file.pool, file.servers, file.tunnels;
    }

    method Store(img: WgImage)
      requires img.WellFormed()
      modifies this
      ensures Valid() && Image() == img
    {
      device, peers, pool, servers, tunnels := img.device, img.peers, img.pool, img.servers, img.tunnels;
    }

    method UpsertDevice(name: string, privateKey: string, publicKey: string, port: int)
      requires Valid()
      modifies this
      ensures Valid() && Image() == old(Image()).UpsertDevice(name, privateKey, publicKey, port)
    {
      Store(Image().UpsertDevice(name, privateKey, publicKey, port));
    }

    method SetDeviceStartedAt(t: Option<int>)
      requires Valid()
      modifies this
      ensures Valid() && Image() == old(Image()).SetDeviceStartedAt(t)
    {
      Store(Image().SetDeviceStartedAt(t));
    }

    method InsertClient(rec: Client, now: int) returns (r: Result<Entry<Client>, string>)
      requires Valid()
      modifies this
      ensures Valid()
      ensures old(Image()).InsertClient(rec, now).Err? ==>
                r == Err(old(Image()).InsertClient(rec, now).error) && Image() == old(Image())
      ensures old(Image()).InsertClient(rec, now).Ok? ==>
                r == Ok(old(Image()).InsertClient(rec, now).value.1) && Image() == old(Image()).InsertClient(rec, now).value.0
    {
      var u := Image().InsertClient(rec, now);
      if u.Err? {
        return Err(u.error);
      }
      Store(u.value.0);
      return Ok(u.value.1);
    }

    method DeleteClient(pk: string) returns (r: Result<(), string>)
      requires Valid()
      modifies this
      ensures Valid()
      ensures old(Image()).DeleteClient(pk).Err? ==>
                r == Err(old(Image()).DeleteClient(pk).error) && Image() == old(Image())
      ensures old(Image()).DeleteClient(pk).Ok? ==> r == Ok(()) && Image() == old(Image()).DeleteClient(pk).value
    {
      var u := Image().DeleteClient(pk);
      if u.Err? {
        return Err(u.error);
      }
      Store(u.value);
      return Ok(());
    }

    method SetEnabled(pk: string, enabled: bool) returns (r: Result<(), string>)
      requires Valid()
      modifies this
      ensures Valid()
      ensures old(Image()).SetEnabled(pk, enabled).Err? ==>
                r == Err(old(Image()).SetEnabled(pk, enabled).error) && Image() == old(Image())
      ensures old(Image()).SetEnabled(pk, enabled).Ok? ==>
                r == Ok(()) && Image() == old(Image()).SetEnabled(pk, enabled).value
    {
      var u := Image().SetEnabled(pk, enabled);
      if u.Err? {
        return Err(u.error);
      }
      Store(u.value);
      return Ok(());
    }

    method SetPeerIndex(pk: string, idx: Option<int>)
      requires Valid()
      modifies this
      ensures Valid() && Image() == old(Image()).SetPeerIndex(pk, idx)
    {
      Store(Image().SetPeerIndex(pk, idx));
    }

    method UpdateStats(pk: string, endpoint: string, lastHandshake: Option<int>, rx: int, tx: int)
      requires Valid()
      modifies this
      ensures Valid() && Image() == old(Image()).UpdateStats(pk, endpoint, lastHandshake, rx, tx)
    {
      Store(Image().UpdateStats(pk, endpoint, lastHandshake, rx, tx));
    }

    method ClearRuntimeState()
      requires Valid()
      modifies this
      ensures Valid() && Image() == old(Image()).ClearRuntimeState()
    {
      Store(Image().ClearRuntimeState());
    }

    method SetAllowedIp(id: int, ip: string) returns (r: Result<(), string>)
      requires Valid()
      modifies this
      ensures Valid()
      ensures old(Image()).SetAllowedIp(id, ip).Err? ==>
                r == Err(old(Image()).SetAllowedIp(id, ip).error) && Image() == old(Image())
      ensures old(Image()).SetAllowedIp(id, ip).Ok? ==> r == Ok(()) && Image() == old(Image()).SetAllowedIp(id, ip).value
    {
      var u := Image().SetAllowedIp(id, ip);
      if u.Err? {
        return Err(u.error);
      }
      Store(u.value);
      return Ok(());
    }

    method SetAllowedIpV6(id: int, ip: string) returns (r: Result<(), string>)
      requires Valid()
      modifies this
      ensures Valid()
      ensures old(Image()).SetAllowedIpV6(id, ip).Err? ==>
                r == Err(old(Image()).SetAllowedIpV6(id, ip).error) && Image() == old(Image())
      ensures old(Image()).SetAllowedIpV6(id, ip).Ok? ==> r == Ok(()) && Image() == old(Image()).SetAllowedIpV6(id, ip).value
    {
      var u := Image().SetAllowedIpV6(id, ip);
      if u.Err? {
        return Err(u.error);
      }
      Store(u.value);
      return Ok(());
    }

    method AllocateIP(peerId: int, family: int) returns (r: Result<string, string>)
      requires Valid()
      modifies this
      ensures Valid()
      ensures old(Image()).AllocateIP(peerId, family).Err? ==>
                r == Err(old(Image()).AllocateIP(peerId, family).error) && Image() == old(Image())
      ensures old(Image()).AllocateIP(peerId, family).Ok? ==>
                r == Ok(old(Image()).AllocateIP(peerId, family).value.1) && Image() == old(Image()).AllocateIP(peerId, family).value.0
    {
      var u := Image().AllocateIP(peerId, family);
      if u.Err? {
        return Err(u.error);
      }
      Store(u.value.0);
      return Ok(u.value.1);
    }

    method ReleaseIP(ip: string)
      requires Valid()
      modifies this
      ensures Valid() && Image() == old(Image()).ReleaseIP(ip)
    {
      var cut := StripCidr(ip);
      Store(Image().(pool := ReleaseWhere(pool, WithIp(cut))));
    }

    /** `initIPPoolV6`, statement by statement. */
    method InitV6(networkV6: string, parse: WgPool.CidrParser) returns (err: Option<string>)
      requires Valid()
      modifies this
      ensures Valid() && (Image(), err) == old(Image()).InitV6(networkV6, parse)
    {
      if networkV6 == "" || CountFamily(pool, 6) > 0 {
        return None;
      }
      var ips := WgPool.ExpandSubnet(networkV6, 6, parse);
      if ips.Err? {
        return Some("expand v6: " + ips.error);
      }
      err := Commit(ips.value, 6);
    }

    /** The population transaction: committed whole, or rolled back on the first duplicate address. */
    method Commit(ips: seq<string>, family: int) returns (err: Option<string>)
      requires Valid()
      modifies this
      ensures Valid() && (Image(), err) == old(Image()).Populate(ips, family)
    {
      ghost var p := Image().Populate(ips, family);
      AddRowsSpec(pool, ips, family);
      var rows := InsertPool(pool, ips, family);
      if rows.Err? {
        return Some(rows.error);
      }
      Store(Image().(pool := rows.value));
      return None;
    }

    /** `InitIPPool`, statement by statement. */
    method InitIPPool(network: string, networkV6: string, parse: WgPool.CidrParser) returns (err: Option<string>)
      requires Valid()
      modifies this
      ensures Valid() && (Image(), err) == old(Image()).InitIPPool(network, networkV6, parse)
    {
      if CountFamily(pool, 4) > 0 {
        err := InitV6(networkV6, parse);
        return;
      }
      var ips := WgPool.ExpandSubnet(network, 4, parse);
      if ips.Err? {
        return Some("expand v4: " + ips.error);
      }
      err := Commit(ips.value, 4);
      if err.Some? {
        return;
      }
      err := InitV6(networkV6, parse);
    }

    method UpsertServerConfig(cfg: WgServer.ServerConfig) returns (r: Result<(), string>)
      requires Valid()
      modifies this
      ensures Valid()
      ensures old(Image()).UpsertServerConfig(cfg).Err? ==>
                r == Err(old(Image()).UpsertServerConfig(cfg).error) && Image() == old(Image())
      ensures old(Image()).UpsertServerConfig(cfg).Ok? ==> r == Ok(()) && Image() == old(Image()).UpsertServerConfig(cfg).value
    {
      var u := Image().UpsertServerConfig(cfg);
      if u.Err? {
        return Err(u.error);
      }
      Store(u.value);
      return Ok(());
    }

    method GetOrCreateServerConfig(deviceId: int, listenPort: int) returns (r: Result<WgServer.ServerConfig, string>)
      requires Valid()
      modifies this
      ensures Valid()
      ensures old(Image()).GetOrCreateServerConfig(deviceId, listenPort).Err? ==>
                r == Err(old(Image()).GetOrCreateServerConfig(deviceId, listenPort).error) && Image() == old(Image())
      ensures old(Image()).GetOrCreateServerConfig(deviceId, listenPort).Ok? ==>
                r == Ok(old(Image()).GetOrCreateServerConfig(deviceId, listenPort).value.1)
                && Image() == old(Image()).GetOrCreateServerConfig(deviceId, listenPort).value.0
    {
      var u := Image().GetOrCreateServerConfig(deviceId, listenPort);
      if u.Err? {
        return Err(u.error);
      }
      Store(u.value.0);
      return Ok(u.value.1);
    }

    // ---- multihop tunnels ----

    method InsertTunnel(t: WgTunnels.Tunnel, now: int) returns (r: Result<Entry<WgTunnels.Tunnel>, string>)
      requires Valid()
      modifies this
      ensures Valid()
      ensures WgTunnels.Insert(old(tunnels), t, now).Err? ==>
                r == Err(WgTunnels.Insert(old(tunnels), t, now).error) && Image() == old(Image())
      ensures WgTunnels.Insert(old(tunnels), t, now).Ok? ==>
                r == Ok(WgTunnels.Insert(old(tunnels), t, now).value.1)
                && Image() == old(Image()).(tunnels := WgTunnels.Insert(old(tunnels), t, now).value.0)
    {
      var u := WgTunnels.Insert(tunnels, t, now);
      if u.Err? {
        return Err(u.error);
      }
      Store(Image().(tunnels := u.value.0));
      return Ok(u.value.1);
    }

    method DeleteTunnel(name: string) returns (r: Result<(), string>)
      requires Valid()
      modifies this
      ensures Valid()
      ensures WgTunnels.Delete(old(tunnels), name).Err? ==>
                r == Err(WgTunnels.Delete(old(tunnels), name).error) && Image() == old(Image())
      ensures WgTunnels.Delete(old(tunnels), name).Ok? ==>
                r == Ok(()) && Image() == old(Image()).(tunnels := WgTunnels.Delete(old(tunnels), name).value)
    {
      var u := WgTunnels.Delete(tunnels, name);
      if u.Err? {
        return Err(u.error);
      }
      Store(Image().(tunnels := u.value));
      return Ok(());
    }

    method SetTunnelEnabled(name: string, enabled: bool) returns (r: Result<(), string>)
      requires Valid()
      modifies this
      ensures Valid()
      ensures WgTunnels.SetEnabled(old(tunnels), name, enabled).Err? ==>
                r == Err(WgTunnels.SetEnabled(old(tunnels), name, enabled).error) && Image() == old(Image())
      ensures WgTunnels.SetEnabled(old(tunnels), name, enabled).Ok? ==>
                r == Ok(()) && Image() == old(Image()).(tunnels := WgTunnels.SetEnabled(old(tunnels), name, enabled).value)
    {
      var u := WgTunnels.SetEnabled(tunnels, name, enabled);
      if u.Err? {
        return Err(u.error);
      }
      Store(Image().(tunnels := u.value));
      return Ok(());
    }

    method SetTunnelStatus(name: string, status: string, errorMsg: string, startedAt: Option<int>)
      requires Valid()
      modifies this
      ensures Valid()
      ensures Image() == old(Image()).(tunnels := WgTunnels.SetStatus(old(tunnels), name, status, errorMsg, startedAt))
    {
      Store(Image().(tunnels := WgTunnels.SetStatus(tunnels, name, status, errorMsg, startedAt)));
    }

    method ClearTunnelRuntime()
      requires Valid()
      modifies this
      ensures Valid() && Image() == old(Image()).(tunnels := WgTunnels.ClearRuntime(old(tunnels)))
    {
      Store(Image().(tunnels := WgTunnels.ClearRuntime(tunnels)));
    }

    method UpdateTunnel(u: WgTunnels.Tunnel) returns (r: Result<(), string>)
      requires Valid()
      modifies this
      ensures Valid()
      ensures WgTunnels.Update(old(tunnels), u).Err? ==>
                r == Err(WgTunnels.Update(old(tunnels), u).error) && Image() == old(Image())
      ensures WgTunnels.Update(old(tunnels), u).Ok? ==>
                r == Ok(()) && Image() == old(Image()).(tunnels := WgTunnels.Update(old(tunnels), u).value)
    {
      var v := WgTunnels.Update(tunnels, u);
      if v.Err? {
        return Err(v.error);
      }
      Store(Image().(tunnels := v.value));
      return Ok(());
    }
  }
}
