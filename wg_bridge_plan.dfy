/**
 * The decisions of the bridge state (src/bridge/state.go) as functions of
 * what the database holds and what the environment answers: the status
 * names, key generation, what `Init`, `Setup`, `Start` and `AddClient` do
 * to the database, the calls the devices receive, and how the multihop
 * restore proceeds past failures.
 */
module WgBridgePlan {
  import opened Wrappers
  import opened Machine
  import opened Tables
  import opened WgBridgeText
  import Strings
  import WgDb
  import WgServer
  import WgTunnels
  import WgKeys
  import WgDevice
  import WgPool

  /** `Status`. */
  datatype Status = Uninitialized | NeedsSetup | Ready | Running | Error

  function StatusText(s: Status): string
  {
    match s
    case Uninitialized => "uninitialized"
    case NeedsSetup => "needs_setup"
    case Ready => "ready"
    case Running => "running"
    case Error => "error"
  }

  /** Distinct statuses have distinct names, so the name read back identifies the status. */
  lemma StatusTextDistinct(a: Status, b: Status)
    ensures StatusText(a) == StatusText(b) <==> a == b
  {
    if a != b {
      assert StatusText(a)[0] != StatusText(b)[0] || |StatusText(a)| != |StatusText(b)|;
    }
  }

  const NOT_INITIALIZED := "not initialized"
  /** The error `database/sql` gives for a query on a closed handle. */
  const DB_CLOSED := "sql: database is closed"
  /**
   * A single-tunnel read on a closed handle: `QueryRow` defers the error to
   * `Scan`, which `scanMultihopTunnel` wraps.
   */
  const SCAN_CLOSED := "scan multihop: " + DB_CLOSED

  /** What the client mutations answer when the device is not up. */
  function NotRunning(s: Status): string
  {
    "not running (status=" + StatusText(s) + ")"
  }

  function NotReady(s: Status): string
  {
    "not ready (status=" + StatusText(s) + "), run Setup first"
  }

  // ---------------------------------------------------------------------
  // Keys
  // ---------------------------------------------------------------------

  /** A fresh key pair: a clamped private key from `random` and its public key, or the step that failed. */
  function KeyPair(random: WgKeys.Entropy, x25519: seq<Byte> -> Result<seq<Byte>, string>): (r: Result<(string, string), string>)
    requires WgKeys.WellFormedEntropy(random)
  {
    if random.Err? then Err("keygen: random read: " + random.error)
    else
      var priv := WgKeys.HexEncode(WgKeys.Clamped(random.value));
      match WgKeys.DerivePublicKey(priv, x25519)
      case Err(e) => Err("derive pub: " + e)
      case Ok(pub) => Ok((priv, pub))
  }

  /**
   * Key generation fails only when reading randomness or the scalar
   * multiplication fails: a generated private key always passes the
   * public-key derivation's validation.
   */
  lemma KeyPairFails(random: WgKeys.Entropy, x25519: seq<Byte> -> Result<seq<Byte>, string>)
    requires WgKeys.WellFormedEntropy(random)
    ensures KeyPair(random, x25519).Err? <==>
              random.Err? || x25519(WgKeys.Clamped(random.value)).Err?
    ensures KeyPair(random, x25519).Ok? ==>
              KeyPair(random, x25519).value.0 == WgKeys.HexEncode(WgKeys.Clamped(random.value))
  {
    if random.Ok? {
      WgKeys.GeneratedKeyDerives(random.value, x25519);
    }
  }

  // ---------------------------------------------------------------------
  // Init
  // ---------------------------------------------------------------------

  /** `ClearRuntimeState` then `ClearMultihopRuntimeState`: stale runtime columns of a crashed run are reset. */
  function RuntimeCleared(img: WgDb.WgImage): (r: WgDb.WgImage)
    requires img.WellFormed()
    ensures r.WellFormed()
  {
    var a := img.ClearRuntimeState();
    a.(tunnels := WgTunnels.ClearRuntime(a.tunnels))
  }

  /** Clearing the runtime state keeps the device record, the pool, the server configuration and every row's id. */
  lemma RuntimeClearedKeeps(img: WgDb.WgImage)
    requires img.WellFormed()
    ensures var r := RuntimeCleared(img);
      && r.device == img.device && r.pool == img.pool && r.servers == img.servers
      && r.peers.Ids() == img.peers.Ids() && r.tunnels.Ids() == img.tunnels.Ids()
  {
    var a := img.ClearRuntimeState();
    var r := RuntimeCleared(img);
    assert r.tunnels.Ids() == a.tunnels.Ids() by {
      assert forall i :: 0 <= i < |a.tunnels.entries| ==> r.tunnels.entries[i].id == a.tunnels.entries[i].id;
    }
  }

  /**
   * The device record after `Init`: an existing one stays; without one, a
   * fresh key pair is generated and stored with the interface name and
   * port, or the key step's error is returned.
   */
  function Seeded(img: WgDb.WgImage, ifname: string, listenPort: int, keys: Result<(string, string), string>): (r: Result<WgDb.WgImage, string>)
    requires img.WellFormed()
    ensures r.Ok? ==> r.value.WellFormed()
  {
    if img.GetDevice().Ok? then Ok(img)
    else if keys.Err? then Err(keys.error)
    else Ok(img.UpsertDevice(ifname, keys.value.0, keys.value.1, listenPort))
  }

  /** A device record is created only when none exists, and then from the generated keys. */
  lemma SeededOnlyWhenMissing(img: WgDb.WgImage, ifname: string, listenPort: int, keys: Result<(string, string), string>)
    requires img.WellFormed()
    ensures img.device.Some? ==> Seeded(img, ifname, listenPort, keys) == Ok(img)
    ensures img.device.None? && keys.Err? ==> Seeded(img, ifname, listenPort, keys) == Err(keys.error)
    ensures img.device.None? && keys.Ok? ==>
              Seeded(img, ifname, listenPort, keys).Ok?
              && Seeded(img, ifname, listenPort, keys).value.GetDevice() ==
                   Ok(WgDb.DeviceRecord(ifname, keys.value.0, keys.value.1, listenPort, None))
              && Seeded(img, ifname, listenPort, keys).value.peers == img.peers
    ensures Seeded(img, ifname, listenPort, keys).Ok? ==> Seeded(img, ifname, listenPort, keys).value.GetDevice().Ok?
  {
  }

  /** The status `Init` ends in: ready when a server configuration exists, needs_setup otherwise. */
  function InitStatus(img: WgDb.WgImage): (s: Status)
    ensures s == Ready <==> img.GetServerConfig(1).Ok?
    ensures s == Ready || s == NeedsSetup
  {
    if img.GetServerConfig(1).Ok? then Ready else NeedsSetup
  }

  /**
   * What `Stop` and `closeInternal` write: the runtime state of peers and
   * tunnels cleared and the device's start time removed.
   */
  function Quiesced(img: WgDb.WgImage): (r: WgDb.WgImage)
    requires img.WellFormed()
    ensures r.WellFormed()
  {
    RuntimeCleared(img).SetDeviceStartedAt(None)
  }

  /**
   * After `Quiesced` no peer has a peer index, every tunnel is stopped
   * with no error and no start time, and the device has no start time;
   * the configuration (keys, addresses, enabled flags, pool, server
   * configuration) is kept, row by row.
   */
  lemma QuiescedKeepsConfig(img: WgDb.WgImage)
    requires img.WellFormed()
    ensures var r := Quiesced(img);
      && (r.device.Some? <==> img.device.Some?)
      && (r.device.Some? ==> r.device.value == img.device.value.(startedAt := None))
      && r.pool == img.pool && r.servers == img.servers
      && |r.peers.entries| == |img.peers.entries| && |r.tunnels.entries| == |img.tunnels.entries|
      && (forall i :: 0 <= i < |img.peers.entries| ==>
            r.peers.entries[i] == Entry(img.peers.entries[i].id, img.peers.entries[i].row.(peerIndex := None)))
      && (forall i :: 0 <= i < |img.tunnels.entries| ==>
            r.tunnels.entries[i] ==
              Entry(img.tunnels.entries[i].id, img.tunnels.entries[i].row.(status := "stopped", errorMsg := "", startedAt := None)))
  {
  }

  // ---------------------------------------------------------------------
  // Setup
  // ---------------------------------------------------------------------

  const DEFAULT_NETWORK := "10.8.0.0/24"
  const DEFAULT_DNS := "1.1.1.1"
  const DEFAULT_MTU := 1420

  /** The server configuration `Setup` stores, empty or zero arguments replaced by the defaults. */
  function SetupConfig(endpoint: string, network: string, dnsPrimary: string, dnsSecondary: string, mtu: int, fwmark: int): WgServer.ServerConfig
  {
    WgServer.ServerConfig(1, endpoint, "", if network == "" then DEFAULT_NETWORK else network, "",
                          if dnsPrimary == "" then DEFAULT_DNS else dnsPrimary, dnsSecondary, "",
                          if mtu == 0 then DEFAULT_MTU else mtu, fwmark, "", "")
  }

  /** Each default applies exactly when its argument is empty or zero; the other arguments are stored as given. */
  lemma SetupDefaults(endpoint: string, network: string, dnsPrimary: string, dnsSecondary: string, mtu: int, fwmark: int)
    ensures var c := SetupConfig(endpoint, network, dnsPrimary, dnsSecondary, mtu, fwmark);
      && c.deviceId == 1
      && (network == "" ==> c.network == "10.8.0.0/24") && (network != "" ==> c.network == network)
      && (dnsPrimary == "" ==> c.dnsPrimary == "1.1.1.1") && (dnsPrimary != "" ==> c.dnsPrimary == dnsPrimary)
      && (mtu == 0 ==> c.mtu == 1420) && (mtu != 0 ==> c.mtu == mtu)
      && c.endpoint == endpoint && c.dnsSecondary == dnsSecondary && c.fwmark == fwmark
      && c.networkV6 == "" && !c.HasIPv6()
  {
  }

  /** The IPv6 network `Setup` hands to the pool: the stored one, or "" when the read fails. */
  function StoredNetworkV6(img: WgDb.WgImage): string
  {
    match img.GetServerConfig(1)
    case Ok(cfg) => cfg.networkV6
    case Err(_) => ""
  }

  /** What `Setup` leaves in the database: the configuration upserted, then the pool initialised (its error ignored). */
  function SetupImage(img: WgDb.WgImage, cfg: WgServer.ServerConfig, parse: WgPool.CidrParser): (r: Result<WgDb.WgImage, string>)
    requires img.WellFormed()
    ensures r.Ok? ==> r.value.WellFormed()
    ensures r.Err? <==> img.device.None?
    ensures r.Err? ==> r.error == "save config: " + WgDb.FK_FAILED
  {
    match img.UpsertServerConfig(cfg.(deviceId := 1))
    case Err(e) => Err("save config: " + e)
    case Ok(img1) => Ok(img1.InitIPPool(cfg.network, StoredNetworkV6(img1), parse).0)
  }

  /**
   * After `Setup` the configuration reads back as stored, the device record
   * and the clients are untouched, and the pool is only extended.
   */
  lemma SetupStores(img: WgDb.WgImage, cfg: WgServer.ServerConfig, parse: WgPool.CidrParser)
    requires img.WellFormed() && cfg.deviceId == 1
    ensures SetupImage(img, cfg, parse).Ok? ==>
              var r := SetupImage(img, cfg, parse).value;
              && r.GetServerConfig(1) == Ok(cfg)
              && r.device == img.device && r.peers == img.peers && r.tunnels == img.tunnels
              && |r.pool| >= |img.pool| && r.pool[..|img.pool|] == img.pool
  {
    if img.device.Some? {
      var img1 := img.UpsertServerConfig(cfg).value;
      var r := img1.InitIPPool(cfg.network, StoredNetworkV6(img1), parse);
      PoolExtends(img1, cfg.network, StoredNetworkV6(img1), parse);
    }
  }

  lemma PoolExtends(img: WgDb.WgImage, network: string, networkV6: string, parse: WgPool.CidrParser)
    requires img.WellFormed()
    ensures var r := img.InitIPPool(network, networkV6, parse).0;
      |r.pool| >= |img.pool| && r.pool[..|img.pool|] == img.pool && r.servers == img.servers
  {
    var r := img.InitIPPool(network, networkV6, parse).0;
    if WgDb.CountFamily(img.pool, 4) > 0 {
      V6Extends(img, networkV6, parse);
    } else if WgPool.Expansion(network, 4, parse).Ok? {
      var ips := WgPool.Expansion(network, 4, parse).value;
      var (img1, err) := img.Populate(ips, 4);
      if err.None? {
        V6Extends(img1, networkV6, parse);
        assert img1.pool[..|img.pool|] == img.pool;
      }
    }
  }

  lemma V6Extends(img: WgDb.WgImage, networkV6: string, parse: WgPool.CidrParser)
    requires img.WellFormed()
    ensures var r := img.InitV6(networkV6, parse).0;
      |r.pool| >= |img.pool| && r.pool[..|img.pool|] == img.pool && r.servers == img.servers
  {
    var r := img.InitV6(networkV6, parse);
    if r.1.None? && networkV6 != "" && WgDb.CountFamily(img.pool, 6) == 0 {
      assert r.0.pool[..|img.pool|] == img.pool;
    }
  }

  // ---------------------------------------------------------------------
  // Start
  // ---------------------------------------------------------------------

  /** What the environment answers while a device is brought up. */
  datatype LaunchFaults = LaunchFaults(
    tunError: Option<string>,
    created: bool,
    configError: Option<string>,
    upError: Option<string>)

  /**
   * The first failing step of `Start` once the status is ready, as the
   * pair (what `lastError` records, what is returned): the two differ only
   * for the TUN device.
   */
  function StartError(img: WgDb.WgImage, f: LaunchFaults): Option<(string, string)>
  {
    match img.GetDevice()
    case Err(e) => Some(("read device: " + e, "read device: " + e))
    case Ok(_) =>
      match img.GetServerConfig(1)
      case Err(e) => Some(("read server config: " + e, "read server config: " + e))
      case Ok(_) => LaunchError(f)
  }

  /** The device steps of `Start`: TUN, engine, configuration, up. */
  function LaunchError(f: LaunchFaults): Option<(string, string)>
  {
    if f.tunError.Some? then Some(("tun create: " + f.tunError.value, "tun: " + f.tunError.value))
    else if !f.created then Some(("device create failed", "device create failed"))
    else if f.configError.Some? then Some(("ipc set: " + f.configError.value, "ipc set: " + f.configError.value))
    else if f.upError.Some? then Some(("device up: " + f.upError.value, "device up: " + f.upError.value))
    else None
  }

  /** `Start` gets past the reads iff a device record and a server configuration exist. */
  lemma StartNeedsRecords(img: WgDb.WgImage, f: LaunchFaults)
    ensures img.GetDevice().Err? ==> StartError(img, f) == Some(("read device: " + WgDb.NO_ROWS, "read device: " + WgDb.NO_ROWS))
    ensures StartError(img, f).None? <==>
              img.device.Some? && img.GetServerConfig(1).Ok? && f.tunError.None? && f.created && f.configError.None? && f.upError.None?
  {
  }

  /** The configuration `Start` applies to its device. */
  function StartConfig(img: WgDb.WgImage): string
    requires img.GetDevice().Ok? && img.GetServerConfig(1).Ok?
  {
    var rec := img.GetDevice().value;
    DeviceConfig(rec.privateKey, rec.listenPort, img.GetServerConfig(1).value.fwmark)
  }

  /** One `IpcSet` per client, in order, each with `addPeerToDevice`'s configuration. */
  function PeerCalls(cs: seq<Entry<WgDb.Client>>): (calls: seq<WgDevice.Call>)
    ensures |calls| == |cs|
    ensures forall i :: 0 <= i < |cs| ==> calls[i] == WgDevice.SetCall(ClientPeerConfig(cs[i].row))
    decreases |cs|
  {
    if cs == [] then [] else PeerCalls(cs[..|cs| - 1]) + [WgDevice.SetCall(ClientPeerConfig(cs[|cs| - 1].row))]
  }

  // ---------------------------------------------------------------------
  // Multihop devices
  // ---------------------------------------------------------------------

  /** The tunnel `CreateMultihopTunnel` inserts: disabled, with the fixed remote and routing defaults. */
  function NewTunnel(name: string, iface: string, remoteEndpoint: string, remotePubKey: string, fwmark: int, priv: string, pub: string): (t: WgTunnels.Tunnel)
    ensures t.name == name && t.interfaceName == iface && t.remoteEndpoint == remoteEndpoint && t.remotePublicKey == remotePubKey
    ensures t.fwmark == fwmark && t.privateKey == priv && t.publicKey == pub
    ensures !t.enabled && t.listenPort == 0 && t.remotePresharedKey == ""
    ensures t.remoteAllowedIps == "0.0.0.0/0" && t.remoteKeepalive == 25
    ensures t.routingTable == "phantom_multihop" && t.routingTableId == 100 && t.priority == 100
  {
    WgTunnels.Tunnel(name, false, iface, 0, priv, pub, remoteEndpoint, remotePubKey, "", "0.0.0.0/0", 25, fwmark,
                     "phantom_multihop", 100, 100, "", "", None, 0)
  }

  /**
   * A created tunnel's device configuration names only its key and fwmark
   * (the listen port is 0, so left to the kernel), and its peer routes
   * everything to the remote endpoint.
   */
  lemma NewTunnelConfigs(name: string, iface: string, remoteEndpoint: string, remotePubKey: string, fwmark: int, priv: string, pub: string)
    ensures var t := NewTunnel(name, iface, remoteEndpoint, remotePubKey, fwmark, priv, pub);
      && HopDeviceLines(t) == ["private_key=" + priv] + (if fwmark != 0 then ["fwmark=" + Strings.IntToString(fwmark)] else [])
      && HopPeerLines(t) == ["public_key=" + remotePubKey, "endpoint=" + remoteEndpoint, "allowed_ip=0.0.0.0/0",
                             "persistent_keepalive_interval=" + Strings.IntToString(25)]
  {
    var t := NewTunnel(name, iface, remoteEndpoint, remotePubKey, fwmark, priv, pub);
    var fixed := ["public_key=" + remotePubKey, "endpoint=" + remoteEndpoint, "allowed_ip=0.0.0.0/0",
                  "persistent_keepalive_interval=" + Strings.IntToString(25)];
    assert "allowed_ip=" + t.remoteAllowedIps == "allowed_ip=0.0.0.0/0";
    assert HopPeerLines(t) == fixed + [] == fixed;
  }

  /** What the environment answers while a hop's device is brought up. */
  datatype HopFaults = HopFaults(launch: LaunchFaults, peerError: Option<string>)

  /** `startMultihopDevice`'s error, naming the interface. */
  function HopError(t: WgTunnels.Tunnel, f: HopFaults): Option<string>
  {
    var l := f.launch;
    var iface := t.interfaceName;
    if l.tunError.Some? then Some("tun " + iface + ": " + l.tunError.value)
    else if !l.created then Some("device create " + iface)
    else if l.configError.Some? then Some("ipc set device " + iface + ": " + l.configError.value)
    else if f.peerError.Some? then Some("ipc set peer " + iface + ": " + f.peerError.value)
    else if l.upError.Some? then Some("device up " + iface + ": " + l.upError.value)
    else None
  }

  /** The calls a hop's device receives on a successful start: its configuration, its one peer, then up. */
  function HopCalls(t: WgTunnels.Tunnel): seq<WgDevice.Call>
  {
    [WgDevice.SetCall(HopDeviceConfig(t)), WgDevice.SetCall(HopPeerConfig(t)), WgDevice.UpCall]
  }

  /** The runtime columns a start attempt writes: running with the start time, or error with the message. */
  function HopOutcome(tbl: Table<WgTunnels.Tunnel>, t: WgTunnels.Tunnel, f: HopFaults, now: int): (r: Table<WgTunnels.Tunnel>)
    requires WgTunnels.WellFormed(tbl)
    ensures WgTunnels.WellFormed(r)
  {
    match HopError(t, f)
    case Some(e) => WgTunnels.SetStatus(tbl, t.name, "error", e, None)
    case None => WgTunnels.SetStatus(tbl, t.name, "running", "", Some(now))
  }

  /** `restoreMultihopTunnels`: every enabled tunnel is attempted in turn, and a failure does not stop the rest. */
  function Restored(tbl: Table<WgTunnels.Tunnel>, ts: seq<Entry<WgTunnels.Tunnel>>, hf: string -> HopFaults, now: int): (r: Table<WgTunnels.Tunnel>)
    requires WgTunnels.WellFormed(tbl)
    ensures WgTunnels.WellFormed(r) && |r.entries| == |tbl.entries|
    decreases |ts|
  {
    if ts == [] then tbl
    else
      var t := ts[|ts| - 1].row;
      var before := Restored(tbl, ts[..|ts| - 1], hf, now);
      var r := HopOutcome(before, t, hf(t.name), now);
      r
  }

  /**
   * The tunnels whose devices the restore brings up, by name: for a name
   * attempted more than once, the last attempt that started.
   */
  function StartedTunnels(ts: seq<Entry<WgTunnels.Tunnel>>, hf: string -> HopFaults): map<string, WgTunnels.Tunnel>
    decreases |ts|
  {
    if ts == [] then map[]
    else
      var t := ts[|ts| - 1].row;
      var m := StartedTunnels(ts[..|ts| - 1], hf);
      if HopError(t, hf(t.name)).None? then m[t.name := t] else m
  }

  /** A name is started iff one of its attempts succeeded, and it maps to a tunnel of that name that started. */
  lemma {:induction false} StartedTunnelsSpec(ts: seq<Entry<WgTunnels.Tunnel>>, hf: string -> HopFaults)
    ensures var m := StartedTunnels(ts, hf);
      && (forall n :: n in m <==> exists i :: 0 <= i < |ts| && ts[i].row.name == n && HopError(ts[i].row, hf(n)).None?)
      && (forall n :: n in m ==> m[n].name == n && HopError(m[n], hf(n)).None?)
    decreases |ts|
  {
    if ts != [] {
      StartedTunnelsSpec(ts[..|ts| - 1], hf);
      assert forall i :: 0 <= i < |ts| - 1 ==> ts[..|ts| - 1][i] == ts[i];
    }
  }

  /** The restore of a prefix of `ts`, one tunnel further. */
  lemma RestoreStep(tbl: Table<WgTunnels.Tunnel>, ts: seq<Entry<WgTunnels.Tunnel>>, hf: string -> HopFaults, now: int, i: nat)
    requires WgTunnels.WellFormed(tbl) && i < |ts|
    ensures Restored(tbl, ts[..i + 1], hf, now) == HopOutcome(Restored(tbl, ts[..i], hf, now), ts[i].row, hf(ts[i].row.name), now)
    ensures StartedTunnels(ts[..i + 1], hf) ==
              var m := StartedTunnels(ts[..i], hf);
              if HopError(ts[i].row, hf(ts[i].row.name)).None? then m[ts[i].row.name := ts[i].row] else m
  {
    assert ts[..i + 1][..i] == ts[..i];
  }

  /** The database once `Start` has succeeded: the start time stored, then the enabled tunnels restored. */
  function RunningImage(img: WgDb.WgImage, now: int, hf: string -> HopFaults): (r: WgDb.WgImage)
    requires img.WellFormed()
    ensures r.WellFormed()
  {
    img.SetDeviceStartedAt(Some(now)).(tunnels := Restored(img.tunnels, WgTunnels.Enabled(img.tunnels), hf, now))
  }

  /** The status the restore gives a tunnel it attempted. */
  function RestoredStatus(t: WgTunnels.Tunnel, f: HopFaults): string
  {
    if HopError(t, f).None? then "running" else "error"
  }

  /** The rows keep their ids and configuration through the restore; only the runtime columns change. */
  lemma RestoredKeepsRows(tbl: Table<WgTunnels.Tunnel>, ts: seq<Entry<WgTunnels.Tunnel>>, hf: string -> HopFaults, now: int, j: nat)
    requires WgTunnels.WellFormed(tbl) && j < |tbl.entries|
    ensures var r := Restored(tbl, ts, hf, now);
      r.entries[j].id == tbl.entries[j].id && r.entries[j].row.name == tbl.entries[j].row.name
      && r.entries[j].row.enabled == tbl.entries[j].row.enabled
    decreases |ts|
  {
    if ts != [] {
      RestoredKeepsRows(tbl, ts[..|ts| - 1], hf, now, j);
    }
  }

  /**
   * The restore proceeds past failures: with distinct names, every tunnel
   * attempted ends with its own outcome, "running" or "error", whatever
   * happened to the others.
   */
  lemma {:induction false} RestoreContinues(tbl: Table<WgTunnels.Tunnel>, ts: seq<Entry<WgTunnels.Tunnel>>, hf: string -> HopFaults, now: int, k: nat, j: nat)
    requires WgTunnels.WellFormed(tbl)
    requires forall a, b :: 0 <= a < b < |ts| ==> ts[a].row.name != ts[b].row.name
    requires k < |ts| && j < |tbl.entries| && tbl.entries[j].row.name == ts[k].row.name
    ensures Restored(tbl, ts, hf, now).entries[j].row.status == RestoredStatus(ts[k].row, hf(ts[k].row.name))
    decreases |ts|
  {
    var n := |ts| - 1;
    var before := Restored(tbl, ts[..n], hf, now);
    RestoredKeepsRows(tbl, ts[..n], hf, now, j);
    var t := ts[n].row;
    if k < n {
      RestoreContinues(tbl, ts[..n], hf, now, k, j);
      assert before.entries[j].row.name != t.name;
    }
  }

  /**
   * `StartMultihopTunnel`'s writes: the outcome of the attempt and, when
   * the device came up, the tunnel enabled so that it is restored on the
   * next start.
   */
  function Launched(tbl: Table<WgTunnels.Tunnel>, t: WgTunnels.Tunnel, f: HopFaults, now: int): (r: Table<WgTunnels.Tunnel>)
    requires WgTunnels.WellFormed(tbl)
    ensures WgTunnels.WellFormed(r) && |r.entries| == |tbl.entries|
  {
    var s := HopOutcome(tbl, t, f, now);
    if HopError(t, f).Some? then s
    else match WgTunnels.SetEnabled(s, t.name, true)
      case Ok(u) => u
      case Err(_) => s
  }

  /**
   * The started tunnel's row: running, without error, stamped with the
   * time and enabled; or, when its device failed, in error with the
   * message, no start time and the flag as it was. Its id and
   * configuration stay.
   */
  lemma LaunchedRow(tbl: Table<WgTunnels.Tunnel>, t: WgTunnels.Tunnel, f: HopFaults, now: int, j: nat)
    requires WgTunnels.WellFormed(tbl) && j < |tbl.entries| && tbl.entries[j].row.name == t.name
    ensures var before := tbl.entries[j];
            var after := Launched(tbl, t, f, now).entries[j];
            && after.id == before.id
            && after.row.(status := before.row.status, errorMsg := before.row.errorMsg,
                          startedAt := before.row.startedAt, enabled := before.row.enabled) == before.row
            && (HopError(t, f).None? ==>
                  after.row.status == "running" && after.row.errorMsg == "" && after.row.startedAt == Some(now) && after.row.enabled)
            && (HopError(t, f).Some? ==>
                  after.row.status == "error" && after.row.errorMsg == HopError(t, f).value && after.row.startedAt == None
                  && after.row.enabled == before.row.enabled)
  {
    var s := HopOutcome(tbl, t, f, now);
    assert WgTunnels.Get(s, t.name).Ok? by {
      assert s.entries[j].row.name == t.name;
    }
  }

  /**
   * `StopMultihopTunnel` and `DisableMultihopTunnel`'s writes: the tunnel
   * stopped with no error and no start time and, for `disable`, its flag
   * cleared.
   */
  function Halted(tbl: Table<WgTunnels.Tunnel>, name: string, disable: bool): (r: Table<WgTunnels.Tunnel>)
    requires WgTunnels.WellFormed(tbl)
    ensures WgTunnels.WellFormed(r) && |r.entries| == |tbl.entries|
  {
    var s := WgTunnels.SetStatus(tbl, name, "stopped", "", None);
    if !disable then s
    else match WgTunnels.SetEnabled(s, name, false)
      case Ok(u) => u
      case Err(_) => s
  }

  /**
   * A stopped tunnel keeps its flag, so it is restored on the next start;
   * a disabled one loses it and is not. Every other row is untouched.
   */
  lemma HaltedRow(tbl: Table<WgTunnels.Tunnel>, name: string, disable: bool, j: nat)
    requires WgTunnels.WellFormed(tbl) && j < |tbl.entries|
    ensures var before := tbl.entries[j];
            var after := Halted(tbl, name, disable).entries[j];
            && (before.row.name != name ==> after == before)
            && (before.row.name == name ==>
                  && after.id == before.id && after.row.status == "stopped" && after.row.errorMsg == "" && after.row.startedAt == None
                  && after.row.enabled == (before.row.enabled && !disable)
                  && after.row.(status := before.row.status, errorMsg := before.row.errorMsg,
                                startedAt := before.row.startedAt, enabled := before.row.enabled) == before.row)
  {
    var s := WgTunnels.SetStatus(tbl, name, "stopped", "", None);
    if tbl.entries[j].row.name == name {
      assert s.entries[j].row.name == name;
    }
  }

  // ---------------------------------------------------------------------
  // AddClient
  // ---------------------------------------------------------------------

  /** The keys of a new client: private, public and preshared, or the step that failed. */
  function ClientKeys(random: WgKeys.Entropy, x25519: seq<Byte> -> Result<seq<Byte>, string>, pskRandom: WgKeys.Entropy): (r: Result<(string, string, string), string>)
    requires WgKeys.WellFormedEntropy(random) && WgKeys.WellFormedEntropy(pskRandom)
  {
    match KeyPair(random, x25519)
    case Err(e) => Err(e)
    case Ok((priv, pub)) =>
      match WgKeys.GeneratePresharedKey(pskRandom)
      case Err(e) => Err("psk: " + e)
      case Ok(psk) => Ok((priv, pub, psk))
  }

  /** The record `AddClient` inserts: "pending" stands in for an address still to be allocated. */
  function NewClient(priv: string, pub: string, psk: string, allowedIP: string): WgDb.Client
  {
    WgDb.Client(pub, psk, priv, if allowedIP == "" then "pending" else allowedIP, "", 25, false, 0, None, "", None, 0, 0)
  }

  /** A write whose error is ignored: its result, or the unchanged database. */
  function Keep(r: Result<WgDb.WgImage, string>, img: WgDb.WgImage): WgDb.WgImage
  {
    if r.Ok? then r.value else img
  }

  /** The rollback of a client: deleted again, addresses released. */
  function Rollback(img: WgDb.WgImage, pub: string): (r: WgDb.WgImage)
    requires img.WellFormed()
    ensures r.WellFormed() && r.GetClient(pub).Err?
  {
    Keep(img.DeleteClient(pub), img)
  }

  /** The IPv6 step: an address is allocated only when the server has an IPv6 network; failures are ignored. */
  function AddV6(img: WgDb.WgImage, e: Entry<WgDb.Client>): (r: (WgDb.WgImage, Entry<WgDb.Client>))
    requires img.WellFormed()
    ensures r.0.WellFormed() && r.1.id == e.id
    ensures r.1.row == e.row || r.1.row == e.row.(allowedIpV6 := r.1.row.allowedIpV6)
  {
    match img.GetServerConfig(1)
    case Err(_) => (img, e)
    case Ok(cfg) =>
      if !cfg.HasIPv6() then (img, e)
      else match img.AllocateIP(e.id, 6)
        case Err(_) => (img, e)
        case Ok((img1, ip6)) => (Keep(img1.SetAllowedIpV6(e.id, ip6), img1), Entry(e.id, e.row.(allowedIpV6 := ip6)))
  }

  /**
   * The database part of `AddClient`: insert; when no address was given
   * (`allocate`), allocate an IPv4 address, deleting the client again when
   * the pool is exhausted; then the IPv6 step. The result is the database
   * and the record returned, or the error.
   */
  function Enroll(img: WgDb.WgImage, rec: WgDb.Client, allocate: bool, now: int): (r: (WgDb.WgImage, Result<Entry<WgDb.Client>, string>))
    requires img.WellFormed()
    ensures r.0.WellFormed()
  {
    match img.InsertClient(rec, now)
    case Err(e) => (img, Err("db insert: " + e))
    case Ok((img1, e1)) =>
      if !allocate then
        var (img3, e3) := AddV6(img1, e1);
        (img3, Ok(e3))
      else
        match img1.AllocateIP(e1.id, 4)
        case Err(e) => (Rollback(img1, rec.publicKey), Err("ip alloc v4: " + e))
        case Ok((img2, ip)) =>
          var (img3, e3) := AddV6(Keep(img2.SetAllowedIp(e1.id, ip), img2), Entry(e1.id, e1.row.(allowedIp := ip)));
          (img3, Ok(e3))
  }

  /**
   * A client whose key or address is already taken is refused with the
   * UNIQUE error and nothing is written; one that is accepted gets a fresh
   * id, is enabled and stamped, and keeps the keys it was given.
   */
  lemma EnrollOutcome(img: WgDb.WgImage, rec: WgDb.Client, allocate: bool, now: int)
    requires img.WellFormed()
    ensures WgDb.InsertConflict(img.peers.entries, rec).Some? ==>
              Enroll(img, rec, allocate, now) == (img, Err("db insert: " + WgDb.InsertConflict(img.peers.entries, rec).value))
    ensures Enroll(img, rec, allocate, now).1.Ok? ==>
              var e := Enroll(img, rec, allocate, now).1.value;
              && e.id == img.peers.lastId + 1 && e.id !in img.peers.Ids()
              && e.row.publicKey == rec.publicKey && e.row.presharedKey == rec.presharedKey && e.row.privateKey == rec.privateKey
              && e.row.enabled && e.row.createdAt == now && e.row.keepalive == rec.keepalive
              && (!allocate ==> e.row.allowedIp == rec.allowedIp)
  {
  }

  /**
   * With no address given, the client receives the lowest free IPv4
   * address of the pool as a /32; an exhausted pool is the error, and the
   * client is deleted again.
   */
  lemma EnrollAllocates(img: WgDb.WgImage, rec: WgDb.Client, now: int)
    requires img.WellFormed() && WgDb.InsertConflict(img.peers.entries, rec).None?
    ensures WgDb.FirstFree(img.pool, 4).None? ==>
              Enroll(img, rec, true, now).1 == Err("ip alloc v4: " + WgDb.ExhaustedError(4))
              && Enroll(img, rec, true, now).0.GetClient(rec.publicKey).Err?
    ensures WgDb.FirstFree(img.pool, 4).Some? ==>
              Enroll(img, rec, true, now).1.Ok?
              && Enroll(img, rec, true, now).1.value.row.allowedIp == img.pool[WgDb.FirstFree(img.pool, 4).value].ip + "/32"
  {
    var (img1, e1) := img.InsertClient(rec, now).value;
    assert img1.pool == img.pool;
    assert e1.id in img1.peers.Ids();
  }

  /**
   * `AddClient` on a running bridge once the keys exist: the database
   * afterwards, the calls the device receives and the result. The device is
   * given the peer with the addresses the client received and the
   * keepalive 25; when it refuses, the client is deleted again.
   */
  function AddedClient(img: WgDb.WgImage, priv: string, pub: string, psk: string, allowedIP: string, now: int, outcome: Option<string>)
    : (r: (WgDb.WgImage, seq<WgDevice.Call>, Result<Entry<WgDb.Client>, string>))
    requires img.WellFormed()
    ensures r.0.WellFormed()
  {
    var (img1, res) := Enroll(img, NewClient(priv, pub, psk, allowedIP), allowedIP == "", now);
    match res
    case Err(e) => (img1, [], Err(e))
    case Ok(e) =>
      var call := WgDevice.SetCall(PeerConfig(pub, psk, e.row.allowedIp, e.row.allowedIpV6, 25));
      if outcome.Some? then (Rollback(img1, pub), [call], Err("ipc set peer: " + outcome.value))
      else (img1, [call], Ok(e))
  }

  /**
   * `AddClient` is all or nothing: a refused insert writes nothing and
   * touches no device; any later failure leaves no client under the new
   * key; a success hands the device exactly the new client's key and
   * addresses.
   */
  lemma AddedClientAtomic(img: WgDb.WgImage, priv: string, pub: string, psk: string, allowedIP: string, now: int, outcome: Option<string>)
    requires img.WellFormed()
    ensures var (after, calls, r) := AddedClient(img, priv, pub, psk, allowedIP, now, outcome);
            var conflict := WgDb.InsertConflict(img.peers.entries, NewClient(priv, pub, psk, allowedIP));
            && (conflict.Some? ==> after == img && calls == [] && r == Err("db insert: " + conflict.value))
            && (conflict.None? && r.Err? ==> after.GetClient(pub).Err?)
            && (r.Ok? ==> r.value.row.publicKey == pub && r.value.row.presharedKey == psk && r.value.row.enabled
                          && calls == [WgDevice.SetCall(PeerConfig(pub, psk, r.value.row.allowedIp, r.value.row.allowedIpV6, 25))])
  {
    EnrollOutcome(img, NewClient(priv, pub, psk, allowedIP), allowedIP == "", now);
  }

  // ---------------------------------------------------------------------
  // Status reports
  // ---------------------------------------------------------------------

  /** `StatusInfo`. */
  datatype StatusInfo = StatusInfo(
    status: Status,
    error: string,
    hasDevice: bool,
    hasConfig: bool,
    peerCount: int,
    multihopCount: int)

  /** `DeviceInfo`. */
  datatype DeviceInfo = DeviceInfo(
    name: string,
    publicKey: string,
    listenPort: int,
    peerCount: int,
    startedAt: Option<int>)

  /** `GetDeviceInfo`: the device record with the number of clients, or the read error. */
  function DeviceInfoFrom(img: WgDb.WgImage): (r: Result<DeviceInfo, string>)
    requires img.WellFormed()
    ensures r.Err? <==> img.device.None?
    ensures r.Ok? ==>
              && r.value.peerCount == |img.peers.entries| && r.value.name == img.device.value.name
              && r.value.publicKey == img.device.value.publicKey && r.value.listenPort == img.device.value.listenPort
              && r.value.startedAt == img.device.value.startedAt
  {
    match img.GetDevice()
    case Err(e) => Err(e)
    case Ok(rec) => Ok(DeviceInfo(rec.name, rec.publicKey, rec.listenPort, img.ListClients(1, 1).total, rec.startedAt))
  }

  /** The database part of `GetStatus`: with no open database, nothing is present and every count is 0. */
  function StatusFrom(s: Status, lastError: string, img: Option<WgDb.WgImage>): (r: StatusInfo)
    ensures r.status == s && r.error == lastError
    ensures img.None? ==> !r.hasDevice && !r.hasConfig && r.peerCount == 0 && r.multihopCount == 0
    ensures img.Some? ==> (r.hasDevice <==> img.value.device.Some?) && (r.hasConfig <==> img.value.GetServerConfig(1).Ok?)
    ensures img.Some? ==> r.peerCount == |img.value.peers.entries| && r.multihopCount == |img.value.tunnels.entries|
  {
    match img
    case None => StatusInfo(s, lastError, false, false, 0, 0)
    case Some(i) => StatusInfo(s, lastError, i.device.Some?, i.GetServerConfig(1).Ok?, |i.peers.entries|, |i.tunnels.entries|)
  }

  // ---------------------------------------------------------------------
  // Guards, as written and as intended
  // ---------------------------------------------------------------------

  /** The queries and the configuration calls go ahead on any status but uninitialized. */
  predicate ProceedsAsWritten(s: Status)
  {
    s != Uninitialized
  }

  /**
   * The guard a query needs: a status other than uninitialized AND a
   * database handle. The first error is the one the caller sees.
   */
  function DbGuard(s: Status, hasDb: bool, dbOpen: bool): (r: Option<string>)
    ensures r.None? ==> ProceedsAsWritten(s) && hasDb && dbOpen
    ensures !ProceedsAsWritten(s) ==> r == Some(NOT_INITIALIZED)
  {
    if s == Uninitialized || !hasDb then Some(NOT_INITIALIZED)
    else if !dbOpen then Some(DB_CLOSED)
    else None
  }

  /**
   * `Init` whose database fails to open leaves the status error without a
   * database: the as-written guard lets every query through to a nil
   * handle, while DbGuard refuses.
   */
  lemma FailedOpenPassesGuard()
    ensures ProceedsAsWritten(Error)
    ensures DbGuard(Error, false, false) == Some(NOT_INITIALIZED)
  {
  }

  /** `SetServerConfig` as written hands a non-zero fwmark to the device on any initialised status. */
  predicate PushesFwmarkAsWritten(s: Status, fwmark: int)
  {
    ProceedsAsWritten(s) && fwmark != 0
  }

  /** As intended: only a running bridge has a device to update. */
  predicate PushesFwmark(s: Status, fwmark: int)
  {
    s == Running && fwmark != 0
  }

  /** With the status ready (no device) and fwmark 1 the as-written code reaches the device; the corrected one does not. */
  lemma FwmarkWithoutDevice()
    ensures PushesFwmarkAsWritten(Ready, 1) && !PushesFwmark(Ready, 1)
    ensures forall s, m :: PushesFwmark(s, m) ==> s == Running && PushesFwmarkAsWritten(s, m)
  {
  }

  /** The stats tick as written always asks the device for its dump. */
  predicate TickAsksDeviceAsWritten(statsRunning: bool, hasDevice: bool)
  {
    statsRunning
  }

  /** As intended: the tick asks only a device that exists. */
  predicate TickAsksDevice(statsRunning: bool, hasDevice: bool)
  {
    statsRunning && hasDevice
  }

  /** After `Stop` with the sync running, the as-written tick reaches the missing device; the corrected one skips. */
  lemma TickAfterStop()
    ensures TickAsksDeviceAsWritten(true, false) && !TickAsksDevice(true, false)
    ensures forall r, h :: TickAsksDevice(r, h) ==> h && TickAsksDeviceAsWritten(r, h)
  {
  }
}
