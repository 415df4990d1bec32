/**
 * The bridge state (src/bridge/state.go): one WireGuard bridge with its
 * database, its main device, the stats sync and the multihop devices, and
 * the operations the host process calls on it.
 *
 * The environment (the database file, randomness, the TUN driver, the
 * device's answers, the clock) arrives as parameters. A reference that Go
 * leaves nil is a `null` here; the guards are the corrected ones recorded
 * under Findings in the README.
 */
module WgBridge {
  import opened Wrappers
  import opened Tables
  import opened WgBridgePlan
  import opened WgBridgeText
  import Machine
  import WgDb
  import WgServer
  import WgTunnels
  import WgKeys
  import WgDevice
  import WgPool
  import WgStats

  /** `GeneratePrivateKey` then `DerivePublicKey`, each error prefixed with its step. */
  method GenerateKeyPair(random: WgKeys.Entropy, x25519: seq<Machine.Byte> -> Result<seq<Machine.Byte>, string>)
    returns (r: Result<(string, string), string>)
    requires WgKeys.WellFormedEntropy(random)
    ensures r == KeyPair(random, x25519)
  {
    var priv := WgKeys.GeneratePrivateKey(random);
    if priv.Err? {
      assert "keygen: " + priv.error == "keygen: random read: " + random.error;
      return Err("keygen: " + priv.error);
    }
    var pub := WgKeys.DerivePublicKey(priv.value, x25519);
    if pub.Err? {
      return Err("derive pub: " + pub.error);
    }
    return Ok((priv.value, pub.value));
  }

  /** A client's key pair and then its preshared key. */
  method GenerateClientKeys(random: WgKeys.Entropy, x25519: seq<Machine.Byte> -> Result<seq<Machine.Byte>, string>, pskRandom: WgKeys.Entropy)
    returns (r: Result<(string, string, string), string>)
    requires WgKeys.WellFormedEntropy(random) && WgKeys.WellFormedEntropy(pskRandom)
    ensures r == ClientKeys(random, x25519, pskRandom)
  {
    var kp := GenerateKeyPair(random, x25519);
    if kp.Err? {
      return Err(kp.error);
    }
    var psk := WgKeys.GeneratePresharedKey(pskRandom);
    if psk.Err? {
      return Err("psk: " + psk.error);
    }
    return Ok((kp.value.0, kp.value.1, psk.value));
  }

  /**
   * The device steps of `Start`: a device is created, configured with
   * `config` and brought up; a device that fails a step is closed again.
   */
  method LaunchDevice(config: string, f: LaunchFaults) returns (r: Result<WgDevice.Device, (string, string)>)
    ensures r.Err? <==> LaunchError(f).Some?
    ensures r.Err? ==> r.error == LaunchError(f).value
    ensures r.Ok? ==> fresh(r.value) && r.value.calls == [WgDevice.SetCall(config), WgDevice.UpCall]
  {
    if f.tunError.Some? {
      return Err(("tun create: " + f.tunError.value, "tun: " + f.tunError.value));
    }
    if !f.created {
      return Err(("device create failed", "device create failed"));
    }
    var d := new WgDevice.Device();
    var e := d.IpcSet(config, f.configError);
    if e.Some? {
      d.Close();
      return Err(("ipc set: " + e.value, "ipc set: " + e.value));
    }
    e := d.Up(f.upError);
    if e.Some? {
      d.Close();
      return Err(("device up: " + e.value, "device up: " + e.value));
    }
    return Ok(d);
  }

  /**
   * `startMultihopDevice` up to the registry: a device is created, given
   * the tunnel's configuration and its one peer, and brought up; a device
   * that fails a step is closed again.
   */
  method StartHopDevice(t: WgTunnels.Tunnel, f: HopFaults) returns (r: Result<WgDevice.Device, string>)
    ensures r.Err? <==> HopError(t, f).Some?
    ensures r.Err? ==> r.error == HopError(t, f).value
    ensures r.Ok? ==> fresh(r.value) && r.value.calls == HopCalls(t)
  {
    var l := f.launch;
    var iface := t.interfaceName;
    if l.tunError.Some? {
      return Err("tun " + iface + ": " + l.tunError.value);
    }
    if !l.created {
      return Err("device create " + iface);
    }
    var d := new WgDevice.Device();
    var e := d.IpcSet(HopDeviceConfig(t), l.configError);
    if e.Some? {
      d.Close();
      return Err("ipc set device " + iface + ": " + e.value);
    }
    e := d.IpcSet(HopPeerConfig(t), f.peerError);
    if e.Some? {
      d.Close();
      return Err("ipc set peer " + iface + ": " + e.value);
    }
    e := d.Up(l.upError);
    if e.Some? {
      d.Close();
      return Err("device up " + iface + ": " + e.value);
    }
    return Ok(d);
  }

  /** No device is registered under two names. */
  predicate Distinct(devices: map<string, WgDevice.Device>)
  {
    forall a, b :: a in devices && b in devices && a != b ==> devices[a] != devices[b]
  }

  /**
   * `restoreMultihopTunnels`: each tunnel of `ts` is started in turn and
   * its status written, "running" with the time or "error" with the
   * message; a failure does not stop the rest. The devices brought up are
   * returned by name, for the registry.
   */
  method RestoreHops(db: WgDb.BridgeDB, ts: seq<Entry<WgTunnels.Tunnel>>, hf: string -> HopFaults, now: int)
    returns (started: map<string, WgDevice.Device>)
    requires db.Valid()
    modifies db
    ensures db.Valid()
    ensures db.Image() == old(db.Image()).(tunnels := Restored(old(db.Image()).tunnels, ts, hf, now))
    ensures started.Keys == StartedTunnels(ts, hf).Keys
    ensures forall n :: n in started ==> fresh(started[n]) && started[n].calls == HopCalls(StartedTunnels(ts, hf)[n])
    ensures Distinct(started)
  {
    ghost var img := db.Image();
    started := map[];
    for i := 0 to |ts|
      invariant Restoring(db, img, ts, i, hf, now, started)
      invariant forall n :: n in started ==> fresh(started[n])
    {
      started := RestoreNext(db, img, ts, i, hf, now, started);
    }
    assert ts[..|ts|] == ts;
  }

  /** The state of the restore after the first `i` tunnels of `ts`. */
  ghost predicate Restoring(db: WgDb.BridgeDB, img: WgDb.WgImage, ts: seq<Entry<WgTunnels.Tunnel>>, i: nat, hf: string -> HopFaults, now: int,
                            started: map<string, WgDevice.Device>)
    reads db, started.Values
  {
    && i <= |ts|
    && img.WellFormed()
    && db.Valid()
    && db.Image() == img.(tunnels := Restored(img.tunnels, ts[..i], hf, now))
    && started.Keys == StartedTunnels(ts[..i], hf).Keys
    && Distinct(started)
    && (forall n :: n in started ==> started[n].calls == HopCalls(StartedTunnels(ts[..i], hf)[n]))
  }

  /** The restore after tunnel `i`: the state of the restore moves on by one tunnel. */
  method RestoreNext(db: WgDb.BridgeDB, ghost img: WgDb.WgImage, ts: seq<Entry<WgTunnels.Tunnel>>, i: nat, hf: string -> HopFaults, now: int,
                     started: map<string, WgDevice.Device>)
    returns (started': map<string, WgDevice.Device>)
    requires i < |ts| && Restoring(db, img, ts, i, hf, now, started)
    modifies db
    ensures Restoring(db, img, ts, i + 1, hf, now, started')
    ensures forall n :: n in started' ==> (n in started && started'[n] == started[n]) || fresh(started'[n])
  {
    RestoreStep(img.tunnels, ts, hf, now, i);
    ghost var m := StartedTunnels(ts[..i], hf);
    started', m := RestoreHop(db, ts[i].row, hf, now, started, m);
  }

  /** One tunnel of the restore: its device started and added to `started`, the outcome written to its row. */
  method RestoreHop(db: WgDb.BridgeDB, t: WgTunnels.Tunnel, hf: string -> HopFaults, now: int,
                    started: map<string, WgDevice.Device>, ghost m: map<string, WgTunnels.Tunnel>)
    returns (started': map<string, WgDevice.Device>, ghost m': map<string, WgTunnels.Tunnel>)
    requires db.Valid()
    requires started.Keys == m.Keys && Distinct(started)
    requires forall n :: n in started ==> started[n].calls == HopCalls(m[n])
    modifies db
    ensures db.Valid()
    ensures db.Image() == old(db.Image()).(tunnels := HopOutcome(old(db.Image()).tunnels, t, hf(t.name), now))
    ensures m' == if HopError(t, hf(t.name)).None? then m[t.name := t] else m
    ensures started'.Keys == m'.Keys && Distinct(started')
    ensures forall n :: n in started' ==> started'[n].calls == HopCalls(m'[n])
    ensures forall n :: n in started' ==> (n in started && started'[n] == started[n]) || fresh(started'[n])
  {
    var r := StartHopDevice(t, hf(t.name));
    if r.Err? {
      started', m' := started, m;
    } else {
      started', m' := started[t.name := r.value], m[t.name := t];
      Enlisted(started, m, t, r.value);
    }
    RecordHop(db, t, r, hf(t.name), now);
  }

  /** A device configured for `t` and not yet listed keeps `started` distinct and in step with `m` once listed under its name. */
  lemma Enlisted(started: map<string, WgDevice.Device>, m: map<string, WgTunnels.Tunnel>, t: WgTunnels.Tunnel, d: WgDevice.Device)
    requires started.Keys == m.Keys && Distinct(started)
    requires forall n :: n in started ==> started[n].calls == HopCalls(m[n])
    requires d !in started.Values && d.calls == HopCalls(t)
    ensures var s, k := started[t.name := d], m[t.name := t];
            && s.Keys == k.Keys && Distinct(s)
            && (forall n :: n in s ==> s[n].calls == HopCalls(k[n]))
  {
  }

  /** The runtime columns of a start attempt: "error" with the message, or "running" with the time. */
  method RecordHop(db: WgDb.BridgeDB, t: WgTunnels.Tunnel, r: Result<WgDevice.Device, string>, ghost f: HopFaults, now: int)
    requires db.Valid()
    requires r.Err? <==> HopError(t, f).Some?
    requires r.Err? ==> r.error == HopError(t, f).value
    modifies db
    ensures db.Valid()
    ensures db.Image() == old(db.Image()).(tunnels := HopOutcome(old(db.Image()).tunnels, t, f, now))
  {
    if r.Err? {
      db.SetTunnelStatus(t.name, "error", r.error, None);
    } else {
      db.SetTunnelStatus(t.name, "running", "", Some(now));
    }
  }

  /** `addPeerToDevice`: the client's peer configuration goes to the device; its error is ignored. */
  method AddPeerToDevice(d: WgDevice.Device, c: WgDb.Client)
    modifies d
    ensures d.calls == old(d.calls) + [WgDevice.SetCall(ClientPeerConfig(c))]
  {
    var _ := d.IpcSet(ClientPeerConfig(c), None);
  }

  /** Every client of `cs` added to the device, in order. */
  method AddPeers(d: WgDevice.Device, cs: seq<Entry<WgDb.Client>>)
    modifies d
    ensures d.calls == old(d.calls) + PeerCalls(cs)
  {
    for i := 0 to |cs|
      invariant d.calls == old(d.calls) + PeerCalls(cs[..i])
    {
      assert cs[..i + 1][..i] == cs[..i];
      assert PeerCalls(cs[..i + 1]) == PeerCalls(cs[..i]) + [WgDevice.SetCall(ClientPeerConfig(cs[i].row))];
      AddPeerToDevice(d, cs[i].row);
    }
    assert cs[..|cs|] == cs;
  }

  /**
   * The database and device steps of `Start` once its device is up: the
   * start time is stored, the enabled clients are added to the device and
   * the enabled tunnels restored.
   */
  method Bring(db: WgDb.BridgeDB, d: WgDevice.Device, now: int, hf: string -> HopFaults)
    returns (started: map<string, WgDevice.Device>)
    requires db.Valid()
    modifies db, d
    ensures db.Valid()
    ensures d.calls == old(d.calls) + PeerCalls(old(db.Image()).EnabledClients())
    ensures db.Image() == RunningImage(old(db.Image()), now, hf)
    ensures var ts := WgTunnels.Enabled(old(db.Image()).tunnels);
            && started.Keys == StartedTunnels(ts, hf).Keys
            && (forall n :: n in started ==> fresh(started[n]) && started[n].calls == HopCalls(StartedTunnels(ts, hf)[n]))
            && Distinct(started)
  {
    var img := db.Image();
    db.SetDeviceStartedAt(Some(now));
    AddPeers(d, img.EnabledClients());
    started := RestoreHops(db, WgTunnels.Enabled(img.tunnels), hf, now);
  }

  /** The IPv6 step of `AddClient`: an address only when the server has an IPv6 network; failures are ignored. */
  method AddV6Db(db: WgDb.BridgeDB, e: Entry<WgDb.Client>) returns (e': Entry<WgDb.Client>)
    requires db.Valid()
    modifies db
    ensures db.Valid() && (db.Image(), e') == AddV6(old(db.Image()), e)
  {
    var cfg := db.Image().GetServerConfig(1);
    if cfg.Err? || !cfg.value.HasIPv6() {
      return e;
    }
    var ip6 := db.AllocateIP(e.id, 6);
    if ip6.Err? {
      return e;
    }
    var _ := db.SetAllowedIpV6(e.id, ip6.value);
    return Entry(e.id, e.row.(allowedIpV6 := ip6.value));
  }

  /** The database steps of `AddClient`, call by call: insert, the IPv4 address when none was given, the IPv6 step. */
  method EnrollDb(db: WgDb.BridgeDB, rec: WgDb.Client, allocate: bool, now: int) returns (r: Result<Entry<WgDb.Client>, string>)
    requires db.Valid()
    modifies db
    ensures db.Valid() && (db.Image(), r) == Enroll(old(db.Image()), rec, allocate, now)
  {
    var ins := db.InsertClient(rec, now);
    if ins.Err? {
      return Err("db insert: " + ins.error);
    }
    var e := ins.value;
    if allocate {
      var ip := db.AllocateIP(e.id, 4);
      if ip.Err? {
        var _ := db.DeleteClient(rec.publicKey);
        return Err("ip alloc v4: " + ip.error);
      }
      var _ := db.SetAllowedIp(e.id, ip.value);
      e := Entry(e.id, e.row.(allowedIp := ip.value));
    }
    e := AddV6Db(db, e);
    return Ok(e);
  }

  /**
   * `AddClient` once the keys exist: the client is written, then handed to
   * the device; a device that refuses it has the client deleted again.
   */
  method EnrollPeer(db: WgDb.BridgeDB, d: WgDevice.Device, priv: string, pub: string, psk: string, allowedIP: string,
                    now: int, outcome: Option<string>)
    returns (r: Result<Entry<WgDb.Client>, string>)
    requires db.Valid()
    modifies db, d
    ensures db.Valid()
    ensures var added := AddedClient(old(db.Image()), priv, pub, psk, allowedIP, now, outcome);
            db.Image() == added.0 && d.calls == old(d.calls) + added.1 && r == added.2
  {
    var res := EnrollDb(db, NewClient(priv, pub, psk, allowedIP), allowedIP == "", now);
    if res.Err? {
      return res;
    }
    var e := res.value;
    var err := d.IpcSet(PeerConfig(pub, psk, e.row.allowedIp, e.row.allowedIpV6, 25), outcome);
    if err.Some? {
      var _ := db.DeleteClient(pub);
      return Err("ipc set peer: " + err.value);
    }
    return res;
  }

  /** `StartMultihopTunnel`'s writes after the attempt: the outcome and, on success, the flag set. */
  method LaunchDb(db: WgDb.BridgeDB, t: WgTunnels.Tunnel, f: HopFaults, now: int)
    requires db.Valid()
    modifies db
    ensures db.Valid() && db.Image() == old(db.Image()).(tunnels := Launched(old(db.Image()).tunnels, t, f, now))
  {
    var e := HopError(t, f);
    if e.Some? {
      db.SetTunnelStatus(t.name, "error", e.value, None);
      return;
    }
    db.SetTunnelStatus(t.name, "running", "", Some(now));
    var _ := db.SetTunnelEnabled(t.name, true);
  }

  /** `StopMultihopTunnel`'s and `DisableMultihopTunnel`'s writes. */
  method HaltDb(db: WgDb.BridgeDB, name: string, disable: bool)
    requires db.Valid()
    modifies db
    ensures db.Valid() && db.Image() == old(db.Image()).(tunnels := Halted(old(db.Image()).tunnels, name, disable))
  {
    db.SetTunnelStatus(name, "stopped", "", None);
    if disable {
      var _ := db.SetTunnelEnabled(name, false);
    }
  }

  /** Every field of a `State`, so that a method can say which ones it leaves alone. */
  datatype Snapshot = Snapshot(
    status: Status,
    lastError: string,
    db: WgDb.BridgeDB?,
    dbOpen: bool,
    dev: WgDevice.Device?,
    statsRunning: bool,
    ifname: string,
    hops: map<string, WgDevice.Device>)

  class State {
    var status: Status
    /** The last failure, as `GetStatus` reports it. */
    var lastError: string
    /** The database handle; a failed `Init` may leave a closed one behind. */
    var db: WgDb.BridgeDB?
    var dbOpen: bool
    /** The main WireGuard device, present exactly while running. */
    var dev: WgDevice.Device?
    var statsRunning: bool
    var ifname: string
    /** The multihop registry: the live device of each started tunnel, by name. */
    var hops: map<string, WgDevice.Device>

    function Fields(): Snapshot
      reads this
    {
      Snapshot(status, lastError, db, dbOpen, dev, statsRunning, ifname, hops)
    }

    ghost predicate Valid()
      reads this, db
    {
      DbValid() && Lifecycle() && Registry()
    }

    ghost predicate DbValid()
      reads this, db
    {
      db != null ==> db.Valid()
    }

    /** What each status implies: an open database from needs_setup on, a device exactly while running. */
    predicate Lifecycle()
      reads this
    {
      && (db == null ==> !dbOpen)
      && (status == NeedsSetup || status == Ready || status == Running ==> db != null && dbOpen)
      && (status == Uninitialized ==> lastError == "" && hops == map[] && !statsRunning && !dbOpen)
      && (dev != null <==> status == Running)
    }

    /** Every registered multihop device is its own object, distinct from the main device. */
    predicate Registry()
      reads this
    {
      && (dev != null ==> dev !in hops.Values)
      && Distinct(hops)
    }

    /** `New`: an uninitialised bridge. */
    constructor ()
      ensures Valid()
      ensures Fields() == Snapshot(Uninitialized, "", null, false, null, false, "", map[])
    {
      status := Uninitialized;
      lastError := "";
      db := null;
      dbOpen := false;
      dev := null;
      statsRunning := false;
      ifname := "";
      hops := map[];
    }

    /** Closes every registered multihop device once; the registry itself is emptied by the caller. */
    method CloseHops()
      requires Registry()
      modifies hops.Values
      ensures forall n :: n in hops ==> hops[n].calls == old(hops[n].calls) + [WgDevice.CloseCall]
      ensures dev != null ==> dev.calls == old(dev.calls)
    {
      var names := hops.Keys;
      while names != {}
        invariant names <= hops.Keys
        invariant forall n :: n in hops ==>
                    hops[n].calls == old(hops[n].calls) + (if n in names then [] else [WgDevice.CloseCall])
        invariant dev != null ==> dev.calls == old(dev.calls)
        decreases names
      {
        var n :| n in names;
        hops[n].Close();
        names := names - {n};
      }
    }

    /** The runtime state cleared and the start time removed, in an open database; a closed one refuses the writes. */
    method QuiesceDb()
      requires DbValid()
      modifies db
      ensures DbValid()
      ensures db != null && dbOpen ==> db.Image() == Quiesced(old(db.Image()))
      ensures db != null && !dbOpen ==> db.Image() == old(db.Image())
    {
      if db != null && dbOpen {
        ClearDb();
        db.SetDeviceStartedAt(None);
      }
    }

    /** The peers' and the tunnels' runtime state cleared in the database. */
    method ClearDb()
      requires DbValid() && db != null
      modifies db
      ensures DbValid() && db.Image() == RuntimeCleared(old(db.Image()))
    {
      db.ClearRuntimeState();
      db.ClearTunnelRuntime();
    }

    /**
     * `closeInternal`: the stats sync stops, the multihop devices close, the
     * database's runtime state is cleared, the device and the database
     * close, and the bridge is uninitialised again.
     */
    method CloseInternal()
      requires Valid()
      modifies this, db, dev, hops.Values
      ensures Valid()
      ensures Fields() == Snapshot(Uninitialized, "", null, false, null, false, old(ifname), map[])
      ensures old(db) != null && old(dbOpen) ==> old(db).Valid() && old(db).Image() == Quiesced(old(db.Image()))
      ensures old(db) != null && !old(dbOpen) ==> old(db).Image() == old(db.Image())
      ensures old(dev) != null ==> old(dev).calls == old(dev.calls) + [WgDevice.CloseCall]
      ensures forall n :: n in old(hops) ==> old(hops)[n].calls == old(hops[n].calls) + [WgDevice.CloseCall]
    {
      QuiesceDb();
      Release();
    }

    /** The part of `closeInternal` after the database writes: every device closed, every field reset. */
    method Release()
      requires Lifecycle() && Registry()
      modifies this, dev, hops.Values
      ensures Fields() == Snapshot(Uninitialized, "", null, false, null, false, old(ifname), map[])
      ensures old(dev) != null ==> old(dev).calls == old(dev.calls) + [WgDevice.CloseCall]
      ensures forall n :: n in old(hops) ==> old(hops)[n].calls == old(hops[n].calls) + [WgDevice.CloseCall]
    {
      CloseHops();
      if dev != null {
        dev.Close();
      }
      statsRunning := false;
      hops := map[];
      dev := null;
      db := null;
      dbOpen := false;
      status := Uninitialized;
      lastError := "";
    }

    /** `Close`: refused when uninitialised, otherwise `closeInternal`. */
    method Close() returns (err: Option<string>)
      requires Valid()
      modifies this, db, dev, hops.Values
      ensures Valid()
      ensures old(status) == Uninitialized ==>
                err == Some(NOT_INITIALIZED) && Fields() == old(Fields()) && (db != null ==> db.Image() == old(db.Image()))
      ensures old(status) != Uninitialized ==>
                err.None? && Fields() == Snapshot(Uninitialized, "", null, false, null, false, old(ifname), map[])
      ensures old(status) != Uninitialized && old(db) != null && old(dbOpen) ==> old(db).Image() == Quiesced(old(db.Image()))
    {
      if status == Uninitialized {
        return Some(NOT_INITIALIZED);
      }
      CloseInternal();
      err := None;
    }

    /**
     * `Init`: any previous state is closed, the database `file` is opened,
     * stale runtime state cleared and, in a database without a device
     * record, a key pair generated and stored. The status becomes ready or
     * needs_setup by whether a server configuration exists.
     */
    method Init(file: Result<WgDb.WgImage, string>, name: string, listenPort: int,
                random: WgKeys.Entropy, x25519: seq<Machine.Byte> -> Result<seq<Machine.Byte>, string>)
      returns (err: Option<string>)
      requires Valid()
      requires file.Ok? ==> file.value.WellFormed()
      requires WgKeys.WellFormedEntropy(random)
      modifies this, db, dev, hops.Values
      ensures Valid()
      ensures dev == null && hops == map[] && !statsRunning
      ensures file.Err? ==> err == Some("db open: " + file.error) && status == Error && lastError == file.error
      ensures file.Ok? ==> db != null && fresh(db) && ifname == name && lastError == ""
      ensures file.Ok? ==>
                var seeded := Seeded(RuntimeCleared(file.value), name, listenPort, KeyPair(random, x25519));
                && (seeded.Err? ==>
                      err == Some(seeded.error) && status == Uninitialized && !dbOpen && db.Image() == RuntimeCleared(file.value))
                && (seeded.Ok? ==>
                      err.None? && dbOpen && db.Image() == seeded.value && status == InitStatus(seeded.value))
    {
      if status != Uninitialized {
        CloseInternal();
      }
      err := Open(file, name, listenPort, random, x25519);
    }

    /** The part of `Init` after any previous state is closed. */
    method Open(file: Result<WgDb.WgImage, string>, name: string, listenPort: int,
                random: WgKeys.Entropy, x25519: seq<Machine.Byte> -> Result<seq<Machine.Byte>, string>)
      returns (err: Option<string>)
      requires Valid() && status == Uninitialized && dev == null
      requires file.Ok? ==> file.value.WellFormed()
      requires WgKeys.WellFormedEntropy(random)
      modifies this
      ensures Valid()
      ensures dev == null && hops == map[] && !statsRunning
      ensures file.Err? ==> err == Some("db open: " + file.error) && status == Error && lastError == file.error
      ensures file.Ok? ==> db != null && fresh(db) && ifname == name && lastError == ""
      ensures file.Ok? ==>
                var seeded := Seeded(RuntimeCleared(file.value), name, listenPort, KeyPair(random, x25519));
                && (seeded.Err? ==>
                      err == Some(seeded.error) && status == Uninitialized && !dbOpen && db.Image() == RuntimeCleared(file.value))
                && (seeded.Ok? ==>
                      err.None? && dbOpen && db.Image() == seeded.value && status == InitStatus(seeded.value))
    {
      if file.Err? {
        status := Error;
        lastError := file.error;
        return Some("db open: " + file.error);
      }
      db := new WgDb.BridgeDB.Open(file.value);
      ifname := name;
      ClearDb();
      err := Seed(name, listenPort, random, x25519);
    }

    /**
     * The second half of `Init`, on the freshly opened database: a device
     * record is created when missing (a key failure closes the database),
     * then the status is set.
     */
    method Seed(name: string, listenPort: int, random: WgKeys.Entropy, x25519: seq<Machine.Byte> -> Result<seq<Machine.Byte>, string>)
      returns (err: Option<string>)
      requires Valid() && status == Uninitialized && db != null && WgKeys.WellFormedEntropy(random)
      modifies this, db
      ensures Valid() && db == old(db)
      ensures var seeded := Seeded(old(db.Image()), name, listenPort, KeyPair(random, x25519));
        && (seeded.Err? ==>
              err == Some(seeded.error) && Fields() == old(Fields()) && db.Image() == old(db.Image()))
        && (seeded.Ok? ==>
              err.None? && Fields() == old(Fields()).(dbOpen := true, status := InitStatus(seeded.value)) && db.Image() == seeded.value)
    {
      if db.Image().GetDevice().Err? {
        var keys := GenerateKeyPair(random, x25519);
        if keys.Err? {
          return Some(keys.error);
        }
        db.UpsertDevice(name, keys.value.0, keys.value.1, listenPort);
      }
      dbOpen := true;
      status := InitStatus(db.Image());
      err := None;
    }

    /**
     * `Setup`: from needs_setup or ready, the server configuration is
     * stored with its defaults and the address pool initialised; the bridge
     * is then ready.
     */
    method Setup(endpoint: string, network: string, dnsPrimary: string, dnsSecondary: string, mtu: int, fwmark: int,
                 parse: WgPool.CidrParser)
      returns (err: Option<string>)
      requires Valid()
      modifies this, db
      ensures Valid()
      ensures old(status) != NeedsSetup && old(status) != Ready ==>
                err == Some("invalid state for setup: " + StatusText(old(status)))
                && Fields() == old(Fields()) && (db != null ==> db.Image() == old(db.Image()))
      ensures old(status) == NeedsSetup || old(status) == Ready ==>
                var r := SetupImage(old(db.Image()), SetupConfig(endpoint, network, dnsPrimary, dnsSecondary, mtu, fwmark), parse);
                && (r.Err? ==> err == Some(r.error) && Fields() == old(Fields()) && db.Image() == old(db.Image()))
                && (r.Ok? ==> err.None? && Fields() == old(Fields()).(status := Ready) && db.Image() == r.value)
    {
      if status != NeedsSetup && status != Ready {
        return Some("invalid state for setup: " + StatusText(status));
      }
      var cfg := SetupConfig(endpoint, network, dnsPrimary, dnsSecondary, mtu, fwmark);
      var saved := db.UpsertServerConfig(cfg);
      if saved.Err? {
        return Some("save config: " + saved.error);
      }
      var v6 := StoredNetworkV6(db.Image());
      var _ := db.InitIPPool(cfg.network, v6, parse);
      status := Ready;
      err := None;
    }

    /** `setError`. */
    method SetError(msg: string)
      requires Lifecycle() && status != Running
      modifies this
      ensures Lifecycle()
      ensures Fields() == old(Fields()).(status := Error, lastError := msg)
    {
      status := Error;
      lastError := msg;
    }

    /**
     * `Start`: from ready, the device record and the server configuration
     * are read, a device is created, configured and brought up; the enabled
     * clients are added to it and the enabled multihop tunnels restored. A
     * failing step records its error and leaves the status error.
     */
    method Start(f: LaunchFaults, now: int, hf: string -> HopFaults) returns (err: Option<string>, ghost started: map<string, WgDevice.Device>)
      requires Valid()
      modifies this, db
      ensures Valid()
      ensures old(status) == Running ==>
                err == Some("already running") && Fields() == old(Fields()) && db.Image() == old(db.Image())
      ensures old(status) != Running && old(status) != Ready ==>
                err == Some(NotReady(old(status))) && Fields() == old(Fields()) && (db != null ==> db.Image() == old(db.Image()))
      ensures old(status) == Ready && StartError(old(db.Image()), f).Some? ==>
                var e := StartError(old(db.Image()), f).value;
                && err == Some(e.1) && Fields() == old(Fields()).(status := Error, lastError := e.0)
                && db.Image() == old(db.Image())
      ensures old(status) == Ready && StartError(old(db.Image()), f).None? ==>
                var img := old(db.Image());
                var ts := WgTunnels.Enabled(img.tunnels);
                && err.None? && status == Running && lastError == "" && db == old(db) && fresh(dev)
                && dbOpen == old(dbOpen) && statsRunning == old(statsRunning) && ifname == old(ifname)
                && dev.calls == [WgDevice.SetCall(StartConfig(img)), WgDevice.UpCall] + PeerCalls(img.EnabledClients())
                && db.Image() == RunningImage(img, now, hf)
                && hops == old(hops) + started && started.Keys == StartedTunnels(ts, hf).Keys
                && (forall n :: n in started ==> fresh(started[n]) && started[n].calls == HopCalls(StartedTunnels(ts, hf)[n]))
    {
      if status == Running {
        return Some("already running"), map[];
      }
      if status != Ready {
        return Some(NotReady(status)), map[];
      }
      var rec := db.Image().GetDevice();
      if rec.Err? {
        SetError("read device: " + rec.error);
        return Some("read device: " + rec.error), map[];
      }
      var cfg := db.Image().GetServerConfig(1);
      if cfg.Err? {
        SetError("read server config: " + cfg.error);
        return Some("read server config: " + cfg.error), map[];
      }
      var d := LaunchDevice(DeviceConfig(rec.value.privateKey, rec.value.listenPort, cfg.value.fwmark), f);
      if d.Err? {
        SetError(d.error.0);
        return Some(d.error.1), map[];
      }
      started := Activate(d.value, now, hf);
      err := None;
    }

    /**
     * The part of `Start` once its device is up: the device is installed,
     * the start time stored, the enabled clients added and the enabled
     * tunnels restored; the devices restored are returned by name.
     */
    method Activate(d: WgDevice.Device, now: int, hf: string -> HopFaults) returns (ghost started: map<string, WgDevice.Device>)
      requires Valid() && status == Ready && d !in hops.Values
      modifies this, db, d
      ensures Valid()
      ensures Fields() == old(Fields()).(status := Running, lastError := "", dev := d, hops := old(hops) + started)
      ensures d.calls == old(d.calls) + PeerCalls(old(db.Image()).EnabledClients())
      ensures db.Image() == RunningImage(old(db.Image()), now, hf)
      ensures var ts := WgTunnels.Enabled(old(db.Image()).tunnels);
              && started.Keys == StartedTunnels(ts, hf).Keys
              && (forall n :: n in started ==> fresh(started[n]) && started[n].calls == HopCalls(StartedTunnels(ts, hf)[n]))
    {
      var restored := Bring(db, d, now, hf);
      Install(d, restored);
      started := restored;
    }

    /** The end of `Start`: the device installed, the restored devices registered, the status running. */
    method Install(d: WgDevice.Device, restored: map<string, WgDevice.Device>)
      requires Lifecycle() && Registry() && status == Ready && d !in hops.Values
      requires forall n :: n in restored ==> restored[n] != d && restored[n] !in hops.Values
      requires Distinct(restored)
      modifies this
      ensures Lifecycle() && Registry()
      ensures Fields() == old(Fields()).(status := Running, lastError := "", dev := d, hops := old(hops) + restored)
    {
      dev := d;
      hops := hops + restored;
      status := Running;
      lastError := "";
    }

    /** `startMultihopDevice`: the tunnel's device is brought up and registered under its name, replacing any earlier entry. */
    method StartHop(t: WgTunnels.Tunnel, f: HopFaults) returns (err: Option<string>)
      requires Registry()
      modifies this
      ensures Registry()
      ensures err == HopError(t, f)
      ensures err.Some? ==> Fields() == old(Fields())
      ensures err.None? ==>
                && t.name in hops && fresh(hops[t.name]) && hops[t.name].calls == HopCalls(t)
                && Fields() == old(Fields()).(hops := old(hops)[t.name := hops[t.name]])
    {
      var d := StartHopDevice(t, f);
      if d.Err? {
        return Some(d.error);
      }
      hops := hops[t.name := d.value];
      err := None;
    }

    /** `stopMultihopDevice`: a registered device is removed from the registry and closed. */
    method StopHop(name: string)
      requires Registry()
      modifies this, hops.Values
      ensures Registry()
      ensures Fields() == old(Fields()).(hops := old(hops) - {name})
      ensures name in old(hops) ==> old(hops)[name].calls == old(hops[name].calls) + [WgDevice.CloseCall]
      ensures forall n :: n in hops ==> hops[n].calls == old(hops[n].calls)
    {
      if name in hops {
        var d := hops[name];
        hops := hops - {name};
        d.Close();
      }
    }

    /**
     * `Stop`: the main device goes down and closes, the runtime state is
     * cleared, and the bridge is ready again. The stats sync and the
     * multihop devices are left as they are.
     */
    method Stop() returns (err: Option<string>)
      requires Valid()
      modifies this, db, dev
      ensures Valid()
      ensures old(status) != Running ==>
                err == Some("not running") && Fields() == old(Fields()) && (db != null ==> db.Image() == old(db.Image()))
      ensures old(status) == Running ==>
                && err.None? && Fields() == old(Fields()).(status := Ready, dev := null)
                && old(dev).calls == old(dev.calls) + [WgDevice.DownCall, WgDevice.CloseCall]
                && db.Image() == Quiesced(old(db.Image()))
    {
      if status != Running {
        return Some("not running");
      }
      dev.Down();
      dev.Close();
      dev := null;
      ClearDb();
      db.SetDeviceStartedAt(None);
      status := Ready;
      err := None;
    }

    // ---- clients ----

    /**
     * `AddClient`: on a running bridge, a key pair and a preshared key are
     * generated and the client written and handed to the device
     * (`AddedClient`); any other status is refused.
     */
    method AddClient(allowedIP: string, random: WgKeys.Entropy, x25519: seq<Machine.Byte> -> Result<seq<Machine.Byte>, string>,
                     pskRandom: WgKeys.Entropy, now: int, outcome: Option<string>)
      returns (r: Result<Entry<WgDb.Client>, string>)
      requires Valid() && WgKeys.WellFormedEntropy(random) && WgKeys.WellFormedEntropy(pskRandom)
      modifies db, dev
      ensures Valid()
      ensures status != Running ==> r == Err(NotRunning(status)) && (db != null ==> db.Image() == old(db.Image()))
      ensures status == Running && ClientKeys(random, x25519, pskRandom).Err? ==>
                r == Err(ClientKeys(random, x25519, pskRandom).error)
                && db.Image() == old(db.Image()) && dev.calls == old(dev.calls)
      ensures status == Running && ClientKeys(random, x25519, pskRandom).Ok? ==>
                var (priv, pub, psk) := ClientKeys(random, x25519, pskRandom).value;
                var added := AddedClient(old(db.Image()), priv, pub, psk, allowedIP, now, outcome);
                db.Image() == added.0 && dev.calls == old(dev.calls) + added.1 && r == added.2
    {
      if status != Running {
        return Err(NotRunning(status));
      }
      var keys := GenerateClientKeys(random, x25519, pskRandom);
      if keys.Err? {
        return Err(keys.error);
      }
      var (priv, pub, psk) := keys.value;
      r := EnrollPeer(db, dev, priv, pub, psk, allowedIP, now, outcome);
    }

    /** `RemoveClient`: the peer is removed from the device, its error ignored, then the client deleted. */
    method RemoveClient(pk: string) returns (err: Option<string>)
      requires Valid()
      modifies db, dev
      ensures Valid()
      ensures status != Running ==> err == Some(NotRunning(status)) && (db != null ==> db.Image() == old(db.Image()))
      ensures status == Running ==>
                && dev.calls == old(dev.calls) + [WgDevice.SetCall(RemoveConfig(pk))]
                && var u := old(db.Image()).DeleteClient(pk);
                   && (u.Err? ==> err == Some(u.error) && db.Image() == old(db.Image()))
                   && (u.Ok? ==> err.None? && db.Image() == u.value)
    {
      if status != Running {
        return Some(NotRunning(status));
      }
      var _ := dev.IpcSet(RemoveConfig(pk), None);
      var u := db.DeleteClient(pk);
      err := if u.Err? then Some(u.error) else None;
    }

    /** `EnableClient`: a known client is given to the device again and marked enabled. */
    method EnableClient(pk: string) returns (err: Option<string>)
      requires Valid()
      modifies db, dev
      ensures Valid()
      ensures status != Running ==> err == Some(NotRunning(status)) && (db != null ==> db.Image() == old(db.Image()))
      ensures status == Running && old(db.Image()).GetClient(pk).Err? ==>
                err == Some("get client: " + old(db.Image()).GetClient(pk).error)
                && db.Image() == old(db.Image()) && dev.calls == old(dev.calls)
      ensures status == Running && old(db.Image()).GetClient(pk).Ok? ==>
                && dev.calls == old(dev.calls) + [WgDevice.SetCall(ClientPeerConfig(old(db.Image()).GetClient(pk).value.row))]
                && old(db.Image()).SetEnabled(pk, true).Ok?
                && err.None? && db.Image() == old(db.Image()).SetEnabled(pk, true).value
    {
      if status != Running {
        return Some(NotRunning(status));
      }
      var c := db.Image().GetClient(pk);
      if c.Err? {
        return Some("get client: " + c.error);
      }
      AddPeerToDevice(dev, c.value.row);
      var u := db.SetEnabled(pk, true);
      assert u.Ok?;
      err := None;
    }

    /** `DisableClient`: the peer is removed from the device, its error ignored, and the client marked disabled. */
    method DisableClient(pk: string) returns (err: Option<string>)
      requires Valid()
      modifies db, dev
      ensures Valid()
      ensures status != Running ==> err == Some(NotRunning(status)) && (db != null ==> db.Image() == old(db.Image()))
      ensures status == Running ==>
                && dev.calls == old(dev.calls) + [WgDevice.SetCall(RemoveConfig(pk))]
                && var u := old(db.Image()).SetEnabled(pk, false);
                   && (u.Err? ==> err == Some(u.error) && db.Image() == old(db.Image()))
                   && (u.Ok? ==> err.None? && db.Image() == u.value)
    {
      if status != Running {
        return Some(NotRunning(status));
      }
      var _ := dev.IpcSet(RemoveConfig(pk), None);
      var u := db.SetEnabled(pk, false);
      err := if u.Err? then Some(u.error) else None;
    }

    // ---- queries ----

    /** `GetClient`: behind the guard, the client with that key. */
    method GetClient(pk: string) returns (r: Result<Entry<WgDb.Client>, string>)
      requires Valid()
      ensures DbGuard(status, db != null, dbOpen).Some? ==> r == Err(DbGuard(status, db != null, dbOpen).value)
      ensures DbGuard(status, db != null, dbOpen).None? ==> r == db.Image().GetClient(pk)
    {
      var g := DbGuard(status, db != null, dbOpen);
      if g.Some? {
        return Err(g.value);
      }
      r := db.Image().GetClient(pk);
    }

    /** `ListClients`: behind the guard, one page of clients with the total. */
    method ListClients(page: int, limit: int) returns (r: Result<WgDb.ClientList, string>)
      requires Valid()
      ensures DbGuard(status, db != null, dbOpen).Some? ==> r == Err(DbGuard(status, db != null, dbOpen).value)
      ensures DbGuard(status, db != null, dbOpen).None? ==> r == Ok(db.Image().ListClients(page, limit))
    {
      var g := DbGuard(status, db != null, dbOpen);
      if g.Some? {
        return Err(g.value);
      }
      r := Ok(db.Image().ListClients(page, limit));
    }

    /**
     * `ExportClientConfig`: the client and the device record are read, then
     * the configuration file is built (`ExportConf`) with the server
     * configuration's defaults when one exists.
     */
    method ExportClientConfig(pk: string, endpoint: string, dns: string) returns (r: Result<string, string>)
      requires Valid()
      ensures status == Uninitialized || db == null ==> r == Err(NOT_INITIALIZED)
      ensures status != Uninitialized && db != null && !dbOpen ==> r == Err("get client: " + DB_CLOSED)
      ensures DbGuard(status, db != null, dbOpen).None? ==>
                var img := db.Image();
                && (img.GetClient(pk).Err? ==> r == Err("get client: " + img.GetClient(pk).error))
                && (img.GetClient(pk).Ok? && img.GetDevice().Err? ==> r == Err("get device: " + img.GetDevice().error))
                && (img.GetClient(pk).Ok? && img.GetDevice().Ok? ==>
                      var x := ExportConf(img.GetClient(pk).value.row, img.GetDevice().value, img.GetServerConfig(1).ToOption(), endpoint, dns);
                      && (x.Err? ==> r == Err(x.error))
                      && (x.Ok? ==> r == Ok(ConfText(x.value))))
    {
      if status == Uninitialized || db == null {
        return Err(NOT_INITIALIZED);
      }
      if !dbOpen {
        return Err("get client: " + DB_CLOSED);
      }
      var img := db.Image();
      var c := img.GetClient(pk);
      if c.Err? {
        return Err("get client: " + c.error);
      }
      var d := img.GetDevice();
      if d.Err? {
        return Err("get device: " + d.error);
      }
      var x := ExportConf(c.value.row, d.value, img.GetServerConfig(1).ToOption(), endpoint, dns);
      if x.Err? {
        return Err(x.error);
      }
      r := Ok(ConfText(x.value));
    }

    /** `GetServerConfig`: behind the guard, the configuration of device 1. */
    method GetServerConfig() returns (r: Result<WgServer.ServerConfig, string>)
      requires Valid()
      ensures DbGuard(status, db != null, dbOpen).Some? ==> r == Err(DbGuard(status, db != null, dbOpen).value)
      ensures DbGuard(status, db != null, dbOpen).None? ==> r == db.Image().GetServerConfig(1)
    {
      var g := DbGuard(status, db != null, dbOpen);
      if g.Some? {
        return Err(g.value);
      }
      r := db.Image().GetServerConfig(1);
    }

    /** `GetDeviceInfo`: behind the guard, the device record with the number of clients. */
    method GetDeviceInfo() returns (r: Result<DeviceInfo, string>)
      requires Valid()
      ensures DbGuard(status, db != null, dbOpen).Some? ==> r == Err(DbGuard(status, db != null, dbOpen).value)
      ensures DbGuard(status, db != null, dbOpen).None? ==> r == DeviceInfoFrom(db.Image())
    {
      var g := DbGuard(status, db != null, dbOpen);
      if g.Some? {
        return Err(g.value);
      }
      r := DeviceInfoFrom(db.Image());
    }

    /** `GetStatus`: the status and the last error, with what an open database holds. */
    method GetStatus() returns (info: StatusInfo)
      requires Valid()
      ensures info == StatusFrom(status, lastError, if db != null && dbOpen then Some(db.Image()) else None)
    {
      info := StatusFrom(status, lastError, if db != null && dbOpen then Some(db.Image()) else None);
    }

    // ---- configuration and stats ----

    /**
     * `SetServerConfig`: the parsed configuration is stored for device 1;
     * a non-zero fwmark is first pushed to the device, when there is one.
     */
    method SetServerConfig(parsed: Result<WgServer.ServerConfig, string>) returns (err: Option<string>)
      requires Valid()
      modifies db, dev
      ensures Valid()
      ensures status == Uninitialized || db == null ==> err == Some(NOT_INITIALIZED) && (db != null ==> db.Image() == old(db.Image()))
      ensures status != Uninitialized && db != null && parsed.Err? ==>
                err == Some("parse config: " + parsed.error) && db.Image() == old(db.Image())
      ensures status != Uninitialized && db != null && parsed.Ok? ==>
                var cfg := parsed.value.(deviceId := 1);
                && (dev != null ==> dev.calls == old(dev.calls) + (if PushesFwmark(status, cfg.fwmark) then [WgDevice.SetCall(FwmarkConfig(cfg.fwmark))] else []))
                && (!dbOpen ==> err == Some(DB_CLOSED) && db.Image() == old(db.Image()))
                && (dbOpen ==> var u := old(db.Image()).UpsertServerConfig(cfg);
                      && (u.Err? ==> err == Some(u.error) && db.Image() == old(db.Image()))
                      && (u.Ok? ==> err.None? && db.Image() == u.value))
    {
      if status == Uninitialized || db == null {
        return Some(NOT_INITIALIZED);
      }
      if parsed.Err? {
        return Some("parse config: " + parsed.error);
      }
      var cfg := parsed.value.(deviceId := 1);
      if PushesFwmark(status, cfg.fwmark) {
        var _ := dev.IpcSet(FwmarkConfig(cfg.fwmark), None);
      }
      if !dbOpen {
        return Some(DB_CLOSED);
      }
      var u := db.UpsertServerConfig(cfg);
      err := if u.Err? then Some(u.error) else None;
    }

    /** `StartStatsSync`: the sync starts unless uninitialised or already running. */
    method StartStatsSync() returns (err: Option<string>)
      requires Valid()
      modifies this
      ensures Valid()
      ensures old(status) == Uninitialized ==> err == Some(NOT_INITIALIZED) && Fields() == old(Fields())
      ensures old(status) != Uninitialized && old(statsRunning) ==> err == Some("stats already running") && Fields() == old(Fields())
      ensures old(status) != Uninitialized && !old(statsRunning) ==> err.None? && Fields() == old(Fields()).(statsRunning := true)
    {
      if status == Uninitialized {
        return Some(NOT_INITIALIZED);
      }
      if statsRunning {
        return Some("stats already running");
      }
      statsRunning := true;
      err := None;
    }

    /** `StopStatsSync`: the sync stops if it runs; never an error. */
    method StopStatsSync() returns (err: Option<string>)
      requires Valid()
      modifies this
      ensures Valid()
      ensures err.None? && Fields() == old(Fields()).(statsRunning := false)
    {
      statsRunning := false;
      err := None;
    }

    /**
     * One tick of the stats sync: the device's dump (`answer`) is parsed and
     * every peer's counters written. A tick with no device does nothing.
     */
    method StatsTick(answer: Result<string, string>)
      requires Valid()
      modifies db, dev
      ensures Valid()
      ensures TickAsksDevice(statsRunning, dev != null) ==>
                && dev.calls == old(dev.calls) + [WgDevice.GetCall]
                && (answer.Err? ==> db.Image() == old(db.Image()))
                && (answer.Ok? ==> db.Image() == WgStats.ApplyStats(old(db.Image()), WgStats.ParsedPeers(answer.value)))
      ensures !TickAsksDevice(statsRunning, dev != null) ==>
                (db != null ==> db.Image() == old(db.Image())) && (dev != null ==> dev.calls == old(dev.calls))
    {
      if TickAsksDevice(statsRunning, dev != null) {
        var dump := dev.IpcGet(answer);
        WgStats.SyncOnce(db, dump);
      }
    }

    // ---- multihop ----

    /**
     * `CreateMultihopTunnel`: a key pair is generated and the tunnel
     * (`NewTunnel`) inserted, stopped and disabled.
     */
    method CreateMultihopTunnel(name: string, iface: string, remoteEndpoint: string, remotePubKey: string, fwmark: int,
                                random: WgKeys.Entropy, x25519: seq<Machine.Byte> -> Result<seq<Machine.Byte>, string>, now: int)
      returns (r: Result<Entry<WgTunnels.Tunnel>, string>)
      requires Valid() && WgKeys.WellFormedEntropy(random)
      modifies db
      ensures Valid()
      ensures status == Uninitialized || db == null ==> r == Err(NOT_INITIALIZED) && (db != null ==> db.Image() == old(db.Image()))
      ensures status != Uninitialized && db != null && KeyPair(random, x25519).Err? ==>
                r == Err(KeyPair(random, x25519).error) && db.Image() == old(db.Image())
      ensures status != Uninitialized && db != null && KeyPair(random, x25519).Ok? && !dbOpen ==>
                r == Err("db insert: " + DB_CLOSED) && db.Image() == old(db.Image())
      ensures status != Uninitialized && db != null && KeyPair(random, x25519).Ok? && dbOpen ==>
                var (priv, pub) := KeyPair(random, x25519).value;
                var u := WgTunnels.Insert(old(db.Image()).tunnels, NewTunnel(name, iface, remoteEndpoint, remotePubKey, fwmark, priv, pub), now);
                && (u.Err? ==> r == Err("db insert: " + u.error) && db.Image() == old(db.Image()))
                && (u.Ok? ==> r == Ok(u.value.1) && db.Image() == old(db.Image()).(tunnels := u.value.0))
    {
      if status == Uninitialized || db == null {
        return Err(NOT_INITIALIZED);
      }
      var keys := GenerateKeyPair(random, x25519);
      if keys.Err? {
        return Err(keys.error);
      }
      if !dbOpen {
        return Err("db insert: " + DB_CLOSED);
      }
      var (priv, pub) := keys.value;
      var ins := db.InsertTunnel(NewTunnel(name, iface, remoteEndpoint, remotePubKey, fwmark, priv, pub), now);
      if ins.Err? {
        return Err("db insert: " + ins.error);
      }
      r := ins;
    }

    /**
     * `StartMultihopTunnel`: the named tunnel's device is started and
     * registered; the outcome is written and, on success, the tunnel
     * enabled (`Launched`).
     */
    method StartMultihopTunnel(name: string, f: HopFaults, now: int) returns (err: Option<string>)
      requires Valid()
      modifies this, db
      ensures Valid() && db == old(db)
      ensures old(status) == Uninitialized || old(db) == null ==>
                err == Some(NOT_INITIALIZED) && Fields() == old(Fields()) && (db != null ==> db.Image() == old(db.Image()))
      ensures old(status) != Uninitialized && old(db) != null && !old(dbOpen) ==>
                err == Some("get tunnel: " + SCAN_CLOSED) && Fields() == old(Fields()) && db.Image() == old(db.Image())
      ensures DbGuard(old(status), old(db) != null, old(dbOpen)).None? && WgTunnels.Get(old(db.Image()).tunnels, name).Err? ==>
                err == Some("get tunnel: " + WgTunnels.Get(old(db.Image()).tunnels, name).error)
                && Fields() == old(Fields()) && db.Image() == old(db.Image())
      ensures DbGuard(old(status), old(db) != null, old(dbOpen)).None? && WgTunnels.Get(old(db.Image()).tunnels, name).Ok? ==>
                var t := WgTunnels.Get(old(db.Image()).tunnels, name).value.row;
                && err == HopError(t, f)
                && db.Image() == old(db.Image()).(tunnels := Launched(old(db.Image()).tunnels, t, f, now))
                && (err.Some? ==> Fields() == old(Fields()))
                && (err.None? ==> name in hops && fresh(hops[name]) && hops[name].calls == HopCalls(t)
                                  && Fields() == old(Fields()).(hops := old(hops)[name := hops[name]]))
    {
      if status == Uninitialized || db == null {
        return Some(NOT_INITIALIZED);
      }
      if !dbOpen {
        return Some("get tunnel: " + SCAN_CLOSED);
      }
      var t := WgTunnels.Get(db.tunnels, name);
      if t.Err? {
        return Some("get tunnel: " + t.error);
      }
      err := Launch(t.value.row, f, now);
    }

    /** The part of `StartMultihopTunnel` once the tunnel is read: its device started, the outcome written. */
    method Launch(t: WgTunnels.Tunnel, f: HopFaults, now: int) returns (err: Option<string>)
      requires Valid() && status != Uninitialized && db != null
      modifies this, db
      ensures Valid() && db == old(db)
      ensures err == HopError(t, f)
      ensures db.Image() == old(db.Image()).(tunnels := Launched(old(db.Image()).tunnels, t, f, now))
      ensures err.Some? ==> Fields() == old(Fields())
      ensures err.None? ==> t.name in hops && fresh(hops[t.name]) && hops[t.name].calls == HopCalls(t)
                            && Fields() == old(Fields()).(hops := old(hops)[t.name := hops[t.name]])
    {
      err := StartHop(t, f);
      LaunchDb(db, t, f, now);
    }

    /**
     * `StopMultihopTunnel` (and, for `disable`, `DisableMultihopTunnel`):
     * the named tunnel's device is closed and unregistered and the tunnel
     * marked stopped (`Halted`).
     */
    method StopMultihopTunnel(name: string, disable: bool) returns (err: Option<string>)
      requires Valid()
      modifies this, db, hops.Values
      ensures Valid() && db == old(db)
      ensures old(status) == Uninitialized || old(db) == null ==>
                err == Some(NOT_INITIALIZED) && Fields() == old(Fields()) && (db != null ==> db.Image() == old(db.Image()))
      ensures old(status) != Uninitialized && old(db) != null && !old(dbOpen) ==>
                err == Some("get tunnel: " + SCAN_CLOSED) && Fields() == old(Fields()) && db.Image() == old(db.Image())
      ensures DbGuard(old(status), old(db) != null, old(dbOpen)).None? && WgTunnels.Get(old(db.Image()).tunnels, name).Err? ==>
                err == Some("get tunnel: " + WgTunnels.Get(old(db.Image()).tunnels, name).error)
                && Fields() == old(Fields()) && db.Image() == old(db.Image())
      ensures DbGuard(old(status), old(db) != null, old(dbOpen)).None? && WgTunnels.Get(old(db.Image()).tunnels, name).Ok? ==>
                && err.None?
                && db.Image() == old(db.Image()).(tunnels := Halted(old(db.Image()).tunnels, name, disable))
                && Fields() == old(Fields()).(hops := old(hops) - {name})
                && (name in old(hops) ==> old(hops)[name].calls == old(hops[name].calls) + [WgDevice.CloseCall])
    {
      if status == Uninitialized || db == null {
        return Some(NOT_INITIALIZED);
      }
      if !dbOpen {
        return Some("get tunnel: " + SCAN_CLOSED);
      }
      var t := WgTunnels.Get(db.tunnels, name);
      if t.Err? {
        return Some("get tunnel: " + t.error);
      }
      StopHop(name);
      HaltDb(db, name, disable);
      err := None;
    }

    /** `DeleteMultihopTunnel`: a registered device is closed, then the tunnel deleted. */
    method DeleteMultihopTunnel(name: string) returns (err: Option<string>)
      requires Valid()
      modifies this, db, hops.Values
      ensures Valid() && db == old(db)
      ensures old(status) == Uninitialized || old(db) == null ==>
                err == Some(NOT_INITIALIZED) && Fields() == old(Fields()) && (db != null ==> db.Image() == old(db.Image()))
      ensures old(status) != Uninitialized && old(db) != null && !old(dbOpen) ==>
                err == Some(DB_CLOSED) && Fields() == old(Fields()) && db.Image() == old(db.Image())
      ensures DbGuard(old(status), old(db) != null, old(dbOpen)).None? ==>
                var u := WgTunnels.Delete(old(db.Image()).tunnels, name);
                && (u.Err? ==> err == Some(u.error) && Fields() == old(Fields()) && db.Image() == old(db.Image()))
                && (u.Ok? ==> err.None? && Fields() == old(Fields()).(hops := old(hops) - {name})
                              && db.Image() == old(db.Image()).(tunnels := u.value))
    {
      if status == Uninitialized || db == null {
        return Some(NOT_INITIALIZED);
      }
      if !dbOpen {
        return Some(DB_CLOSED);
      }
      var t := WgTunnels.Get(db.tunnels, name);
      if t.Ok? {
        StopHop(name);
      }
      var u := db.DeleteTunnel(name);
      err := if u.Err? then Some(u.error) else None;
    }

    /** `ListMultihopTunnels`: behind the guard, every tunnel in id order. */
    method ListMultihopTunnels() returns (r: Result<seq<Entry<WgTunnels.Tunnel>>, string>)
      requires Valid()
      ensures DbGuard(status, db != null, dbOpen).Some? ==> r == Err(DbGuard(status, db != null, dbOpen).value)
      ensures DbGuard(status, db != null, dbOpen).None? ==> r == Ok(WgTunnels.List(db.Image().tunnels))
    {
      var g := DbGuard(status, db != null, dbOpen);
      if g.Some? {
        return Err(g.value);
      }
      r := Ok(WgTunnels.List(db.tunnels));
    }

    /**
     * `GetMultihopTunnel`: the tunnel with that name. A closed handle fails
     * only at the scan, so its error carries the "scan multihop: " prefix.
     */
    method GetMultihopTunnel(name: string) returns (r: Result<Entry<WgTunnels.Tunnel>, string>)
      requires Valid()
      ensures status == Uninitialized || db == null ==> r == Err(NOT_INITIALIZED)
      ensures status != Uninitialized && db != null && !dbOpen ==> r == Err(SCAN_CLOSED)
      ensures DbGuard(status, db != null, dbOpen).None? ==> r == WgTunnels.Get(db.Image().tunnels, name)
    {
      if status == Uninitialized || db == null {
        return Err(NOT_INITIALIZED);
      }
      if !dbOpen {
        return Err(SCAN_CLOSED);
      }
      r := WgTunnels.Get(db.tunnels, name);
    }
  }
}
