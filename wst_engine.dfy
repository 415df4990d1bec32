/**
 * The engine calls the wstunnel controller makes, and what the two start
 * adapters of wstunnel_bridge/state.py send: the stored configuration
 * replayed as setter calls, headers, tunnels or restrictions, and start.
 *
 * The engine itself is not modelled. Its settings are a map from option
 * name to value, taken to start from the same defaults as the store's
 * schema, which is what the adapters' "differs from default" tests presuppose.
 */
module WstEngine {
  import opened Wrappers
  import opened Tables
  import opened WstTypes
  import opened WstDb

  datatype Role = ClientRole | ServerRole

  datatype EngineCall =
    | NewClient(remoteUrl: Value, logLevel: LogLevel)
    | NewServer(bindUrl: Value, logLevel: LogLevel)
      /** `set_<option>(value)` */
    | SetOption(option: string, value: Value)
      /** `set_<option>(True)` */
    | SetFlag(option: string)
    | AddHttpHeader(name: string, headerValue: string)
    | AddTunnelUdp(localHost: string, localPort: int, remoteHost: string, remotePort: int, timeoutSecs: int)
    | AddTunnelTcp(localHost: string, localPort: int, remoteHost: string, remotePort: int)
    | AddTunnelSocks5(localHost: string, localPort: int, timeoutSecs: int)
    | AddRestrictTo(target: string)
    | AddRestrictPathPrefix(pathPrefix: string)
    | StartEngine(role: Role)
    | StopEngine(role: Role)
    | FreeEngine(role: Role)

  /** What an engine call can raise: a WstunnelError, or a RuntimeError/OSError/ValueError with its text. */
  datatype AdapterError = Wst(err: WstunnelError) | Other(message: string)

  /**
   * The engine's behaviour during one start: the call at position `at` of
   * the adapter's plan raises `kind`; when `at` is outside the plan every
   * call succeeds.
   */
  datatype Fault = Fault(at: int, kind: AdapterError)

  // ---- Setters ----

  /** How an adapter decides whether to send a column: `!= default`, `if value:`, or `if value: set(True)`. */
  datatype Test = DiffersFrom(default: Value) | IfTruthy(falsy: Value) | FlagIfTruthy

  datatype SetterSpec = SetterSpec(column: string, test: Test)

  /** The client adapter's setters, in the order it sends them. */
  const CLIENT_SETTERS: seq<SetterSpec> := [
    SetterSpec("http_upgrade_path_prefix", DiffersFrom(Text("v1"))),
    SetterSpec("http_upgrade_credentials", IfTruthy(Text(""))),
    SetterSpec("tls_verify", FlagIfTruthy),
    SetterSpec("tls_sni_override", IfTruthy(Text(""))),
    SetterSpec("tls_sni_disable", FlagIfTruthy),
    SetterSpec("websocket_ping_frequency", DiffersFrom(Int(30))),
    SetterSpec("websocket_mask_frame", FlagIfTruthy),
    SetterSpec("connection_min_idle", IfTruthy(Int(0))),
    SetterSpec("connection_retry_max_backoff", DiffersFrom(Int(300))),
    SetterSpec("http_proxy", IfTruthy(Text(""))),
    SetterSpec("worker_threads", DiffersFrom(Int(2)))]

  /** The server adapter's setters, in the order it sends them. */
  const SERVER_SETTERS: seq<SetterSpec> := [
    SetterSpec("tls_certificate", IfTruthy(Text(""))),
    SetterSpec("tls_private_key", IfTruthy(Text(""))),
    SetterSpec("tls_client_ca_certs", IfTruthy(Text(""))),
    SetterSpec("websocket_ping_frequency", DiffersFrom(Int(30))),
    SetterSpec("websocket_mask_frame", FlagIfTruthy),
    SetterSpec("worker_threads", DiffersFrom(Int(2)))]

  /** Every column a spec list names is in the row. */
  predicate Covers(specs: seq<SetterSpec>, cfg: Row)
  {
    forall i :: 0 <= i < |specs| ==> specs[i].column in cfg
  }

  predicate Sends(spec: SetterSpec, v: Value)
  {
    match spec.test
    case DiffersFrom(d) => v != d
    case IfTruthy(_) => Truthy(v)
    case FlagIfTruthy => Truthy(v)
  }

  function SetterCall(spec: SetterSpec, v: Value): EngineCall
  {
    if spec.test.FlagIfTruthy? then SetFlag(spec.column) else SetOption(spec.column, v)
  }

  /** The setter calls for a row: one per spec whose test passes, in spec order. */
  function Setters(specs: seq<SetterSpec>, cfg: Row): seq<EngineCall>
    requires Covers(specs, cfg)
  {
    if specs == [] then []
    else
      var v := cfg[specs[0].column];
      (if Sends(specs[0], v) then [SetterCall(specs[0], v)] else []) + Setters(specs[1..], cfg)
  }

  // ---- What the setters leave the engine with ----

  /** An engine option: a value, or a boolean switch. */
  datatype Setting = Val(v: Value) | Flag(on: bool)

  type Settings = map<string, Setting>

  function Apply(s: Settings, c: EngineCall): Settings
  {
    match c
    case SetOption(o, v) => s[o := Val(v)]
    case SetFlag(o) => s[o := Flag(true)]
    case _ => s
  }

  function Replay(s: Settings, calls: seq<EngineCall>): Settings
    decreases |calls|
  {
    if calls == [] then s else Replay(Apply(s, calls[0]), calls[1..])
  }

  function DefaultSetting(spec: SetterSpec): Setting
  {
    match spec.test
    case DiffersFrom(d) => Val(d)
    case IfTruthy(f) => Val(f)
    case FlagIfTruthy => Flag(false)
  }

  function StoredSetting(spec: SetterSpec, v: Value): Setting
  {
    if spec.test.FlagIfTruthy? then Flag(Truthy(v)) else Val(v)
  }

  /** The engine's defaults for the options a spec list names. */
  function Defaults(specs: seq<SetterSpec>): Settings
  {
    if specs == [] then map[] else map[specs[0].column := DefaultSetting(specs[0])] + Defaults(specs[1..])
  }

  /** The engine settings a stored row describes; flag columns are read by truthiness. */
  function Stored(specs: seq<SetterSpec>, cfg: Row): Settings
    requires Covers(specs, cfg)
  {
    if specs == [] then map[]
    else map[specs[0].column := StoredSetting(specs[0], cfg[specs[0].column])] + Stored(specs[1..], cfg)
  }

  /** The options the setters change, with the values they set. */
  function Sent(specs: seq<SetterSpec>, cfg: Row): Settings
    requires Covers(specs, cfg)
  {
    if specs == [] then map[]
    else
      var v := cfg[specs[0].column];
      (if Sends(specs[0], v) then map[specs[0].column := StoredSetting(specs[0], v)] else map[]) + Sent(specs[1..], cfg)
  }

  predicate DistinctColumns(specs: seq<SetterSpec>)
  {
    forall i, j :: 0 <= i < j < |specs| ==> specs[i].column != specs[j].column
  }

  /** A value that a truthiness test skips is the column's default. */
  predicate FalsyIsDefault(specs: seq<SetterSpec>, cfg: Row)
    requires Covers(specs, cfg)
  {
    forall i :: 0 <= i < |specs| && specs[i].test.IfTruthy? && !Truthy(cfg[specs[i].column]) ==>
      cfg[specs[i].column] == specs[i].test.falsy
  }

  function Columns(specs: seq<SetterSpec>): set<string>
  {
    set i | 0 <= i < |specs| :: specs[i].column
  }

  lemma {:induction false} ReplayConcat(s: Settings, a: seq<EngineCall>, b: seq<EngineCall>)
    ensures Replay(s, a + b) == Replay(Replay(s, a), b)
    decreases |a|
  {
    if a == [] {
      assert a + b == b;
    } else {
      assert (a + b)[1..] == a[1..] + b;
      ReplayConcat(Apply(s, a[0]), a[1..], b);
    }
  }

  /** Replaying the setters on any settings overrides exactly the options they send. */
  lemma {:induction false} ReplaySetters(s: Settings, specs: seq<SetterSpec>, cfg: Row)
    requires Covers(specs, cfg)
    ensures Replay(s, Setters(specs, cfg)) == s + Sent(specs, cfg)
    decreases |specs|
  {
    if specs != [] {
      var c, v := specs[0].column, cfg[specs[0].column];
      var head := if Sends(specs[0], v) then [SetterCall(specs[0], v)] else [];
      var h: Settings := if Sends(specs[0], v) then map[c := StoredSetting(specs[0], v)] else map[];
      CoversTail(specs, cfg);
      assert Setters(specs, cfg) == head + Setters(specs[1..], cfg);
      assert Sent(specs, cfg) == h + Sent(specs[1..], cfg);
      ReplayConcat(s, head, Setters(specs[1..], cfg));
      ReplayOne(s, specs[0], v);
      ReplaySetters(s + h, specs[1..], cfg);
      MapAssoc(s, h, Sent(specs[1..], cfg));
    }
  }

  /** One spec's setter call, if sent, stores that spec's setting. */
  lemma ReplayOne(s: Settings, spec: SetterSpec, v: Value)
    ensures Replay(s, if Sends(spec, v) then [SetterCall(spec, v)] else []) ==
              s + (if Sends(spec, v) then map[spec.column := StoredSetting(spec, v)] else map[])
  {
    if Sends(spec, v) {
      var call := SetterCall(spec, v);
      assert Replay(s, [call]) == Replay(Apply(s, call), []);
    }
  }

  lemma MapAssoc(a: Settings, b: Settings, c: Settings)
    ensures (a + b) + c == a + (b + c)
  {
  }

  lemma CoversTail(specs: seq<SetterSpec>, cfg: Row)
    requires specs != [] && Covers(specs, cfg)
    ensures specs[0].column in cfg && Covers(specs[1..], cfg)
  {
    assert forall i :: 0 <= i < |specs[1..]| ==> specs[1..][i] == specs[i + 1];
  }

  lemma ColumnsCons(specs: seq<SetterSpec>)
    requires specs != []
    ensures Columns(specs) == {specs[0].column} + Columns(specs[1..])
  {
    forall c | c in Columns(specs) ensures c in {specs[0].column} + Columns(specs[1..]) {
      var i :| 0 <= i < |specs| && specs[i].column == c;
      if i > 0 { assert specs[1..][i - 1].column == c; }
    }
    forall c | c in Columns(specs[1..]) ensures c in Columns(specs) {
      var i :| 0 <= i < |specs[1..]| && specs[1..][i].column == c;
      assert specs[i + 1].column == c;
    }
  }

  lemma {:induction false} KeysOf(specs: seq<SetterSpec>, cfg: Row)
    requires Covers(specs, cfg)
    ensures Defaults(specs).Keys == Columns(specs)
    ensures Stored(specs, cfg).Keys == Columns(specs)
    ensures Sent(specs, cfg).Keys <= Columns(specs)
    decreases |specs|
  {
    if specs != [] {
      CoversTail(specs, cfg);
      KeysOf(specs[1..], cfg);
      ColumnsCons(specs);
    }
  }

  /** Defaults overridden by what is sent are the stored settings. */
  lemma {:induction false} DefaultsPlusSent(specs: seq<SetterSpec>, cfg: Row)
    requires Covers(specs, cfg) && DistinctColumns(specs) && FalsyIsDefault(specs, cfg)
    ensures Defaults(specs) + Sent(specs, cfg) == Stored(specs, cfg)
    decreases |specs|
  {
    if specs != [] {
      var r := specs[1..];
      CoversTail(specs, cfg);
      assert DistinctColumns(r) && FalsyIsDefault(r, cfg) by {
        assert forall i :: 0 <= i < |r| ==> r[i] == specs[i + 1];
      }
      DefaultsPlusSent(r, cfg);
      KeysOf(r, cfg);
      var c := specs[0].column;
      assert c !in Columns(r) by {
        forall i | 0 <= i < |r| ensures r[i].column != c {
          assert r[i] == specs[i + 1];
        }
      }
      var v := cfg[c];
      var x := if Sends(specs[0], v) then StoredSetting(specs[0], v) else DefaultSetting(specs[0]);
      assert x == StoredSetting(specs[0], v) by {
        assert !specs[0].test.IfTruthy? || Truthy(v) || v == specs[0].test.falsy;
      }
      var D, S := Defaults(r), Sent(r, cfg);
      var h: Settings := if Sends(specs[0], v) then map[c := StoredSetting(specs[0], v)] else map[];
      assert Defaults(specs) == map[c := DefaultSetting(specs[0])] + D;
      assert Sent(specs, cfg) == h + S;
      assert Stored(specs, cfg) == map[c := StoredSetting(specs[0], v)] + Stored(r, cfg);
      HeadOverride(c, DefaultSetting(specs[0]), h, x, D, S);
    }
  }

  /** With `c` outside both maps, a default for `c` overridden by the head update then the rest. */
  lemma HeadOverride(c: string, d: Setting, h: Settings, x: Setting, D: Settings, S: Settings)
    requires c !in D && c !in S
    requires h == map[] ==> x == d
    requires h != map[] ==> h == map[c := x]
    ensures (map[c := d] + D) + (h + S) == map[c := x] + (D + S)
  {
  }

  /**
   * Replaying an adapter's setters on an engine with default settings
   * leaves it with exactly the stored configuration.
   */
  lemma ReplayIsStored(specs: seq<SetterSpec>, cfg: Row)
    requires Covers(specs, cfg) && DistinctColumns(specs) && FalsyIsDefault(specs, cfg)
    ensures Replay(Defaults(specs), Setters(specs, cfg)) == Stored(specs, cfg)
  {
    ReplaySetters(Defaults(specs), specs, cfg);
    DefaultsPlusSent(specs, cfg);
  }

  /** `c` is the setter of some spec whose test passes and whose setting is not the default. */
  predicate NonDefaultSetter(specs: seq<SetterSpec>, cfg: Row, c: EngineCall)
    requires Covers(specs, cfg)
  {
    exists i :: 0 <= i < |specs| && c == SetterCall(specs[i], cfg[specs[i].column])
      && Sends(specs[i], cfg[specs[i].column])
      && StoredSetting(specs[i], cfg[specs[i].column]) != DefaultSetting(specs[i])
  }

  /** Every setter sent carries a non-default setting, so none is redundant. */
  lemma {:induction false} SettersNonDefault(specs: seq<SetterSpec>, cfg: Row)
    requires Covers(specs, cfg)
    requires forall i :: 0 <= i < |specs| && specs[i].test.IfTruthy? ==> !Truthy(specs[i].test.falsy)
    ensures forall k :: 0 <= k < |Setters(specs, cfg)| ==> NonDefaultSetter(specs, cfg, Setters(specs, cfg)[k])
    decreases |specs|
  {
    if specs != [] {
      CoversTail(specs, cfg);
      var r := specs[1..];
      assert forall i :: 0 <= i < |r| ==> r[i] == specs[i + 1];
      SettersNonDefault(r, cfg);
      var v := cfg[specs[0].column];
      var head := if Sends(specs[0], v) then [SetterCall(specs[0], v)] else [];
      var rest := Setters(r, cfg);
      assert Setters(specs, cfg) == head + rest;
      forall k | 0 <= k < |head + rest| ensures NonDefaultSetter(specs, cfg, (head + rest)[k]) {
        if k < |head| {
          assert (head + rest)[k] == SetterCall(specs[0], v);
          assert Sends(specs[0], v);
        } else {
          assert (head + rest)[k] == rest[k - |head|];
          assert NonDefaultSetter(r, cfg, rest[k - |head|]);
          var i :| 0 <= i < |r| && rest[k - |head|] == SetterCall(r[i], cfg[r[i].column])
            && Sends(r[i], cfg[r[i].column])
            && StoredSetting(r[i], cfg[r[i].column]) != DefaultSetting(r[i]);
          assert r[i] == specs[i + 1];
        }
      }
    }
  }

  /** A row equal to the defaults on every spec column sends no setter. */
  lemma {:induction false} DefaultRowSendsNothing(specs: seq<SetterSpec>, cfg: Row)
    requires Covers(specs, cfg)
    requires forall i :: 0 <= i < |specs| ==> StoredSetting(specs[i], cfg[specs[i].column]) == DefaultSetting(specs[i])
    requires forall i :: 0 <= i < |specs| && specs[i].test.IfTruthy? ==> !Truthy(specs[i].test.falsy)
    ensures Setters(specs, cfg) == []
    decreases |specs|
  {
    if specs != [] {
      assert StoredSetting(specs[0], cfg[specs[0].column]) == DefaultSetting(specs[0]);
      DefaultRowSendsNothing(specs[1..], cfg);
    }
  }

  /** A stored client_config row has every column the client adapter reads. */
  lemma ClientRowFits(cfg: Row)
    requires cfg.Keys == CLIENT_DEFAULTS.Keys
    ensures "remote_url" in cfg && Covers(CLIENT_SETTERS, cfg)
  {
  }

  /** A stored server_config row has every column the server adapter reads. */
  lemma ServerRowFits(cfg: Row)
    requires cfg.Keys == SERVER_DEFAULTS.Keys
    ensures "bind_url" in cfg && Covers(SERVER_SETTERS, cfg)
  {
  }

  lemma SpecsDistinct()
    ensures DistinctColumns(CLIENT_SETTERS) && DistinctColumns(SERVER_SETTERS)
  {
  }

  /** The engine defaults the client setters are compared against are the schema's. */
  lemma ClientDefaultsAreSchema()
    ensures forall i :: 0 <= i < |CLIENT_SETTERS| && !CLIENT_SETTERS[i].test.FlagIfTruthy? ==>
      DefaultSetting(CLIENT_SETTERS[i]) == Val(CLIENT_DEFAULTS[CLIENT_SETTERS[i].column])
    ensures forall i :: 0 <= i < |CLIENT_SETTERS| && CLIENT_SETTERS[i].test.FlagIfTruthy? ==>
      CLIENT_DEFAULTS[CLIENT_SETTERS[i].column] == Int(0)
  {
  }

  // ---- Headers, tunnels, restrictions ----

  function HeaderCalls(hs: seq<Entry<Header>>): (s: seq<EngineCall>)
    ensures |s| == |hs|
    ensures forall i :: 0 <= i < |hs| ==> s[i] == AddHttpHeader(hs[i].row.name, hs[i].row.value)
  {
    if hs == [] then [] else [AddHttpHeader(hs[0].row.name, hs[0].row.value)] + HeaderCalls(hs[1..])
  }

  /** The call for one tunnel row; an unknown tunnel type sends nothing. */
  function TunnelCall(t: Tunnel): seq<EngineCall>
  {
    if t.tunnelType == "udp" then [AddTunnelUdp(t.localHost, t.localPort, t.remoteHost, t.remotePort, t.timeoutSecs)]
    else if t.tunnelType == "tcp" then [AddTunnelTcp(t.localHost, t.localPort, t.remoteHost, t.remotePort)]
    else if t.tunnelType == "socks5" then [AddTunnelSocks5(t.localHost, t.localPort, t.timeoutSecs)]
    else []
  }

  function TunnelCalls(ts: seq<Entry<Tunnel>>): seq<EngineCall>
  {
    if ts == [] then [] else TunnelCall(ts[0].row) + TunnelCalls(ts[1..])
  }

  predicate KnownTunnelType(t: Tunnel)
  {
    t.tunnelType == "udp" || t.tunnelType == "tcp" || t.tunnelType == "socks5"
  }

  /** The tunnel rows of a known type, in stored order. */
  function KnownTunnels(ts: seq<Entry<Tunnel>>): seq<Tunnel>
  {
    if ts == [] then [] else (if KnownTunnelType(ts[0].row) then [ts[0].row] else []) + KnownTunnels(ts[1..])
  }

  /**
   * Exactly one tunnel call per tunnel of a known type, in stored order:
   * udp and tcp carry the remote endpoint, socks5 has none.
   */
  lemma {:induction false} TunnelCallsDispatch(ts: seq<Entry<Tunnel>>)
    ensures |TunnelCalls(ts)| == |KnownTunnels(ts)|
    ensures forall i :: 0 <= i < |KnownTunnels(ts)| ==> [TunnelCalls(ts)[i]] == TunnelCall(KnownTunnels(ts)[i])
  {
    if ts != [] {
      TunnelCallsDispatch(ts[1..]);
      var t := ts[0].row;
      if KnownTunnelType(t) {
        assert KnownTunnels(ts) == [t] + KnownTunnels(ts[1..]);
        assert TunnelCalls(ts) == TunnelCall(t) + TunnelCalls(ts[1..]);
        forall i | 0 <= i < |KnownTunnels(ts)| ensures [TunnelCalls(ts)[i]] == TunnelCall(KnownTunnels(ts)[i]) {
          if i > 0 {
            assert TunnelCalls(ts)[i] == TunnelCalls(ts[1..])[i - 1];
          }
        }
      }
    }
  }

  /** The call for one restriction row; an unknown restriction type sends nothing. */
  function RestrictionCall(r: Restriction): seq<EngineCall>
  {
    if r.restrictionType == "target" then [AddRestrictTo(r.value)]
    else if r.restrictionType == "path_prefix" then [AddRestrictPathPrefix(r.value)]
    else []
  }

  function RestrictionCalls(rs: seq<Entry<Restriction>>): seq<EngineCall>
  {
    if rs == [] then [] else RestrictionCall(rs[0].row) + RestrictionCalls(rs[1..])
  }

  predicate KnownRestrictionType(r: Restriction)
  {
    r.restrictionType == "target" || r.restrictionType == "path_prefix"
  }

  function KnownRestrictions(rs: seq<Entry<Restriction>>): seq<Restriction>
  {
    if rs == [] then [] else (if KnownRestrictionType(rs[0].row) then [rs[0].row] else []) + KnownRestrictions(rs[1..])
  }

  /** Exactly one call per restriction of a known type, in stored order. */
  lemma {:induction false} RestrictionCallsDispatch(rs: seq<Entry<Restriction>>)
    ensures |RestrictionCalls(rs)| == |KnownRestrictions(rs)|
    ensures forall i :: 0 <= i < |KnownRestrictions(rs)| ==>
      [RestrictionCalls(rs)[i]] == RestrictionCall(KnownRestrictions(rs)[i])
  {
    if rs != [] {
      RestrictionCallsDispatch(rs[1..]);
      var r := rs[0].row;
      if KnownRestrictionType(r) {
        assert KnownRestrictions(rs) == [r] + KnownRestrictions(rs[1..]);
        assert RestrictionCalls(rs) == RestrictionCall(r) + RestrictionCalls(rs[1..]);
        forall i | 0 <= i < |KnownRestrictions(rs)|
          ensures [RestrictionCalls(rs)[i]] == RestrictionCall(KnownRestrictions(rs)[i])
        {
          if i > 0 {
            assert RestrictionCalls(rs)[i] == RestrictionCalls(rs[1..])[i - 1];
          }
        }
      }
    }
  }

  // ---- Whole plans ----

  /** Everything `_start_client` sends to the engine when its checks pass, in order. */
  function ClientPlan(cfg: Row, hs: seq<Entry<Header>>, ts: seq<Entry<Tunnel>>, logLevel: LogLevel): seq<EngineCall>
    requires "remote_url" in cfg && Covers(CLIENT_SETTERS, cfg)
  {
    [NewClient(cfg["remote_url"], logLevel)] + Setters(CLIENT_SETTERS, cfg) + HeaderCalls(hs) + TunnelCalls(ts)
      + [StartEngine(ClientRole)]
  }

  /** Everything `_start_server` sends to the engine when its check passes, in order. */
  function ServerPlan(cfg: Row, rs: seq<Entry<Restriction>>, logLevel: LogLevel): seq<EngineCall>
    requires "bind_url" in cfg && Covers(SERVER_SETTERS, cfg)
  {
    [NewServer(cfg["bind_url"], logLevel)] + Setters(SERVER_SETTERS, cfg) + RestrictionCalls(rs) + [StartEngine(ServerRole)]
  }

  /** Rank of a call within a start: handle, setters, headers, tunnels or restrictions, start. */
  function Phase(c: EngineCall): nat
  {
    match c
    case NewClient(_, _) => 0
    case NewServer(_, _) => 0
    case SetOption(_, _) => 1
    case SetFlag(_) => 1
    case AddHttpHeader(_, _) => 2
    case StartEngine(_) => 4
    case StopEngine(_) => 5
    case FreeEngine(_) => 5
    case _ => 3
  }

  predicate PhasesAre(s: seq<EngineCall>, p: nat)
  {
    forall i :: 0 <= i < |s| ==> Phase(s[i]) == p
  }

  predicate Ordered(plan: seq<EngineCall>)
  {
    forall i, j :: 0 <= i < j < |plan| ==> Phase(plan[i]) <= Phase(plan[j])
  }

  lemma {:induction false} SetterPhases(specs: seq<SetterSpec>, cfg: Row)
    requires Covers(specs, cfg)
    ensures PhasesAre(Setters(specs, cfg), 1)
    decreases |specs|
  {
    if specs != [] {
      SetterPhases(specs[1..], cfg);
    }
  }

  lemma {:induction false} TunnelPhases(ts: seq<Entry<Tunnel>>)
    ensures PhasesAre(TunnelCalls(ts), 3)
  {
    if ts != [] {
      TunnelPhases(ts[1..]);
    }
  }

  lemma {:induction false} RestrictionPhases(rs: seq<Entry<Restriction>>)
    ensures PhasesAre(RestrictionCalls(rs), 3)
  {
    if rs != [] {
      RestrictionPhases(rs[1..]);
    }
  }

  lemma OrderedConcat(a: seq<EngineCall>, b: seq<EngineCall>, pa: nat, pb: nat)
    requires Ordered(a) && (forall i :: 0 <= i < |a| ==> Phase(a[i]) <= pa)
    requires PhasesAre(b, pb) && pa <= pb
    ensures Ordered(a + b) && forall i :: 0 <= i < |a + b| ==> Phase((a + b)[i]) <= pb
  {
  }

  /**
   * The client adapter creates the handle first, then sends setters,
   * headers and tunnels in that order, and starts the engine last and only once.
   */
  lemma ClientPlanOrder(cfg: Row, hs: seq<Entry<Header>>, ts: seq<Entry<Tunnel>>, logLevel: LogLevel)
    requires "remote_url" in cfg && Covers(CLIENT_SETTERS, cfg)
    ensures var plan := ClientPlan(cfg, hs, ts, logLevel);
      && Ordered(plan)
      && plan[0] == NewClient(cfg["remote_url"], logLevel)
      && plan[|plan| - 1] == StartEngine(ClientRole)
      && forall i :: 0 <= i < |plan| - 1 ==> !plan[i].StartEngine?
  {
    var s := Setters(CLIENT_SETTERS, cfg);
    SetterPhases(CLIENT_SETTERS, cfg);
    TunnelPhases(ts);
    var a := [NewClient(cfg["remote_url"], logLevel)];
    OrderedConcat(a, s, 0, 1);
    OrderedConcat(a + s, HeaderCalls(hs), 1, 2);
    OrderedConcat(a + s + HeaderCalls(hs), TunnelCalls(ts), 2, 3);
    OrderedConcat(a + s + HeaderCalls(hs) + TunnelCalls(ts), [StartEngine(ClientRole)], 3, 4);
  }

  /** The server adapter creates the handle, sends setters, then restrictions, and starts last and only once. */
  lemma ServerPlanOrder(cfg: Row, rs: seq<Entry<Restriction>>, logLevel: LogLevel)
    requires "bind_url" in cfg && Covers(SERVER_SETTERS, cfg)
    ensures var plan := ServerPlan(cfg, rs, logLevel);
      && Ordered(plan)
      && plan[0] == NewServer(cfg["bind_url"], logLevel)
      && plan[|plan| - 1] == StartEngine(ServerRole)
      && forall i :: 0 <= i < |plan| - 1 ==> !plan[i].StartEngine?
  {
    var s := Setters(SERVER_SETTERS, cfg);
    SetterPhases(SERVER_SETTERS, cfg);
    RestrictionPhases(rs);
    var a := [NewServer(cfg["bind_url"], logLevel)];
    OrderedConcat(a, s, 0, 1);
    OrderedConcat(a + s, RestrictionCalls(rs), 1, 3);
    OrderedConcat(a + s + RestrictionCalls(rs), [StartEngine(ServerRole)], 3, 4);
  }

  /** The calls that release a held handle in `stop`: stop (its failure is only logged), then free. */
  function ReleaseCalls(role: Role): seq<EngineCall>
  {
    [StopEngine(role), FreeEngine(role)]
  }
}
