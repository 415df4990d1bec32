/**
 * The lifecycle controller of the wstunnel bridge (wstunnel_bridge/state.py):
 * uninitialized -> initialized -> started <-> stopped -> closed, backed by
 * the store of module WstDb.
 *
 * The engine handles are modelled by which of them is held; every call into
 * the engine is appended to the ghost `trace`. What the engine does with a
 * call is decided by a `Fault` parameter (the call that raises, if any). The
 * database file is a `Result` parameter: the image it holds, or the text of
 * the error raised while opening it.
 */
module WstState {
  import opened Wrappers
  import opened Strings
  import opened Tables
  import opened WstTypes
  import opened WstDb
  import opened WstEngine

  datatype Status = Uninitialized | Initialized | Started | Stopped | Closed
  {
    /** The status string the controller reports and writes to `config.state`. */
    function Name(): string
    {
      match this
      case Uninitialized => "uninitialized"
      case Initialized => "initialized"
      case Started => "started"
      case Stopped => "stopped"
      case Closed => "closed"
    }
  }

  lemma NamesDistinct(a: Status, b: Status)
    ensures a.Name() == b.Name() <==> a == b
  {
  }

  /** The controller's own error codes, which the engine's code table does not list. */
  datatype StateCode = NOT_INITIALIZED | DB_OPEN | INVALID_STATE

  /** What a controller operation raises. */
  datatype Failure = Raised(err: WstunnelError) | StateError(code: StateCode, detail: string)

  /** Member lookup `ErrorCode.<name>` on the enum as types.py declares it; None where Python raises AttributeError. */
  function ErrorCodeMember(name: string): (r: Option<ErrorCode>)
    ensures r.Some? ==> r.value != OK || name == "OK"
  {
    match name
    case "OK" => Some(OK)
    case "ALREADY_RUNNING" => Some(ALREADY_RUNNING)
    case "INVALID_PARAM" => Some(INVALID_PARAM)
    case "RUNTIME" => Some(RUNTIME)
    case "START_FAILED" => Some(START_FAILED)
    case "NOT_RUNNING" => Some(NOT_RUNNING)
    case "CONFIG_NULL" => Some(CONFIG_NULL)
    case _ => None
  }

  /** What `raise WstunnelError(ErrorCode.<name>, detail)` raises as written. */
  datatype Raise = RaisesError(err: WstunnelError) | RaisesAttributeError(name: string)

  function RaiseAsWritten(name: string, detail: string): Raise
  {
    match ErrorCodeMember(name)
    case Some(c) => RaisesError(NewError(CodeValue(c), detail))
    case None => RaisesAttributeError(name)
  }

  /**
   * The three codes the controller raises are not members of ErrorCode, so
   * each of those raise statements raises AttributeError instead of a
   * WstunnelError; the model uses the named StateCode instead.
   */
  lemma StateCodesMissing(detail: string)
    ensures RaiseAsWritten("INVALID_STATE", detail) == RaisesAttributeError("INVALID_STATE")
    ensures RaiseAsWritten("NOT_INITIALIZED", detail) == RaisesAttributeError("NOT_INITIALIZED")
    ensures RaiseAsWritten("DB_OPEN", detail) == RaisesAttributeError("DB_OPEN")
    ensures RaiseAsWritten("INVALID_PARAM", detail).RaisesError?
  {
  }

  /** The engine-code failure `WstunnelError(code, detail)`. */
  function Fail(code: ErrorCode, detail: string): Failure
  {
    Raised(NewError(CodeValue(code), detail))
  }

  /** `str(v)` for a column value. */
  function ValueText(v: Value): string
  {
    match v
    case Text(s) => s
    case Int(i) => IntToString(i)
  }

  /**
   * What `start` does once the state check has passed: fail on an unknown
   * mode or on a missing required setting, or send the adapter's plan with
   * the role whose handle the controller then holds.
   */
  function AdapterPlan(img: DbImage, logLevel: LogLevel): (r: Result<(Role, seq<EngineCall>), Failure>)
    requires WellFormed(img) && Seeded(img)
    ensures var mode := img.config.value["mode"];
      && (mode != Text("client") && mode != Text("server") ==>
            r == Err(Fail(INVALID_PARAM, "Unknown mode: " + ValueText(mode))))
      && (mode == Text("client") ==>
          var cfg := img.clientConfig.value;
          && (!Truthy(cfg["remote_url"]) ==> r == Err(Fail(INVALID_PARAM, "remote_url is required")))
          && (Truthy(cfg["remote_url"]) && img.tunnels.entries == [] ==>
                r == Err(Fail(INVALID_PARAM, "At least one tunnel is required")))
          && (Truthy(cfg["remote_url"]) && img.tunnels.entries != [] ==>
                r == Ok((ClientRole, ClientPlan(cfg, img.headers.entries, img.tunnels.entries, logLevel)))))
      && (mode == Text("server") ==>
          var cfg := img.serverConfig.value;
          && (!Truthy(cfg["bind_url"]) ==> r == Err(Fail(INVALID_PARAM, "bind_url is required")))
          && (Truthy(cfg["bind_url"]) ==>
                r == Ok((ServerRole, ServerPlan(cfg, img.restrictions.entries, logLevel)))))
  {
    var mode := img.config.value["mode"];
    if mode == Text("client") then
      var cfg := img.clientConfig.value;
      ClientRowFits(cfg);
      if !Truthy(cfg["remote_url"]) then Err(Fail(INVALID_PARAM, "remote_url is required"))
      else if img.tunnels.entries == [] then Err(Fail(INVALID_PARAM, "At least one tunnel is required"))
      else Ok((ClientRole, ClientPlan(cfg, img.headers.entries, img.tunnels.entries, logLevel)))
    else if mode == Text("server") then
      var cfg := img.serverConfig.value;
      ServerRowFits(cfg);
      if !Truthy(cfg["bind_url"]) then Err(Fail(INVALID_PARAM, "bind_url is required"))
      else Ok((ServerRole, ServerPlan(cfg, img.restrictions.entries, logLevel)))
    else Err(Fail(INVALID_PARAM, "Unknown mode: " + ValueText(mode)))
  }

  /**
   * A successful plan starts with the handle's creation and ends with the
   * single start call of the role whose handle is held.
   */
  lemma AdapterPlanShape(img: DbImage, logLevel: LogLevel)
    requires WellFormed(img) && Seeded(img) && AdapterPlan(img, logLevel).Ok?
    ensures var (role, plan) := AdapterPlan(img, logLevel).value;
      && Ordered(plan) && |plan| >= 2
      && plan[|plan| - 1] == StartEngine(role)
      && (forall i :: 0 <= i < |plan| - 1 ==> !plan[i].StartEngine?)
      && (role == ClientRole <==> plan[0].NewClient?)
  {
    var mode := img.config.value["mode"];
    if mode == Text("client") {
      ClientRowFits(img.clientConfig.value);
      ClientPlanOrder(img.clientConfig.value, img.headers.entries, img.tunnels.entries, logLevel);
    } else {
      ServerRowFits(img.serverConfig.value);
      ServerPlanOrder(img.serverConfig.value, img.restrictions.entries, logLevel);
    }
  }

  /** How `start` reports an engine failure: WstunnelError unchanged, anything else as START_FAILED. */
  function StartFailure(e: AdapterError): (f: Failure)
    ensures e.Wst? ==> f == Raised(e.err)
    ensures e.Other? ==> f.Raised? && f.err.code == Known(START_FAILED) && f.err.detail == e.message
  {
    match e
    case Wst(err) => Raised(err)
    case Other(m) => CodeOfValue(START_FAILED); Fail(START_FAILED, m)
  }

  /** What a query of the held handle answers; None where the query raises. */
  datatype Probe = Probe(running: Option<bool>, lastError: Option<string>)

  /** A value of the `get_status` dictionary. */
  datatype Info = Col(v: Value) | Bool(b: bool)

  /** The file after `init`: migrated, seeded, and in state "initialized". */
  function InitializedImage(file: DbImage, mode: string, now: int): (r: DbImage)
    ensures Seeded(r) && "state" in r.config.value && r.config.value["state"] == Text("initialized")
    ensures r.userVersion >= SCHEMA_VERSION
    ensures r.tunnels == file.tunnels && r.restrictions == file.restrictions && r.headers == file.headers
  {
    var seeded := SeedConfig(Migrate(file), mode, now);
    seeded.(config := SetConfigColumn(seeded.config, "state", Text("initialized"), now))
  }

  /** Opens the store on `file`, seeds its singleton rows and records "initialized". */
  method OpenSeeded(file: DbImage, mode: string, now: int) returns (store: WstunnelDB)
    requires WellFormed(file)
    ensures fresh(store) && store.Valid() && !store.closed
    ensures store.Image() == InitializedImage(file, mode, now)
  {
    store := new WstunnelDB.Open(file);
    store.InitConfig(mode, now);
    store.SetState("initialized", now);
  }

  class WstunnelState {
    var db: WstunnelDB?
    var clientHeld: bool
    var serverHeld: bool
    var status: Status
    var lastError: string
    /** Every engine call made so far, in order. */
    ghost var trace: seq<EngineCall>

    ghost predicate Valid()
      reads this, db
    {
      && (db == null <==> status in {Uninitialized, Closed})
      && (db != null ==> db.Valid() && Seeded(db.Image()) && !db.closed)
      && ((clientHeld || serverHeld) <==> status == Started)
      && !(clientHeld && serverHeld)
    }

    /** The state column of the open store, if any. */
    function StoredState(): Option<Value>
      reads this, db
      requires Valid()
    {
      if db == null then None else Some(db.config.value["state"])
    }

    constructor ()
      ensures Valid() && status == Uninitialized && lastError == "" && db == null
      ensures !clientHeld && !serverHeld && trace == []
    {
      db, clientHeld, serverHeld := null, false, false;
      status, lastError := Uninitialized, "";
      trace := [];
    }

    /** `_require_db`, and the `db()` accessor built on it. */
    function Db(): (r: Result<WstunnelDB, Failure>)
      reads this
      ensures r.Ok? <==> db != null
      ensures r.Ok? ==> r.value == db
      ensures r.Err? ==> r.error == StateError(NOT_INITIALIZED, "DB not open")
    {
      if db == null then Err(StateError(NOT_INITIALIZED, "DB not open")) else var d: WstunnelDB := db; Ok(d)
    }

    /** Sends `plan` call by call until the call at `fault.at` raises. */
    method Emit(plan: seq<EngineCall>, fault: Fault) returns (r: Option<AdapterError>)
      modifies this
      ensures 0 <= fault.at < |plan| ==> r == Some(fault.kind) && trace == old(trace) + plan[..fault.at + 1]
      ensures !(0 <= fault.at < |plan|) ==> r.None? && trace == old(trace) + plan
      ensures db == old(db) && clientHeld == old(clientHeld) && serverHeld == old(serverHeld)
      ensures status == old(status) && lastError == old(lastError)
    {
      var i := 0;
      while i < |plan|
        invariant 0 <= i <= |plan|
        invariant trace == old(trace) + plan[..i]
        invariant !(0 <= fault.at < i)
        invariant db == old(db) && clientHeld == old(clientHeld) && serverHeld == old(serverHeld)
        invariant status == old(status) && lastError == old(lastError)
      {
        trace := trace + [plan[i]];
        if i == fault.at {
          assert plan[..i + 1] == plan[..i] + [plan[i]];
          return Some(fault.kind);
        }
        i := i + 1;
      }
      assert plan[..i] == plan;
      return None;
    }

    /** `stop`: release the held handle, whatever its stop call does, and record "stopped". */
    method Stop(now: int) returns (r: Result<(), Failure>)
      requires Valid()
      modifies this, db
      ensures Valid()
      ensures old(status) != Started ==>
        && r == Err(StateError(INVALID_STATE, "Cannot stop from '" + old(status).Name() + "'"))
        && status == old(status) && trace == old(trace) && db == old(db)
        && (db != null ==> db.Image() == old(db.Image()))
      ensures old(status) == Started ==>
        && r == Ok(()) && status == Stopped && !clientHeld && !serverHeld
        && db == old(db) && db.Image() == old(db.Image()).(config := SetConfigColumn(old(db.config), "state", Text("stopped"), now))
        && trace == old(trace) + (if old(clientHeld) then ReleaseCalls(ClientRole) else ReleaseCalls(ServerRole))
      ensures lastError == old(lastError)
    {
      if status != Started {
        return Err(StateError(INVALID_STATE, "Cannot stop from '" + status.Name() + "'"));
      }
      if clientHeld {
        trace := trace + ReleaseCalls(ClientRole);
        clientHeld := false;
      }
      if serverHeld {
        trace := trace + ReleaseCalls(ServerRole);
        serverHeld := false;
      }
      db.SetState("stopped", now);
      status := Stopped;
      r := Ok(());
    }

    /**
     * `_close_internal`: stop if started, close the store, and end closed
     * with no error. The closed store keeps what was written last: the
     * "stopped" state when the controller was started, and otherwise its
     * contents as they were.
     */
    method Close(now: int)
      requires Valid()
      modifies this, db
      ensures Valid() && status == Closed && db == null && lastError == ""
      ensures !clientHeld && !serverHeld
      ensures old(db) != null ==> old(db).closed
      ensures old(db) != null && old(status) == Started ==>
                old(db).Image() == old(db.Image()).(config := SetConfigColumn(old(db.config), "state", Text("stopped"), now))
      ensures old(db) != null && old(status) != Started ==> old(db).Image() == old(db.Image())
      ensures old(status) == Started ==>
        trace == old(trace) + (if old(clientHeld) then ReleaseCalls(ClientRole) else ReleaseCalls(ServerRole))
      ensures old(status) != Started ==> trace == old(trace)
    {
      if status == Started {
        var _ := Stop(now);
      }
      if db != null {
        db.Close();
        db := null;
      }
      status := Closed;
      lastError := "";
    }

    /** `init`: close a live controller, open the file, seed it and record "initialized". */
    method Init(file: Result<DbImage, string>, mode: string, now: int) returns (r: Result<(), Failure>)
      requires Valid()
      requires file.Ok? ==> WellFormed(file.value)
      modifies this, db
      ensures Valid() && !clientHeld && !serverHeld
      ensures old(db) != null ==> old(db).closed
      ensures old(status) == Started ==>
        trace == old(trace) + (if old(clientHeld) then ReleaseCalls(ClientRole) else ReleaseCalls(ServerRole))
      ensures old(status) != Started ==> trace == old(trace)
      ensures file.Err? ==>
        && r == Err(StateError(DB_OPEN, file.error)) && db == null
        && status == (if old(status) == Uninitialized then Uninitialized else Closed)
        && lastError == (if old(status) in {Uninitialized, Closed} then old(lastError) else "")
      ensures file.Ok? ==>
        && r == Ok(()) && status == Initialized && lastError == "" && db != null && fresh(db)
        && db.Image() == InitializedImage(file.value, mode, now)
        && StoredState() == Some(Text("initialized"))
    {
      if status != Uninitialized && status != Closed {
        Close(now);
      }
      r := OpenFresh(file, mode, now);
    }

    /** The part of `init` that runs once no store is open. */
    method OpenFresh(file: Result<DbImage, string>, mode: string, now: int) returns (r: Result<(), Failure>)
      requires Valid() && db == null
      requires file.Ok? ==> WellFormed(file.value)
      modifies this
      ensures Valid() && !clientHeld && !serverHeld && trace == old(trace)
      ensures file.Err? ==>
        r == Err(StateError(DB_OPEN, file.error)) && db == null && status == old(status) && lastError == old(lastError)
      ensures file.Ok? ==>
        && r == Ok(()) && status == Initialized && lastError == "" && db != null && fresh(db)
        && db.Image() == InitializedImage(file.value, mode, now)
    {
      if file.Err? {
        return Err(StateError(DB_OPEN, file.error));
      }
      var store := OpenSeeded(file.value, mode, now);
      db := store;
      status := Initialized;
      lastError := "";
      r := Ok(());
    }

    /**
     * The second half of `start`: send the adapter's plan; only when every
     * call succeeds is the handle held and "started" recorded.
     */
    method Launch(role: Role, plan: seq<EngineCall>, fault: Fault, now: int) returns (r: Result<(), Failure>)
      requires Valid() && status in {Initialized, Stopped}
      modifies this, db
      ensures Valid() && db == old(db)
      ensures 0 <= fault.at < |plan| ==>
        && r == Err(StartFailure(fault.kind)) && status == old(status)
        && trace == old(trace) + plan[..fault.at + 1]
        && lastError == (if fault.kind.Other? then fault.kind.message else old(lastError))
        && db.Image() == old(db.Image())
      ensures !(0 <= fault.at < |plan|) ==>
        && r == Ok(()) && status == Started && trace == old(trace) + plan && lastError == old(lastError)
        && clientHeld == (role == ClientRole) && serverHeld == (role == ServerRole)
        && db.Image() == old(db.Image()).(config := SetConfigColumn(old(db.config), "state", Text("started"), now))
    {
      var raised := Emit(plan, fault);
      if raised.Some? {
        if raised.value.Other? {
          lastError := raised.value.message;
        }
        return Err(StartFailure(raised.value));
      }
      if role == ClientRole {
        clientHeld := true;
      } else {
        serverHeld := true;
      }
      db.SetState("started", now);
      status := Started;
      r := Ok(());
    }

    /**
     * `start`: legal from initialized or stopped. The adapter's checks come
     * first and leave everything unchanged when they fail; then the plan is sent.
     */
    method Start(logLevel: LogLevel, fault: Fault, now: int) returns (r: Result<(), Failure>)
      requires Valid()
      modifies this, db
      ensures Valid() && db == old(db)
      ensures old(status) !in {Initialized, Stopped} ==>
        && r == Err(StateError(INVALID_STATE, "Cannot start from '" + old(status).Name() + "'"))
        && status == old(status) && trace == old(trace) && lastError == old(lastError)
        && (db != null ==> db.Image() == old(db.Image()))
      ensures old(status) in {Initialized, Stopped} && AdapterPlan(old(db.Image()), logLevel).Err? ==>
        && r == Err(AdapterPlan(old(db.Image()), logLevel).error)
        && status == old(status) && trace == old(trace) && lastError == old(lastError)
        && db.Image() == old(db.Image())
      ensures old(status) in {Initialized, Stopped} && AdapterPlan(old(db.Image()), logLevel).Ok? ==>
        var (role, plan) := AdapterPlan(old(db.Image()), logLevel).value;
        if 0 <= fault.at < |plan| then
          && r == Err(StartFailure(fault.kind)) && status == old(status)
          && trace == old(trace) + plan[..fault.at + 1]
          && lastError == (if fault.kind.Other? then fault.kind.message else old(lastError))
          && db.Image() == old(db.Image())
        else
          && r == Ok(()) && status == Started && trace == old(trace) + plan && lastError == old(lastError)
          && clientHeld == (role == ClientRole) && serverHeld == (role == ServerRole)
          && db.Image() == old(db.Image()).(config := SetConfigColumn(old(db.config), "state", Text("started"), now))
    {
      if status != Initialized && status != Stopped {
        return Err(StateError(INVALID_STATE, "Cannot start from '" + status.Name() + "'"));
      }
      var planned := AdapterPlan(db.Image(), logLevel);
      if planned.Err? {
        return Err(planned.error);
      }
      r := Launch(planned.value.0, planned.value.1, fault, now);
    }

    /** `get_status`. */
    function GetStatus(probe: Probe): (r: map<string, Info>)
      reads this, db
      requires Valid()
      ensures "status" in r && "last_error" in r
      ensures r["status"] == Col(Text(status.Name())) && r["last_error"] == Col(Text(lastError))
      ensures ("mode" in r) == (db != null) && ("tunnels_count" in r) == (db != null)
      ensures ("restrictions_count" in r) == (db != null)
      ensures db != null ==>
        && r["mode"] == Col(db.config.value["mode"])
        && r["tunnels_count"] == Col(Int(|db.tunnels.entries|))
        && r["restrictions_count"] == Col(Int(|db.restrictions.entries|))
      ensures "is_running" in r <==> status == Started && probe.running.Some?
      ensures "is_running" in r ==> r["is_running"] == Bool(probe.running.value)
      ensures "runtime_error" in r <==>
        status == Started && probe.running.Some? && probe.lastError.Some? && probe.lastError.value != ""
      ensures "runtime_error" in r ==> r["runtime_error"] == Col(Text(probe.lastError.value))
      ensures r.Keys <= {"status", "last_error", "mode", "tunnels_count", "restrictions_count", "is_running", "runtime_error"}
    {
      var base := map["status" := Col(Text(status.Name())), "last_error" := Col(Text(lastError))];
      var withDb :=
        if db == null then base
        else base["mode" := Col(db.config.value["mode"])]
                 ["tunnels_count" := Col(Int(|db.tunnels.entries|))]
                 ["restrictions_count" := Col(Int(|db.restrictions.entries|))];
      if !(clientHeld || serverHeld) || probe.running.None? then withDb
      else
        var running := withDb["is_running" := Bool(probe.running.value)];
        if probe.lastError.Some? && probe.lastError.value != "" then
          running["runtime_error" := Col(Text(probe.lastError.value))]
        else running
    }
  }
}
