/**
 * The SQLite store of the wstunnel bridge
 * (wstunnel-bridge/linux-arm64/wstunnel_bridge/db.py).
 *
 * The three singleton rows (config, client_config, server_config) are
 * column maps, so that the allow-listed partial update is a map update;
 * the three collections are autoincrement tables. Wall-clock seconds are
 * passed in as `now`.
 */
module WstDb {
  import opened Wrappers
  import opened Tables

  const SCHEMA_VERSION: int := 1

  /** A column value as SQLite hands it back to Python. */
  datatype Value = Text(s: string) | Int(i: int)

  /** Python truthiness of a column value. */
  predicate Truthy(v: Value)
  {
    match v
    case Text(s) => s != ""
    case Int(i) => i != 0
  }

  type Row = map<string, Value>

  const CONFIG_DEFAULTS: Row := map[
    "state" := Text("initialized"), "mode" := Text("client"), "updated_at" := Int(0)]

  const CLIENT_DEFAULTS: Row := map[
    "remote_url" := Text(""),
    "http_upgrade_path_prefix" := Text("v1"),
    "http_upgrade_credentials" := Text(""),
    "tls_verify" := Int(0),
    "tls_sni_override" := Text(""),
    "tls_sni_disable" := Int(0),
    "websocket_ping_frequency" := Int(30),
    "websocket_mask_frame" := Int(0),
    "connection_min_idle" := Int(0),
    "connection_retry_max_backoff" := Int(300),
    "http_proxy" := Text(""),
    "worker_threads" := Int(2),
    "updated_at" := Int(0)]

  const SERVER_DEFAULTS: Row := map[
    "bind_url" := Text(""),
    "tls_certificate" := Text(""),
    "tls_private_key" := Text(""),
    "tls_client_ca_certs" := Text(""),
    "websocket_ping_frequency" := Int(30),
    "websocket_mask_frame" := Int(0),
    "worker_threads" := Int(2),
    "updated_at" := Int(0)]

  /** The columns `set_client_config` accepts. */
  const CLIENT_COLUMNS: set<string> := {
    "remote_url", "http_upgrade_path_prefix", "http_upgrade_credentials",
    "tls_verify", "tls_sni_override", "tls_sni_disable",
    "websocket_ping_frequency", "websocket_mask_frame",
    "connection_min_idle", "connection_retry_max_backoff",
    "http_proxy", "worker_threads"}

  /** The columns `set_server_config` accepts. */
  const SERVER_COLUMNS: set<string> := {
    "bind_url", "tls_certificate", "tls_private_key", "tls_client_ca_certs",
    "websocket_ping_frequency", "websocket_mask_frame", "worker_threads"}

  datatype Tunnel = Tunnel(tunnelType: string, localHost: string, localPort: int,
                           remoteHost: string, remotePort: int, timeoutSecs: int, createdAt: int)
  datatype Restriction = Restriction(restrictionType: string, value: string, createdAt: int)
  datatype Header = Header(name: string, value: string, createdAt: int)

  /** LookupError of the getters and ValueError of the partial update. */
  datatype DbError = NotSeeded(message: string) | UnknownColumns(columns: set<string>)

  /** The content of a database file: its user_version and its tables. */
  datatype DbImage = DbImage(
    userVersion: int,
    config: Option<Row>,
    clientConfig: Option<Row>,
    serverConfig: Option<Row>,
    tunnels: Table<Tunnel>,
    restrictions: Table<Restriction>,
    headers: Table<Header>)

  /** Every stored singleton row has its table's columns, and every table keeps its ids in order. */
  ghost predicate WellFormed(img: DbImage)
  {
    && (img.config.Some? ==> img.config.value.Keys == CONFIG_DEFAULTS.Keys)
    && (img.clientConfig.Some? ==> img.clientConfig.value.Keys == CLIENT_DEFAULTS.Keys)
    && (img.serverConfig.Some? ==> img.serverConfig.value.Keys == SERVER_DEFAULTS.Keys)
    && img.tunnels.Valid() && img.restrictions.Valid() && img.headers.Valid()
  }

  /** All three singleton rows exist, as `init_config` leaves them. */
  predicate Seeded(img: DbImage)
  {
    img.config.Some? && img.clientConfig.Some? && img.serverConfig.Some?
  }

  /** Whether `_migrate` executes the schema script. */
  predicate RunsDdl(img: DbImage)
  {
    img.userVersion < SCHEMA_VERSION
  }

  /**
   * `_migrate`: the `CREATE TABLE IF NOT EXISTS` script and the version bump
   * run only below version 1, and neither touches stored rows.
   */
  function Migrate(img: DbImage): (r: DbImage)
    ensures r.userVersion >= SCHEMA_VERSION
    ensures r.(userVersion := img.userVersion) == img
    ensures !RunsDdl(img) ==> r == img
  {
    if RunsDdl(img) then img.(userVersion := SCHEMA_VERSION) else img
  }

  /** Re-running the migration on a migrated file changes nothing and runs no DDL. */
  lemma MigrateIdempotent(img: DbImage)
    ensures !RunsDdl(Migrate(img))
    ensures Migrate(Migrate(img)) == Migrate(img)
  {
  }

  /** `_partial_update` applied to one singleton row. */
  function PartialUpdate(row: Option<Row>, allowed: set<string>, kwargs: map<string, Value>, now: int)
    : (r: Result<Option<Row>, DbError>)
    requires "updated_at" !in allowed
    ensures r.Err? <==> !(kwargs.Keys <= allowed)
    ensures r.Err? ==> r.error == UnknownColumns(kwargs.Keys - allowed)
    ensures r.Ok? && (kwargs == map[] || row.None?) ==> r.value == row
    ensures r.Ok? && row.Some? && kwargs != map[] ==>
      && r.value.Some?
      && r.value.value.Keys == row.value.Keys + kwargs.Keys + {"updated_at"}
      && r.value.value["updated_at"] == Int(now)
      && (forall c :: c in kwargs ==> r.value.value[c] == kwargs[c])
      && (forall c :: c in row.value && c !in kwargs && c != "updated_at" ==> r.value.value[c] == row.value[c])
  {
    if !(kwargs.Keys <= allowed) then Err(UnknownColumns(kwargs.Keys - allowed))
    else if kwargs == map[] || row.None? then Ok(row)
    else Ok(Some(row.value + kwargs + map["updated_at" := Int(now)]))
  }

  /** The two allow-lists are different: some client columns are refused by the server update. */
  lemma AllowListsDistinct()
    ensures "remote_url" in CLIENT_COLUMNS && "remote_url" !in SERVER_COLUMNS
    ensures "bind_url" in SERVER_COLUMNS && "bind_url" !in CLIENT_COLUMNS
    ensures PartialUpdate(Some(SERVER_DEFAULTS), SERVER_COLUMNS, map["remote_url" := Text("x")], 0).Err?
  {
  }

  /** `init_config`: INSERT OR IGNORE of the three singleton rows. */
  function SeedConfig(img: DbImage, mode: string, now: int): (r: DbImage)
    ensures Seeded(r)
    ensures r.config == (if img.config.Some? then img.config
                         else Some(CONFIG_DEFAULTS["mode" := Text(mode)]["updated_at" := Int(now)]))
    ensures img.clientConfig.Some? ==> r.clientConfig == img.clientConfig
    ensures img.serverConfig.Some? ==> r.serverConfig == img.serverConfig
    ensures r.(config := img.config, clientConfig := img.clientConfig, serverConfig := img.serverConfig) == img
  {
    img.(
      config := if img.config.Some? then img.config
                else Some(CONFIG_DEFAULTS["mode" := Text(mode)]["updated_at" := Int(now)]),
      clientConfig := if img.clientConfig.Some? then img.clientConfig
                      else Some(CLIENT_DEFAULTS["updated_at" := Int(now)]),
      serverConfig := if img.serverConfig.Some? then img.serverConfig
                      else Some(SERVER_DEFAULTS["updated_at" := Int(now)]))
  }

  /** A second `init_config` never overwrites: its mode has no effect once the row exists. */
  lemma InitConfigIdempotent(img: DbImage, m1: string, t1: int, m2: string, t2: int)
    ensures SeedConfig(SeedConfig(img, m1, t1), m2, t2) == SeedConfig(img, m1, t1)
  {
  }

  /** A seeded config row is in state "initialized" with the requested mode. */
  lemma SeededConfigRow(img: DbImage, mode: string, now: int)
    requires img.config.None?
    ensures var r := SeedConfig(img, mode, now);
      r.config.value["state"] == Text("initialized") && r.config.value["mode"] == Text(mode)
      && r.config.value["updated_at"] == Int(now)
  {
  }

  /** A seeded client row holds the schema's column defaults. */
  lemma SeededClientDefaults(img: DbImage, mode: string, now: int)
    requires img.clientConfig.None?
    ensures var m := SeedConfig(img, mode, now).clientConfig.value;
      && m["http_upgrade_path_prefix"] == Text("v1") && m["tls_verify"] == Int(0)
      && m["websocket_ping_frequency"] == Int(30) && m["connection_retry_max_backoff"] == Int(300)
      && m["worker_threads"] == Int(2) && m["remote_url"] == Text("")
      && (forall c :: c in CLIENT_COLUMNS ==> m[c] == CLIENT_DEFAULTS[c])
  {
    ClientSeedRow(SeedConfig(img, mode, now).clientConfig.value, now);
  }

  /** A seeded server row holds the schema's column defaults. */
  lemma SeededServerDefaults(img: DbImage, mode: string, now: int)
    requires img.serverConfig.None?
    ensures var m := SeedConfig(img, mode, now).serverConfig.value;
      && m["bind_url"] == Text("") && m["tls_certificate"] == Text("") && m["tls_private_key"] == Text("")
      && (forall c :: c in SERVER_COLUMNS ==> m[c] == SERVER_DEFAULTS[c])
  {
    ServerSeedRow(SeedConfig(img, mode, now).serverConfig.value, now);
  }

  lemma ClientSeedRow(m: Row, now: int)
    requires m == CLIENT_DEFAULTS["updated_at" := Int(now)]
    ensures m["http_upgrade_path_prefix"] == Text("v1") && m["tls_verify"] == Int(0)
    ensures m["websocket_ping_frequency"] == Int(30) && m["connection_retry_max_backoff"] == Int(300)
    ensures m["worker_threads"] == Int(2) && m["remote_url"] == Text("")
    ensures forall c :: c in CLIENT_COLUMNS ==> m[c] == CLIENT_DEFAULTS[c]
  {
    assert "updated_at" !in CLIENT_COLUMNS;
  }

  lemma ServerSeedRow(m: Row, now: int)
    requires m == SERVER_DEFAULTS["updated_at" := Int(now)]
    ensures m["bind_url"] == Text("") && m["tls_certificate"] == Text("") && m["tls_private_key"] == Text("")
    ensures forall c :: c in SERVER_COLUMNS ==> m[c] == SERVER_DEFAULTS[c]
  {
    assert "updated_at" !in SERVER_COLUMNS;
  }

  /** The getters: the stored row, or LookupError before seeding. */
  function GetRow(row: Option<Row>, what: string): (r: Result<Row, DbError>)
    ensures r.Ok? <==> row.Some?
    ensures r.Ok? ==> r.value == row.value
    ensures r.Err? ==> r.error == NotSeeded(what + " not initialized")
  {
    if row.None? then Err(NotSeeded(what + " not initialized")) else Ok(row.value)
  }

  /** `UPDATE config SET <column> = ?, updated_at = ? WHERE id = 1`; a missing row is left missing. */
  function SetConfigColumn(row: Option<Row>, column: string, v: Value, now: int): (r: Option<Row>)
    requires column != "updated_at"
    ensures r.Some? <==> row.Some?
    ensures r.Some? ==> r.value.Keys == row.value.Keys + {column, "updated_at"}
    ensures r.Some? ==> r.value[column] == v && r.value["updated_at"] == Int(now)
    ensures r.Some? ==> forall c :: c in row.value && c != column && c != "updated_at" ==> r.value[c] == row.value[c]
  {
    if row.None? then None else Some(row.value[column := v]["updated_at" := Int(now)])
  }

  class WstunnelDB {
    var userVersion: int
    var config: Option<Row>
    var clientConfig: Option<Row>
    var serverConfig: Option<Row>
    var tunnels: Table<Tunnel>
    var restrictions: Table<Restriction>
    var headers: Table<Header>
    var closed: bool

    function Image(): DbImage
      reads this
    {
      DbImage(userVersion, config, clientConfig, serverConfig, tunnels, restrictions, headers)
    }

    ghost predicate Valid()
      reads this
    {
      WellFormed(Image())
    }

    /** `WstunnelDB(path)`: opens the file holding `image` and runs the migration. */
    constructor Open(image: DbImage)
      requires WellFormed(image)
      ensures Valid() && Image() == Migrate(image) && !closed
    {
      var m := Migrate(image);
      userVersion, config, clientConfig, serverConfig := m.userVersion, m.config, m.clientConfig, m.serverConfig;
      tunnels, restrictions, headers := m.tunnels, m.restrictions, m.headers;
      closed := false;
    }

    method InitConfig(mode: string, now: int)
      requires Valid()
      modifies this
      ensures Valid() && Image() == SeedConfig(old(Image()), mode, now) && closed == old(closed)
    {
      var m := SeedConfig(Image(), mode, now);
      config, clientConfig, serverConfig := m.config, m.clientConfig, m.serverConfig;
    }

    function GetConfig(): (r: Result<Row, DbError>)
      reads this
      ensures r == GetRow(config, "Config")
    {
      GetRow(config, "Config")
    }

    function GetClientConfig(): (r: Result<Row, DbError>)
      reads this
      ensures r == GetRow(clientConfig, "Client config")
    {
      GetRow(clientConfig, "Client config")
    }

    function GetServerConfig(): (r: Result<Row, DbError>)
      reads this
      ensures r == GetRow(serverConfig, "Server config")
    {
      GetRow(serverConfig, "Server config")
    }

    method SetState(state: string, now: int)
      requires Valid()
      modifies this
      ensures Valid() && Image() == old(Image()).(config := SetConfigColumn(old(config), "state", Text(state), now))
      ensures closed == old(closed)
    {
      config := SetConfigColumn(config, "state", Text(state), now);
    }

    method SetMode(mode: string, now: int)
      requires Valid()
      modifies this
      ensures Valid() && Image() == old(Image()).(config := SetConfigColumn(old(config), "mode", Text(mode), now))
      ensures closed == old(closed)
    {
      config := SetConfigColumn(config, "mode", Text(mode), now);
    }

    method SetClientConfig(kwargs: map<string, Value>, now: int) returns (r: Result<(), DbError>)
      requires Valid()
      modifies this
      ensures Valid() && closed == old(closed)
      ensures match PartialUpdate(old(clientConfig), CLIENT_COLUMNS, kwargs, now)
              case Err(e) => r == Err(e) && Image() == old(Image())
              case Ok(row) => r == Ok(()) && Image() == old(Image()).(clientConfig := row)
    {
      match PartialUpdate(clientConfig, CLIENT_COLUMNS, kwargs, now)
      case Err(e) => r := Err(e);
      case Ok(row) => clientConfig := row; r := Ok(());
    }

    method SetServerConfig(kwargs: map<string, Value>, now: int) returns (r: Result<(), DbError>)
      requires Valid()
      modifies this
      ensures Valid() && closed == old(closed)
      ensures match PartialUpdate(old(serverConfig), SERVER_COLUMNS, kwargs, now)
              case Err(e) => r == Err(e) && Image() == old(Image())
              case Ok(row) => r == Ok(()) && Image() == old(Image()).(serverConfig := row)
    {
      match PartialUpdate(serverConfig, SERVER_COLUMNS, kwargs, now)
      case Err(e) => r := Err(e);
      case Ok(row) => serverConfig := row; r := Ok(());
    }

    method AddTunnel(tunnelType: string, localHost: string, localPort: int,
                     remoteHost: string, remotePort: int, timeoutSecs: int, now: int) returns (id: int)
      requires Valid()
      modifies this
      ensures Valid() && closed == old(closed)
      ensures id !in old(tunnels).Ids() && id == old(tunnels).lastId + 1
      ensures tunnels.entries == old(tunnels).entries
                + [Entry(id, Tunnel(tunnelType, localHost, localPort, remoteHost, remotePort, timeoutSecs, now))]
      ensures Image() == old(Image()).(tunnels := tunnels)
    {
      var t := Tunnel(tunnelType, localHost, localPort, remoteHost, remotePort, timeoutSecs, now);
      var res := tunnels.Insert(t);
      tunnels, id := res.0, res.1;
    }

    /** `list_tunnels`: the rows in ascending id order. */
    function ListTunnels(): (r: seq<Entry<Tunnel>>)
      reads this
      requires Valid()
      ensures forall i, j :: 0 <= i < j < |r| ==> r[i].id < r[j].id
    {
      tunnels.entries
    }

    method DeleteTunnel(id: int)
      requires Valid()
      modifies this
      ensures Valid() && closed == old(closed)
      ensures Image() == old(Image()).(tunnels := old(tunnels).Delete(id))
    {
      tunnels := tunnels.Delete(id);
    }

    method ClearTunnels()
      requires Valid()
      modifies this
      ensures Valid() && closed == old(closed)
      ensures Image() == old(Image()).(tunnels := old(tunnels).Clear())
    {
      tunnels := tunnels.Clear();
    }

    method AddRestriction(restrictionType: string, value: string, now: int) returns (id: int)
      requires Valid()
      modifies this
      ensures Valid() && closed == old(closed)
      ensures id !in old(restrictions).Ids() && id == old(restrictions).lastId + 1
      ensures restrictions.entries == old(restrictions).entries + [Entry(id, Restriction(restrictionType, value, now))]
      ensures Image() == old(Image()).(restrictions := restrictions)
    {
      var res := restrictions.Insert(Restriction(restrictionType, value, now));
      restrictions, id := res.0, res.1;
    }

    function ListRestrictions(): (r: seq<Entry<Restriction>>)
      reads this
      requires Valid()
      ensures forall i, j :: 0 <= i < j < |r| ==> r[i].id < r[j].id
    {
      restrictions.entries
    }

    method DeleteRestriction(id: int)
      requires Valid()
      modifies this
      ensures Valid() && closed == old(closed)
      ensures Image() == old(Image()).(restrictions := old(restrictions).Delete(id))
    {
      restrictions := restrictions.Delete(id);
    }

    method ClearRestrictions()
      requires Valid()
      modifies this
      ensures Valid() && closed == old(closed)
      ensures Image() == old(Image()).(restrictions := old(restrictions).Clear())
    {
      restrictions := restrictions.Clear();
    }

    method AddHttpHeader(name: string, value: string, now: int) returns (id: int)
      requires Valid()
      modifies this
      ensures Valid() && closed == old(closed)
      ensures id !in old(headers).Ids() && id == old(headers).lastId + 1
      ensures headers.entries == old(headers).entries + [Entry(id, Header(name, value, now))]
      ensures Image() == old(Image()).(headers := headers)
    {
      var res := headers.Insert(Header(name, value, now));
      headers, id := res.0, res.1;
    }

    function ListHttpHeaders(): (r: seq<Entry<Header>>)
      reads this
      requires Valid()
      ensures forall i, j :: 0 <= i < j < |r| ==> r[i].id < r[j].id
    {
      headers.entries
    }

    method DeleteHttpHeader(id: int)
      requires Valid()
      modifies this
      ensures Valid() && closed == old(closed)
      ensures Image() == old(Image()).(headers := old(headers).Delete(id))
    {
      headers := headers.Delete(id);
    }

    method ClearHttpHeaders()
      requires Valid()
      modifies this
      ensures Valid() && closed == old(closed)
      ensures Image() == old(Image()).(headers := old(headers).Clear())
    {
      headers := headers.Clear();
    }

    /** `close`: the connection is released; the stored tables are kept. */
    method Close()
      modifies this
      ensures closed && Image() == old(Image())
    {
      closed := true;
    }
  }
}
