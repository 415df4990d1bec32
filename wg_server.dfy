/**
 * The `server_config` row of bridge-db: one row per device id, holding the
 * server's endpoint, client networks, DNS servers, MTU, fwmark and hooks.
 * Optional columns are stored as NULL when empty and read back as "".
 */
module WgServer {
  import opened Wrappers
  import opened Strings

  /** `ServerConfig`, as the bridge reads and writes it. */
  datatype ServerConfig = ServerConfig(
    deviceId: int,
    endpoint: string,
    endpointV6: string,
    network: string,
    networkV6: string,
    dnsPrimary: string,
    dnsSecondary: string,
    dnsV6: string,
    mtu: int,
    fwmark: int,
    postUp: string,
    postDown: string)
  {
    /** `DNSString`: the primary server, then the secondary and the IPv6 one when set. */
    function DnsString(): (s: string)
      ensures s == dnsPrimary + Suffix(dnsSecondary) + Suffix(dnsV6)
    {
      var s := dnsPrimary;
      var s := if dnsSecondary != "" then s + ", " + dnsSecondary else s;
      if dnsV6 != "" then s + ", " + dnsV6 else s
    }

    /** `HasIPv6`. */
    predicate HasIPv6()
    {
      networkV6 != ""
    }
  }

  /** What `DnsString` appends for an optional server: nothing, or ", " and the server. */
  function Suffix(server: string): string
  {
    if server == "" then "" else ", " + server
  }

  /** The stored row: the columns SQLite may hold as NULL are options. */
  datatype ServerRow = ServerRow(
    endpoint: Option<string>,
    endpointV6: Option<string>,
    network: string,
    networkV6: Option<string>,
    dnsPrimary: string,
    dnsSecondary: Option<string>,
    dnsV6: Option<string>,
    mtu: int,
    fwmark: int,
    postUp: Option<string>,
    postDown: Option<string>)

  /** `nullStr`: "" becomes NULL, anything else is stored as is. */
  function NullStr(s: string): (r: Option<string>)
    ensures r.None? <==> s == ""
    ensures r.Some? ==> r.value == s
  {
    if s == "" then None else Some(s)
  }

  /** A nullable column as `GetServerConfig` reads it: NULL is "". */
  function OrEmpty(v: Option<string>): (s: string)
    ensures v.Some? ==> s == v.value
    ensures v.None? ==> s == ""
  {
    if v.Some? then v.value else ""
  }

  /**
   * The row `UpsertServerConfig` writes for `cfg`: the IPv6 endpoint, the IPv6
   * network and the IPv6 DNS server go through `nullStr`; the other text
   * columns are bound as plain strings, never NULL.
   */
  function ToRow(cfg: ServerConfig): (row: ServerRow)
    ensures row.endpoint == Some(cfg.endpoint) && row.dnsSecondary == Some(cfg.dnsSecondary)
    ensures row.postUp == Some(cfg.postUp) && row.postDown == Some(cfg.postDown)
    ensures row.endpointV6 == NullStr(cfg.endpointV6) && row.networkV6 == NullStr(cfg.networkV6)
    ensures row.dnsV6 == NullStr(cfg.dnsV6)
    ensures row.network == cfg.network && row.dnsPrimary == cfg.dnsPrimary
    ensures row.mtu == cfg.mtu && row.fwmark == cfg.fwmark
  {
    ServerRow(Some(cfg.endpoint), NullStr(cfg.endpointV6), cfg.network, NullStr(cfg.networkV6),
      cfg.dnsPrimary, Some(cfg.dnsSecondary), NullStr(cfg.dnsV6), cfg.mtu, cfg.fwmark,
      Some(cfg.postUp), Some(cfg.postDown))
  }

  /** The config `GetServerConfig` scans out of the row stored under `deviceId`. */
  function FromRow(deviceId: int, row: ServerRow): (cfg: ServerConfig)
    ensures cfg.deviceId == deviceId
    ensures cfg.endpoint == OrEmpty(row.endpoint) && cfg.endpointV6 == OrEmpty(row.endpointV6)
    ensures cfg.networkV6 == OrEmpty(row.networkV6) && cfg.dnsSecondary == OrEmpty(row.dnsSecondary)
    ensures cfg.dnsV6 == OrEmpty(row.dnsV6) && cfg.postUp == OrEmpty(row.postUp)
    ensures cfg.postDown == OrEmpty(row.postDown)
    ensures cfg.network == row.network && cfg.dnsPrimary == row.dnsPrimary
    ensures cfg.mtu == row.mtu && cfg.fwmark == row.fwmark
  {
    ServerConfig(deviceId, OrEmpty(row.endpoint), OrEmpty(row.endpointV6), row.network,
      OrEmpty(row.networkV6), row.dnsPrimary, OrEmpty(row.dnsSecondary), OrEmpty(row.dnsV6),
      row.mtu, row.fwmark, OrEmpty(row.postUp), OrEmpty(row.postDown))
  }

  /** Reading back what was upserted gives the same config: nothing is lost to NULL. */
  lemma RowRoundTrip(cfg: ServerConfig)
    ensures FromRow(cfg.deviceId, ToRow(cfg)) == cfg
  {
  }

  /** The message `GetServerConfig` gives when the device has no row. */
  function NoConfigError(deviceId: int): string
  {
    "no server config for device " + IntToString(deviceId)
  }

  /** `GetServerConfig` over the stored rows, keyed by device id. */
  function GetServerConfig(rows: map<int, ServerRow>, deviceId: int): (r: Result<ServerConfig, string>)
    ensures r.Err? <==> deviceId !in rows
    ensures r.Err? ==> r.error == NoConfigError(deviceId)
    ensures r.Ok? ==> r.value == FromRow(deviceId, rows[deviceId])
  {
    if deviceId in rows then Ok(FromRow(deviceId, rows[deviceId])) else Err(NoConfigError(deviceId))
  }

  /** `UpsertServerConfig`: INSERT OR REPLACE keyed by the device id. */
  function Upsert(rows: map<int, ServerRow>, cfg: ServerConfig): (r: map<int, ServerRow>)
    ensures r.Keys == rows.Keys + {cfg.deviceId}
    ensures r[cfg.deviceId] == ToRow(cfg)
    ensures forall d :: d in rows && d != cfg.deviceId ==> r[d] == rows[d]
  {
    rows[cfg.deviceId := ToRow(cfg)]
  }

  /** After an upsert, reading the same device gives back exactly the config written. */
  lemma UpsertThenGet(rows: map<int, ServerRow>, cfg: ServerConfig)
    ensures GetServerConfig(Upsert(rows, cfg), cfg.deviceId) == Ok(cfg)
  {
    RowRoundTrip(cfg);
  }

  /** The config `GetOrCreateServerConfig` creates when the device has none. */
  function DefaultConfig(deviceId: int, listenPort: int): (cfg: ServerConfig)
    ensures cfg.deviceId == deviceId && cfg.endpoint == "0.0.0.0:" + IntToString(listenPort)
    ensures cfg.network == "10.8.0.0/24" && cfg.dnsPrimary == "1.1.1.1" && cfg.dnsSecondary == "9.9.9.9"
    ensures cfg.mtu == 1420 && cfg.fwmark == 0
    ensures cfg.endpointV6 == cfg.networkV6 == cfg.dnsV6 == cfg.postUp == cfg.postDown == ""
    ensures !cfg.HasIPv6() && cfg.DnsString() == "1.1.1.1, 9.9.9.9"
  {
    ServerConfig(deviceId, "0.0.0.0:" + IntToString(listenPort), "", "10.8.0.0/24", "",
      "1.1.1.1", "9.9.9.9", "", 1420, 0, "", "")
  }

  /**
   * `GetOrCreateServerConfig`: an existing config is returned and nothing is
   * written; otherwise the defaults are stored and returned.
   */
  function GetOrCreate(rows: map<int, ServerRow>, deviceId: int, listenPort: int): (r: (map<int, ServerRow>, ServerConfig))
    ensures deviceId in rows ==> r.0 == rows && r.1 == FromRow(deviceId, rows[deviceId])
    ensures deviceId !in rows ==> r.1 == DefaultConfig(deviceId, listenPort) && r.0 == Upsert(rows, r.1)
    ensures GetServerConfig(r.0, deviceId) == Ok(r.1)
  {
    match GetServerConfig(rows, deviceId)
    case Ok(cfg) => (rows, cfg)
    case Err(_) =>
      var cfg := DefaultConfig(deviceId, listenPort);
      UpsertThenGet(rows, cfg);
      (Upsert(rows, cfg), cfg)
  }

  /** Calling `GetOrCreate` twice is the same as once. */
  lemma GetOrCreateIdempotent(rows: map<int, ServerRow>, deviceId: int, listenPort: int)
    ensures var (rows1, cfg1) := GetOrCreate(rows, deviceId, listenPort);
            GetOrCreate(rows1, deviceId, listenPort) == (rows1, cfg1)
  {
  }

  /** Only the primary server appears when the other two are empty; otherwise each follows ", ". */
  lemma DnsStringCases(cfg: ServerConfig)
    ensures cfg.dnsSecondary == "" && cfg.dnsV6 == "" ==> cfg.DnsString() == cfg.dnsPrimary
    ensures cfg.dnsSecondary != "" && cfg.dnsV6 == "" ==> cfg.DnsString() == cfg.dnsPrimary + ", " + cfg.dnsSecondary
    ensures cfg.dnsSecondary == "" && cfg.dnsV6 != "" ==> cfg.DnsString() == cfg.dnsPrimary + ", " + cfg.dnsV6
    ensures cfg.dnsSecondary != "" && cfg.dnsV6 != "" ==>
              cfg.DnsString() == cfg.dnsPrimary + ", " + cfg.dnsSecondary + ", " + cfg.dnsV6
  {
  }
}
