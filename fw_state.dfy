/**
 * `FirewallState`, the lifecycle of the firewall bridge: Uninitialized, then
 * Initialized, then Started and Stopped in turn, and back to Uninitialized on
 * close. The state owns the database connection and the nftables context.
 * The kernel (libnftables creation, the rule and routing-rule installers) is
 * an oracle passed to each operation, and a ghost `trace` records every call
 * the state makes into it, in order.
 */
module FwState {
  import opened Wrappers
  import opened Strings
  import opened Tables
  import opened FwDb
  import Nft
  import opened Json

  datatype Status = Uninitialized | Initialized | Started | Stopped | Error
  {
    function AsStr(): string
    {
      match this
      case Uninitialized => "uninitialized"
      case Initialized => "initialized"
      case Started => "started"
      case Stopped => "stopped"
      case Error => "error"
    }
  }

  /** Status codes of the bridge's C interface, with the values it exports (`Ok` is `Success`). */
  datatype ErrorCode =
    | Success | AlreadyInitialized | NotInitialized | NftablesFailed | NetlinkFailed
    | InvalidParam | IoError | PermissionDenied
    | DbOpen | DbQuery | DbWrite | GroupNotFound | RuleNotFound | InvalidState
    | AlreadyStarted | NotStarted | PresetFailed | VerifyFailed
  {
    function Value(): int
    {
      match this
      case Success => 0
      case AlreadyInitialized => -1
      case NotInitialized => -2
      case NftablesFailed => -3
      case NetlinkFailed => -4
      case InvalidParam => -5
      case IoError => -6
      case PermissionDenied => -7
      case DbOpen => -10
      case DbQuery => -11
      case DbWrite => -12
      case GroupNotFound => -13
      case RuleNotFound => -14
      case InvalidState => -15
      case AlreadyStarted => -16
      case NotStarted => -17
      case PresetFailed => -18
      case VerifyFailed => -19
    }
  }

  /** The `(ErrorCode, String)` error of the state's operations. */
  datatype Failure = Failure(code: ErrorCode, message: string)

  type U64 = x: int | 0 <= x < U64_LIMIT

  const I64_LIMIT := 0x8000_0000_0000_0000

  /** `handle as i64`: the two's-complement reading of a `u64`. */
  function AsI64(h: U64): (r: int)
    ensures -I64_LIMIT <= r < I64_LIMIT
    ensures r % U64_LIMIT == h
    ensures h < I64_LIMIT ==> r == h
  {
    if h < I64_LIMIT then h else h - U64_LIMIT
  }

  /** A call the state makes into the kernel. */
  datatype KernelCall =
    | NftRun(cmd: string)
    | ApplyRule(ruleId: int)
    | ApplyRoutingRule(ruleId: int)
    | RemoveRoutingRule(ruleId: int)

  /**
   * What the kernel answers: whether an nftables context can be created,
   * libnftables' outcome for each command, the handle (or error) of
   * installing a firewall rule, and the outcome of installing a routing rule.
   */
  datatype Kernel = Kernel(
    contextOk: bool,
    nft: Nft.Runner,
    applyRule: Entry<FirewallRule> -> Result<U64, string>,
    applyRoute: Entry<RoutingRule> -> Result<(), string>)

  const FLUSH_COMMAND := "flush table " + Nft.TABLE

  function NftRuns(cmds: seq<string>): (r: seq<KernelCall>)
    ensures |r| == |cmds| && forall i :: 0 <= i < |cmds| ==> r[i] == NftRun(cmds[i])
  {
    seq(|cmds|, i requires 0 <= i < |cmds| => NftRun(cmds[i]))
  }

  // ---- The effect of `start` on the rule tables ----

  /** A firewall rule after the kernel was asked to install it. */
  function MarkFw(k: Kernel, e: Entry<FirewallRule>): (r: Entry<FirewallRule>)
    ensures r.id == e.id && r.row.def == e.row.def && r.row.createdAt == e.row.createdAt
  {
    match k.applyRule(e)
    case Ok(h) => Entry(e.id, SetFwApplied(true, AsI64(h))(e.row))
    case Err(_) => e
  }

  /** A routing rule after the kernel was asked to install it. */
  function MarkRt(k: Kernel, e: Entry<RoutingRule>): (r: Entry<RoutingRule>)
    ensures r.id == e.id && r.row.def == e.row.def && r.row.createdAt == e.row.createdAt
  {
    match k.applyRoute(e)
    case Ok(_) => Entry(e.id, SetRtApplied(true)(e.row))
    case Err(_) => e
  }

  function FwMark(k: Kernel): Entry<FirewallRule> -> Entry<FirewallRule> { e => MarkFw(k, e) }
  function RtMark(k: Kernel): Entry<RoutingRule> -> Entry<RoutingRule> { e => MarkRt(k, e) }
  function FwGroupOf(r: FirewallRule): int { r.def.groupId }
  function RtGroupOf(r: RoutingRule): int { r.def.groupId }

  function IdsOf<R>(es: seq<Entry<R>>): set<int>
  {
    set j | 0 <= j < |es| :: es[j].id
  }

  /** The table with `mark` applied to the rows whose id is in `ids`. */
  function MarkIds<R(==,!new)>(t: Table<R>, ids: set<int>, mark: Entry<R> -> Entry<R>): (r: Table<R>)
    requires forall e :: mark(e).id == e.id
    ensures r.lastId == t.lastId && |r.entries| == |t.entries|
    ensures forall p :: 0 <= p < |t.entries| ==> r.entries[p].id == t.entries[p].id
    ensures t.Valid() ==> r.Valid()
  {
    Table(seq(|t.entries|, p requires 0 <= p < |t.entries| =>
      if t.entries[p].id in ids then mark(t.entries[p]) else t.entries[p]), t.lastId)
  }

  /** The rows with `mark` applied to those of a group in `gids`. */
  function MarkIn<R>(es: seq<Entry<R>>, groupOf: R -> int, gids: set<int>, mark: Entry<R> -> Entry<R>): (r: seq<Entry<R>>)
    ensures |r| == |es|
    ensures forall p :: 0 <= p < |es| ==> r[p] == if groupOf(es[p].row) in gids then mark(es[p]) else es[p]
  {
    seq(|es|, p requires 0 <= p < |es| => if groupOf(es[p].row) in gids then mark(es[p]) else es[p])
  }

  /** The rule tables once every rule of a group in `gids` went to the kernel. */
  function Reconciled(img: FwImage, gids: set<int>, k: Kernel): FwImage
  {
    img.(fwRules := Table(MarkIn(img.fwRules.entries, FwGroupOf, gids, FwMark(k)), img.fwRules.lastId),
         rtRules := Table(MarkIn(img.rtRules.entries, RtGroupOf, gids, RtMark(k)), img.rtRules.lastId))
  }

  /** The database `start` leaves behind. */
  function StartedImage(img: FwImage, k: Kernel, now: int): FwImage
  {
    Reconciled(img, IdsOf(img.EnabledGroups()), k).SetState("started", now)
  }

  /** The database `stop` leaves behind. */
  function StoppedImage(img: FwImage, now: int): FwImage
    requires img.WellFormed()
  {
    img.ClearFwAppliedState().ClearRtAppliedState().SetState("stopped", now)
  }

  /** The database a successful `init` leaves behind. */
  function InitializedImage(file: FwImage, now: int): FwImage
    requires file.WellFormed()
  {
    file.Migrate().InitConfig(now).ClearFwAppliedState().ClearRtAppliedState().SetState("initialized", now)
  }

  /** The group `gid` exists and is enabled. */
  predicate GroupEnabled(img: FwImage, gid: int)
    requires img.groups.Valid()
  {
    img.groups.Find(gid).Some? && img.groups.Find(gid).value.enabled
  }

  // ---- The kernel calls and the error text of `start` ----

  datatype Step = FwStep(fw: Entry<FirewallRule>) | RtStep(rt: Entry<RoutingRule>)

  function FwSteps(rs: seq<Entry<FirewallRule>>): seq<Step>
  {
    seq(|rs|, j requires 0 <= j < |rs| => FwStep(rs[j]))
  }

  function RtSteps(rs: seq<Entry<RoutingRule>>): seq<Step>
  {
    seq(|rs|, j requires 0 <= j < |rs| => RtStep(rs[j]))
  }

  /** One group: its firewall rules in listing order, then its routing rules. */
  function GroupSteps(img: FwImage, gid: int): seq<Step>
    requires img.rtRules.Valid()
  {
    FwSteps(img.FirewallRulesForGroup(gid)) + RtSteps(img.RoutingRulesForGroup(gid))
  }

  /** The groups in the order given. */
  function StartSteps(img: FwImage, gs: seq<Entry<RuleGroup>>): seq<Step>
    requires img.rtRules.Valid()
    decreases |gs|
  {
    if gs == [] then [] else StartSteps(img, gs[..|gs| - 1]) + GroupSteps(img, gs[|gs| - 1].id)
  }

  function StepCall(s: Step): KernelCall
  {
    match s
    case FwStep(e) => ApplyRule(e.id)
    case RtStep(e) => ApplyRoutingRule(e.id)
  }

  function Calls(steps: seq<Step>): (r: seq<KernelCall>)
    ensures |r| == |steps| && forall j :: 0 <= j < |steps| ==> r[j] == StepCall(steps[j])
  {
    seq(|steps|, j requires 0 <= j < |steps| => StepCall(steps[j]))
  }

  /** The `last_error` text a failed step records. */
  function StepError(k: Kernel, s: Step): Option<string>
  {
    match s
    case FwStep(e) =>
      if k.applyRule(e).Err? then Some("Failed to apply rule " + IntToString(e.id) + ": " + k.applyRule(e).error)
      else None
    case RtStep(e) =>
      if k.applyRoute(e).Err? then Some("Failed to apply routing rule " + IntToString(e.id) + ": " + k.applyRoute(e).error)
      else None
  }

  /** `last_error` after `steps`, starting from `init`. */
  function LastError(k: Kernel, steps: seq<Step>, init: string): string
    decreases |steps|
  {
    if steps == [] then init
    else
      match StepError(k, steps[|steps| - 1])
      case Some(m) => m
      case None => LastError(k, steps[..|steps| - 1], init)
  }

  function RemoveCalls(rs: seq<Entry<RoutingRule>>): (r: seq<KernelCall>)
    ensures |r| == |rs| && forall j :: 0 <= j < |rs| ==> r[j] == RemoveRoutingRule(rs[j].id)
  {
    seq(|rs|, j requires 0 <= j < |rs| => RemoveRoutingRule(rs[j].id))
  }

  /** The calls `t` followed by those of `stop` on a database: the flush, then one removal per applied route. */
  function StopTrace(t: seq<KernelCall>, img: FwImage): seq<KernelCall>
  {
    t + [NftRun(FLUSH_COMMAND)] + RemoveCalls(img.AppliedRoutingRules())
  }

  /** The kernel calls of `init` once the database is open: the commands that ensure the table. */
  function InitRuns(file: Result<FwImage, string>, k: Kernel): seq<KernelCall>
  {
    if file.Ok? && k.contextOk then NftRuns(Nft.EnsureTable(k.nft).issued) else []
  }

  // ---- `get_status_json` ----

  datatype StatusReport = StatusReport(
    status: string, enabledGroups: nat, fwTotal: nat, fwApplied: nat,
    rtTotal: nat, rtApplied: nat, lastError: string)

  /**
   * The counts `get_status_json` reports. The routing total is computed by
   * the query for applied routing rules, so it always equals the applied count.
   */
  function Report(status: Status, img: Option<FwImage>, lastError: string): (r: StatusReport)
    ensures r.status == status.AsStr() && r.lastError == lastError
    ensures img.None? ==> r.enabledGroups == 0 && r.fwTotal == 0 && r.fwApplied == 0 && r.rtApplied == 0
    ensures img.Some? ==>
              && r.enabledGroups == |Table<RuleGroup>.Select(img.value.groups.entries, Enabled)|
              && r.fwTotal == |img.value.fwRules.entries|
              && r.fwApplied == |Table<FirewallRule>.Select(img.value.fwRules.entries, FwApplied)|
              && r.rtApplied == |Table<RoutingRule>.Select(img.value.rtRules.entries, RtApplied)|
    ensures r.fwApplied <= r.fwTotal
    ensures r.rtTotal == r.rtApplied
  {
    match img
    case None => StatusReport(status.AsStr(), 0, 0, 0, 0, 0, lastError)
    case Some(d) =>
      var eg := d.EnabledGroups();
      var afw := d.AppliedFirewallRules();
      var art := d.AppliedRoutingRules();
      assert |eg| == |multiset(eg)|;
      assert |afw| == |multiset(afw)|;
      assert |art| == |multiset(art)|;
      Table<FirewallRule>.SelectSpec(d.fwRules.entries, FwApplied);
      StatusReport(status.AsStr(), |eg|, |d.AllFirewallRules()|, |afw|, |art|, |art|, lastError)
  }

  function Counts(applied: nat, total: nat): Json
  {
    JObj([("applied", JNum(applied)), ("total", JNum(total))])
  }

  /** The `json!` value, whose members serde_json keeps in key order. */
  function ReportJson(r: StatusReport): Json
  {
    JObj([("enabled_groups", JNum(r.enabledGroups)),
          ("firewall_rules", Counts(r.fwApplied, r.fwTotal)),
          ("last_error", JStr(r.lastError)),
          ("routing_rules", Counts(r.rtApplied, r.rtTotal)),
          ("status", JStr(r.status))])
  }

  /** The text of the report, written out. */
  function ReportText(r: StatusReport): string
  {
    "{" + ((Key("enabled_groups") + NatToString(r.enabledGroups))
    + "," + ((Key("firewall_rules") + CountsText(r.fwApplied, r.fwTotal))
    + "," + ((Key("last_error") + Quote(r.lastError))
    + "," + ((Key("routing_rules") + CountsText(r.rtApplied, r.rtTotal))
    + "," + (Key("status") + Quote(r.status)))))) + "}"
  }

  function CountsText(applied: nat, total: nat): string
  {
    "{" + ((Key("applied") + NatToString(applied)) + "," + (Key("total") + NatToString(total))) + "}"
  }

  // ---- The state ----

  class FirewallState {
    var db: FirewallDB?
    var nft: bool
    var status: Status
    var lastError: string
    ghost var trace: seq<KernelCall>

    /**
     * The database and the nftables context are present exactly when the
     * state is not Uninitialized; they are set and dropped together.
     */
    ghost predicate Valid()
      reads this, db
    {
      && (db == null <==> status == Uninitialized)
      && (nft <==> db != null)
      && (db != null ==> db.Valid())
    }

    /** `new`. */
    constructor ()
      ensures Valid() && db == null && !nft && status == Uninitialized && lastError == "" && trace == []
    {
      db := null;
      nft := false;
      status := Uninitialized;
      lastError := "";
      trace := [];
    }

    /** `db()`. */
    function Db(): (r: Result<FirewallDB, Failure>)
      reads this
      ensures r.Ok? <==> db != null
      ensures r.Ok? ==> r.value == db
      ensures r.Err? ==> r.error == Failure(NotInitialized, "DB not open")
    {
      if db == null then Err(Failure(NotInitialized, "DB not open")) else var d: FirewallDB := db; Ok(d)
    }

    /** `nft()`. */
    function NftContext(): (r: Result<(), Failure>)
      reads this
      ensures r.Ok? <==> nft
      ensures r.Err? ==> r.error == Failure(NotInitialized, "NFT context not available")
    {
      if nft then Ok(()) else Err(Failure(NotInitialized, "NFT context not available"))
    }

    predicate IsStarted()
      reads this
    {
      status == Started
    }

    function Image(): Option<FwImage>
      reads this, db
    {
      if db == null then None else Some(db.Image())
    }

    /** `get_status_json`. */
    function StatusJson(): (s: string)
      reads this, db
      ensures s == ReportText(Report(status, Image(), lastError))
    {
      var r := Report(status, Image(), lastError);
      ReportSerialized(r);
      Serialize(ReportJson(r))
    }

    /**
     * `init`. A state that is not Uninitialized is closed first. The file
     * is opened and migrated, the config row created if missing and stale
     * applied flags cleared; then the nftables context is created and the
     * `inet phantom` table ensured. Only when every step succeeds are the
     * database and the context kept.
     */
    method Init(file: Result<FwImage, string>, k: Kernel, now: int) returns (r: Result<(), Failure>)
      requires Valid()
      requires file.Ok? ==> file.value.WellFormed()
      modifies this, db
      ensures Valid()
      ensures r.Ok? <==> file.Ok? && k.contextOk && Nft.EnsureTable(k.nft).result.Ok?
      ensures file.Err? ==> r == Err(Failure(DbOpen, file.error))
      ensures file.Ok? && !k.contextOk ==> r == Err(Failure(NftablesFailed, "Failed to create nftables context"))
      ensures file.Ok? && k.contextOk && Nft.EnsureTable(k.nft).result.Err? ==>
                r == Err(Failure(NftablesFailed, Nft.EnsureTable(k.nft).result.error))
      ensures r.Err? ==> db == null && !nft && status == Uninitialized
      ensures r.Err? ==> lastError == if old(status) == Uninitialized then old(lastError) else ""
      ensures r.Ok? ==> db != null && fresh(db) && nft && status == Initialized && lastError == ""
      ensures r.Ok? ==> db.Image() == InitializedImage(file.value, now)
      ensures old(status) == Started ==> old(db).Image() == StoppedImage(old(db.Image()), now)
      ensures old(status) == Started ==> trace == StopTrace(old(trace), old(db.Image())) + InitRuns(file, k)
      ensures old(status) != Started ==> trace == old(trace) + InitRuns(file, k)
    {
      if status != Uninitialized {
        var closed := Close(now);
      }
      r := OpenFresh(file, k, now);
    }

    /** `init` from Uninitialized: open the file, prepare it, then the nftables context. */
    method OpenFresh(file: Result<FwImage, string>, k: Kernel, now: int) returns (r: Result<(), Failure>)
      requires Valid() && status == Uninitialized
      requires file.Ok? ==> file.value.WellFormed()
      modifies this
      ensures Valid()
      ensures r.Ok? <==> file.Ok? && k.contextOk && Nft.EnsureTable(k.nft).result.Ok?
      ensures file.Err? ==> r == Err(Failure(DbOpen, file.error))
      ensures file.Ok? && !k.contextOk ==> r == Err(Failure(NftablesFailed, "Failed to create nftables context"))
      ensures file.Ok? && k.contextOk && Nft.EnsureTable(k.nft).result.Err? ==>
                r == Err(Failure(NftablesFailed, Nft.EnsureTable(k.nft).result.error))
      ensures r.Err? ==> db == null && !nft && status == Uninitialized && lastError == old(lastError)
      ensures r.Ok? ==> db != null && fresh(db) && nft && status == Initialized && lastError == ""
      ensures r.Ok? ==> db.Image() == InitializedImage(file.value, now)
      ensures trace == old(trace) + InitRuns(file, k)
    {
      if file.Err? {
        return Err(Failure(DbOpen, file.error));
      }
      var store := OpenStore(file.value, now);
      var log := Nft.EnsureTable(k.nft);
      r := Attach(store, k, log, now);
    }

    /**
     * The rest of `init` once the database is prepared: the nftables context,
     * then the table, whose commands and outcome are `log`.
     */
    method Attach(store: FirewallDB, k: Kernel, log: Nft.RunLog, now: int) returns (r: Result<(), Failure>)
      requires Valid() && status == Uninitialized && store.Valid()
      modifies this, store
      ensures Valid()
      ensures r.Ok? <==> k.contextOk && log.result.Ok?
      ensures !k.contextOk ==> r == Err(Failure(NftablesFailed, "Failed to create nftables context"))
      ensures k.contextOk && log.result.Err? ==> r == Err(Failure(NftablesFailed, log.result.error))
      ensures r.Err? ==> db == null && !nft && status == Uninitialized && lastError == old(lastError)
      ensures r.Ok? ==> db == store && nft && status == Initialized && lastError == ""
      ensures r.Ok? ==> store.Image() == old(store.Image()).SetState("initialized", now)
      ensures trace == old(trace) + (if k.contextOk then NftRuns(log.issued) else [])
    {
      if !k.contextOk {
        return Err(Failure(NftablesFailed, "Failed to create nftables context"));
      }
      trace := trace + NftRuns(log.issued);
      if log.result.Err? {
        return Err(Failure(NftablesFailed, log.result.error));
      }
      store.SetState("initialized", now);
      db, nft, status, lastError := store, true, Initialized, "";
      r := Ok(());
    }

    /**
     * `start`: from Initialized or Stopped, flush the table, then hand every
     * rule of every enabled group to the kernel, group by group in
     * (priority, name) order, firewall rules before routing rules. A rule the
     * kernel refuses only sets `last_error`; the state still becomes Started.
     */
    method Start(k: Kernel, now: int) returns (r: Result<(), Failure>)
      requires Valid()
      modifies this, db
      ensures Valid() && db == old(db) && nft == old(nft)
      ensures old(status) == Started ==>
                && r == Err(Failure(AlreadyStarted, "Already started"))
                && status == old(status) && lastError == old(lastError) && trace == old(trace)
                && db.Image() == old(db.Image())
      ensures old(status) in {Uninitialized, Error} ==>
                && r == Err(Failure(InvalidState, "Cannot start from " + old(status).AsStr()))
                && status == old(status) && lastError == old(lastError) && trace == old(trace)
                && (db != null ==> db.Image() == old(db.Image()))
      ensures old(status) in {Initialized, Stopped} && Nft.FlushTable(k.nft).Err? ==>
                && r == Err(Failure(NftablesFailed, Nft.FlushTable(k.nft).error))
                && status == old(status) && lastError == old(lastError)
                && trace == old(trace) + [NftRun(FLUSH_COMMAND)]
                && db.Image() == old(db.Image())
      ensures old(status) in {Initialized, Stopped} && Nft.FlushTable(k.nft).Ok? ==>
                && r == Ok(()) && status == Started
                && db.Image() == StartedImage(old(db.Image()), k, now)
                && trace == old(trace) + [NftRun(FLUSH_COMMAND)]
                            + Calls(StartSteps(old(db.Image()), old(db.Image()).EnabledGroups()))
                && lastError == LastError(k, StartSteps(old(db.Image()), old(db.Image()).EnabledGroups()), old(lastError))
    {
      if status == Started {
        return Err(Failure(AlreadyStarted, "Already started"));
      }
      if status != Initialized && status != Stopped {
        return Err(Failure(InvalidState, "Cannot start from " + status.AsStr()));
      }
      trace := trace + [NftRun(FLUSH_COMMAND)];
      var flushed := Nft.FlushTable(k.nft);
      if flushed.Err? {
        return Err(Failure(NftablesFailed, flushed.error));
      }
      StartFlushed(k, now);
      r := Ok(());
    }

    /** `start` once the table is flushed: apply every enabled group and record "started". */
    method StartFlushed(k: Kernel, now: int)
      requires Valid() && status in {Initialized, Stopped}
      modifies this, db
      ensures Valid() && db == old(db) && nft == old(nft) && status == Started
      ensures db.Image() == StartedImage(old(db.Image()), k, now)
      ensures trace == old(trace) + Calls(StartSteps(old(db.Image()), old(db.Image()).EnabledGroups()))
      ensures lastError == LastError(k, StartSteps(old(db.Image()), old(db.Image()).EnabledGroups()), old(lastError))
    {
      ghost var img0 := db.Image();
      var groups := db.Image().EnabledGroups();
      ApplyGroups(groups, k, img0);
      db.SetState("started", now);
      status := Started;
    }

    /** The loop of `start` over the enabled groups, in listing order. */
    method ApplyGroups(groups: seq<Entry<RuleGroup>>, k: Kernel, ghost img0: FwImage)
      requires Valid() && db != null && db.Image() == img0 && groups == img0.EnabledGroups()
      modifies this, db
      ensures Valid() && db == old(db) && nft == old(nft) && status == old(status)
      ensures db.Image() == Reconciled(img0, IdsOf(groups), k)
      ensures trace == old(trace) + Calls(StartSteps(img0, groups))
      ensures lastError == LastError(k, StartSteps(img0, groups), old(lastError))
    {
      EnabledDistinct(img0);
      ReconciledNone(img0, k);
      var gi := 0;
      while gi < |groups|
        invariant 0 <= gi <= |groups|
        invariant Valid() && db == old(db) && nft == old(nft) && status == old(status)
        invariant db.Image() == Reconciled(img0, IdsOf(groups[..gi]), k)
        invariant trace == old(trace) + Calls(StartSteps(img0, groups[..gi]))
        invariant lastError == LastError(k, StartSteps(img0, groups[..gi]), old(lastError))
      {
        ApplyGroupAt(groups, gi, k, img0, old(trace), old(lastError));
        gi := gi + 1;
      }
      assert groups[..gi] == groups;
    }

    /** Group `gi` of the loop of `start`, after the groups before it. */
    method ApplyGroupAt(groups: seq<Entry<RuleGroup>>, gi: nat, k: Kernel, ghost img0: FwImage,
                        ghost tr0: seq<KernelCall>, ghost e0: string)
      requires Valid() && db != null && img0.WellFormed() && gi < |groups|
      requires forall a, b :: 0 <= a < b < |groups| ==> groups[a].id != groups[b].id
      requires db.Image() == Reconciled(img0, IdsOf(groups[..gi]), k)
      requires trace == tr0 + Calls(StartSteps(img0, groups[..gi]))
      requires lastError == LastError(k, StartSteps(img0, groups[..gi]), e0)
      modifies this, db
      ensures Valid() && db == old(db) && nft == old(nft) && status == old(status)
      ensures db.Image() == Reconciled(img0, IdsOf(groups[..gi + 1]), k)
      ensures trace == tr0 + Calls(StartSteps(img0, groups[..gi + 1]))
      ensures lastError == LastError(k, StartSteps(img0, groups[..gi + 1]), e0)
    {
      GroupAtStep(groups, gi, k, img0, tr0, e0);
      ApplyGroup(groups[gi], k, img0, IdsOf(groups[..gi]));
    }

    /** One enabled group of `start`: its firewall rules, then its routing rules. */
    method ApplyGroup(g: Entry<RuleGroup>, k: Kernel, ghost img0: FwImage, ghost gids: set<int>)
      requires Valid() && db != null && img0.WellFormed() && g.id !in gids
      requires db.Image() == Reconciled(img0, gids, k)
      modifies this, db
      ensures Valid() && db == old(db) && nft == old(nft) && status == old(status)
      ensures db.Image() == Reconciled(img0, gids + {g.id}, k)
      ensures trace == old(trace) + Calls(GroupSteps(img0, g.id))
      ensures lastError == LastError(k, GroupSteps(img0, g.id), old(lastError))
    {
      ReconciledValid(img0, gids, k);
      ApplyGroupFw(g, k, img0, gids);
      ApplyGroupRt(g, k, img0, gids);
      GroupStepsSplit(k, old(trace), img0, g.id, old(lastError));
    }

    /** The firewall half of one group of `start`. */
    method ApplyGroupFw(g: Entry<RuleGroup>, k: Kernel, ghost img0: FwImage, ghost gids: set<int>)
      requires Valid() && db != null && img0.fwRules.Valid() && g.id !in gids
      requires db.fwRules == Reconciled(img0, gids, k).fwRules
      modifies this, db
      ensures Valid() && db == old(db) && nft == old(nft) && status == old(status)
      ensures db.userVersion == old(db.userVersion) && db.config == old(db.config)
      ensures db.groups == old(db.groups) && db.rtRules == old(db.rtRules)
      ensures db.fwRules == Reconciled(img0, gids + {g.id}, k).fwRules
      ensures trace == old(trace) + Calls(FwSteps(img0.FirewallRulesForGroup(g.id)))
      ensures lastError == LastError(k, FwSteps(img0.FirewallRulesForGroup(g.id)), old(lastError))
    {
      FwListingAgrees(img0, gids, k, g.id);
      var rules := db.Image().FirewallRulesForGroup(g.id);
      assert rules == img0.FirewallRulesForGroup(g.id);
      ApplyFwRules(rules, k);
      FwGroupStep(img0, gids, k, g.id);
    }

    /** The routing half of one group of `start`. */
    method ApplyGroupRt(g: Entry<RuleGroup>, k: Kernel, ghost img0: FwImage, ghost gids: set<int>)
      requires Valid() && db != null && img0.WellFormed() && g.id !in gids
      requires db.rtRules == Reconciled(img0, gids, k).rtRules
      modifies this, db
      ensures Valid() && db == old(db) && nft == old(nft) && status == old(status)
      ensures db.userVersion == old(db.userVersion) && db.config == old(db.config)
      ensures db.groups == old(db.groups) && db.fwRules == old(db.fwRules)
      ensures db.rtRules == Reconciled(img0, gids + {g.id}, k).rtRules
      ensures trace == old(trace) + Calls(RtSteps(img0.RoutingRulesForGroup(g.id)))
      ensures lastError == LastError(k, RtSteps(img0.RoutingRulesForGroup(g.id)), old(lastError))
    {
      RtListingAgrees(img0, gids, k, g.id);
      var rts := db.Image().RoutingRulesForGroup(g.id);
      assert rts == img0.RoutingRulesForGroup(g.id);
      ApplyRtRules(rts, k);
      RtGroupStep(img0, gids, k, g.id);
    }

    /**
     * `stop`: only from Started. The table is flushed and each applied
     * routing rule removed, whatever the kernel answers; then every applied
     * flag and handle is cleared and the state becomes Stopped.
     */
    method Stop(now: int) returns (r: Result<(), Failure>)
      requires Valid()
      modifies this, db
      ensures Valid() && db == old(db) && nft == old(nft) && lastError == old(lastError)
      ensures old(status) != Started ==>
                && r == Err(Failure(NotStarted, "Not started")) && status == old(status) && trace == old(trace)
                && (db != null ==> db.Image() == old(db.Image()))
      ensures old(status) == Started ==>
                && r == Ok(()) && status == Stopped
                && db.Image() == StoppedImage(old(db.Image()), now)
                && trace == StopTrace(old(trace), old(db.Image()))
    {
      if status != Started {
        return Err(Failure(NotStarted, "Not started"));
      }
      StopStarted(now);
      r := Ok(());
    }

    /** The Started case of `stop`. */
    method StopStarted(now: int)
      requires Valid() && status == Started
      modifies this, db
      ensures Valid() && db == old(db) && nft == old(nft) && lastError == old(lastError) && status == Stopped
      ensures db.Image() == StoppedImage(old(db.Image()), now)
      ensures trace == StopTrace(old(trace), old(db.Image()))
    {
      var store := db;
      trace := trace + [NftRun(FLUSH_COMMAND)];
      RemoveRoutes(store.Image().AppliedRoutingRules());
      ClearApplied(store);
      store.SetState("stopped", now);
      status := Stopped;
    }

    /** `remove_routing_rule` for each applied routing rule; the answers are ignored. */
    method RemoveRoutes(rts: seq<Entry<RoutingRule>>)
      modifies this
      ensures db == old(db) && nft == old(nft) && status == old(status) && lastError == old(lastError)
      ensures trace == old(trace) + RemoveCalls(rts)
    {
      var i := 0;
      while i < |rts|
        invariant 0 <= i <= |rts|
        invariant db == old(db) && nft == old(nft) && status == old(status) && lastError == old(lastError)
        invariant trace == old(trace) + RemoveCalls(rts[..i])
      {
        assert RemoveCalls(rts[..i + 1]) == RemoveCalls(rts[..i]) + [RemoveRoutingRule(rts[i].id)];
        trace := trace + [RemoveRoutingRule(rts[i].id)];
        i := i + 1;
      }
      assert rts[..i] == rts;
    }

    /**
     * `close`: stops first when Started, then drops the database and the
     * nftables context. There is no separate closed state: the state is
     * Uninitialized again, and `close` always succeeds.
     */
    method Close(now: int) returns (r: Result<(), Failure>)
      requires Valid()
      modifies this, db
      ensures Valid() && r == Ok(())
      ensures db == null && !nft && status == Uninitialized && lastError == ""
      ensures old(status) == Started ==>
                old(db).Image() == StoppedImage(old(db.Image()), now) && trace == StopTrace(old(trace), old(db.Image()))
      ensures old(status) != Started ==>
                trace == old(trace) && (old(db) != null ==> unchanged(old(db)))
    {
      if status == Started {
        StopStarted(now);
      }
      db, nft, status, lastError := null, false, Uninitialized, "";
      r := Ok(());
    }

    /** `apply_rule` for one firewall rule; a handle marks the rule applied. */
    method ApplyFwRule(rule: Entry<FirewallRule>, k: Kernel)
      requires Valid() && db != null
      modifies this, db
      ensures Valid() && db == old(db) && nft == old(nft) && status == old(status)
      ensures db.userVersion == old(db.userVersion) && db.config == old(db.config)
      ensures db.groups == old(db.groups) && db.rtRules == old(db.rtRules)
      ensures k.applyRule(rule).Ok? ==>
                db.fwRules == old(db.fwRules).UpdateId(rule.id, SetFwApplied(true, AsI64(k.applyRule(rule).value)))
      ensures k.applyRule(rule).Err? ==> db.fwRules == old(db.fwRules)
      ensures trace == old(trace) + [ApplyRule(rule.id)]
      ensures lastError == if k.applyRule(rule).Err?
                           then "Failed to apply rule " + IntToString(rule.id) + ": " + k.applyRule(rule).error
                           else old(lastError)
    {
      trace := trace + [ApplyRule(rule.id)];
      var res := k.applyRule(rule);
      if res.Ok? {
        db.UpdateFwRuleApplied(rule.id, true, AsI64(res.value));
      } else {
        lastError := "Failed to apply rule " + IntToString(rule.id) + ": " + res.error;
      }
    }

    /** `apply_routing_rule` for one routing rule; success marks it applied. */
    method ApplyRtRule(rule: Entry<RoutingRule>, k: Kernel)
      requires Valid() && db != null
      modifies this, db
      ensures Valid() && db == old(db) && nft == old(nft) && status == old(status)
      ensures db.userVersion == old(db.userVersion) && db.config == old(db.config)
      ensures db.groups == old(db.groups) && db.fwRules == old(db.fwRules)
      ensures k.applyRoute(rule).Ok? ==> db.rtRules == old(db.rtRules).UpdateId(rule.id, SetRtApplied(true))
      ensures k.applyRoute(rule).Err? ==> db.rtRules == old(db.rtRules)
      ensures trace == old(trace) + [ApplyRoutingRule(rule.id)]
      ensures lastError == if k.applyRoute(rule).Err?
                           then "Failed to apply routing rule " + IntToString(rule.id) + ": " + k.applyRoute(rule).error
                           else old(lastError)
    {
      trace := trace + [ApplyRoutingRule(rule.id)];
      var res := k.applyRoute(rule);
      if res.Ok? {
        db.UpdateRtRuleApplied(rule.id, true);
      } else {
        lastError := "Failed to apply routing rule " + IntToString(rule.id) + ": " + res.error;
      }
    }

    /** Rule `i` of a firewall listing, after the rules before it. */
    method ApplyFwRuleAt(rules: seq<Entry<FirewallRule>>, i: nat, k: Kernel,
                         ghost t0: Table<FirewallRule>, ghost tr0: seq<KernelCall>, ghost e0: string)
      requires Valid() && db != null && i < |rules| && t0.Valid()
      requires forall j :: 0 <= j < |rules| ==> rules[j] in t0.entries
      requires db.fwRules == MarkIds(t0, IdsOf(rules[..i]), FwMark(k))
      requires trace == tr0 + Calls(FwSteps(rules[..i]))
      requires lastError == LastError(k, FwSteps(rules[..i]), e0)
      modifies this, db
      ensures Valid() && db == old(db) && nft == old(nft) && status == old(status)
      ensures db.userVersion == old(db.userVersion) && db.config == old(db.config)
      ensures db.groups == old(db.groups) && db.rtRules == old(db.rtRules)
      ensures db.fwRules == MarkIds(t0, IdsOf(rules[..i + 1]), FwMark(k))
      ensures trace == tr0 + Calls(FwSteps(rules[..i + 1]))
      ensures lastError == LastError(k, FwSteps(rules[..i + 1]), e0)
    {
      FwStepsSnoc(k, tr0, rules, i, e0);
      FwMarkStep(t0, rules, i, k);
      ApplyFwRule(rules[i], k);
    }

    /** Rule `i` of a routing listing, after the rules before it. */
    method ApplyRtRuleAt(rules: seq<Entry<RoutingRule>>, i: nat, k: Kernel,
                         ghost t0: Table<RoutingRule>, ghost tr0: seq<KernelCall>, ghost e0: string)
      requires Valid() && db != null && i < |rules| && t0.Valid()
      requires forall j :: 0 <= j < |rules| ==> rules[j] in t0.entries
      requires db.rtRules == MarkIds(t0, IdsOf(rules[..i]), RtMark(k))
      requires trace == tr0 + Calls(RtSteps(rules[..i]))
      requires lastError == LastError(k, RtSteps(rules[..i]), e0)
      modifies this, db
      ensures Valid() && db == old(db) && nft == old(nft) && status == old(status)
      ensures db.userVersion == old(db.userVersion) && db.config == old(db.config)
      ensures db.groups == old(db.groups) && db.fwRules == old(db.fwRules)
      ensures db.rtRules == MarkIds(t0, IdsOf(rules[..i + 1]), RtMark(k))
      ensures trace == tr0 + Calls(RtSteps(rules[..i + 1]))
      ensures lastError == LastError(k, RtSteps(rules[..i + 1]), e0)
    {
      RtStepsSnoc(k, tr0, rules, i, e0);
      RtMarkStep(t0, rules, i, k);
      ApplyRtRule(rules[i], k);
    }

    /** One group's firewall rules, in listing order. */
    method ApplyFwRules(rules: seq<Entry<FirewallRule>>, k: Kernel)
      requires Valid() && db != null
      requires forall j :: 0 <= j < |rules| ==> rules[j] in db.fwRules.entries
      modifies this, db
      ensures Valid() && db == old(db) && nft == old(nft) && status == old(status)
      ensures db.userVersion == old(db.userVersion) && db.config == old(db.config)
      ensures db.groups == old(db.groups) && db.rtRules == old(db.rtRules)
      ensures db.fwRules == MarkIds(old(db.fwRules), IdsOf(rules), FwMark(k))
      ensures trace == old(trace) + Calls(FwSteps(rules))
      ensures lastError == LastError(k, FwSteps(rules), old(lastError))
    {
      var store := db;
      ghost var t0 := store.fwRules;
      var i := 0;
      while i < |rules|
        invariant 0 <= i <= |rules|
        invariant db == store && nft == old(nft) && status == old(status) && store.Valid()
        invariant store.userVersion == old(store.userVersion) && store.config == old(store.config)
        invariant store.groups == old(store.groups) && store.rtRules == old(store.rtRules)
        invariant store.fwRules == MarkIds(t0, IdsOf(rules[..i]), FwMark(k))
        invariant trace == old(trace) + Calls(FwSteps(rules[..i]))
        invariant lastError == LastError(k, FwSteps(rules[..i]), old(lastError))
      {
        ApplyFwRuleAt(rules, i, k, t0, old(trace), old(lastError));
        i := i + 1;
      }
      assert rules[..i] == rules;
    }

    /** One group's routing rules, in listing order. */
    method ApplyRtRules(rules: seq<Entry<RoutingRule>>, k: Kernel)
      requires Valid() && db != null
      requires forall j :: 0 <= j < |rules| ==> rules[j] in db.rtRules.entries
      modifies this, db
      ensures Valid() && db == old(db) && nft == old(nft) && status == old(status)
      ensures db.userVersion == old(db.userVersion) && db.config == old(db.config)
      ensures db.groups == old(db.groups) && db.fwRules == old(db.fwRules)
      ensures db.rtRules == MarkIds(old(db.rtRules), IdsOf(rules), RtMark(k))
      ensures trace == old(trace) + Calls(RtSteps(rules))
      ensures lastError == LastError(k, RtSteps(rules), old(lastError))
    {
      var store := db;
      ghost var t0 := store.rtRules;
      var i := 0;
      while i < |rules|
        invariant 0 <= i <= |rules|
        invariant db == store && nft == old(nft) && status == old(status) && store.Valid()
        invariant store.userVersion == old(store.userVersion) && store.config == old(store.config)
        invariant store.groups == old(store.groups) && store.fwRules == old(store.fwRules)
        invariant store.rtRules == MarkIds(t0, IdsOf(rules[..i]), RtMark(k))
        invariant trace == old(trace) + Calls(RtSteps(rules[..i]))
        invariant lastError == LastError(k, RtSteps(rules[..i]), old(lastError))
      {
        ApplyRtRuleAt(rules, i, k, t0, old(trace), old(lastError));
        i := i + 1;
      }
      assert rules[..i] == rules;
    }
  }

  /** `FirewallDb::open`, `init_config` and the clearing of stale applied flags, as `init` runs them. */
  method OpenStore(file: FwImage, now: int) returns (store: FirewallDB)
    requires file.WellFormed()
    ensures fresh(store) && store.Valid()
    ensures store.Image() == file.Migrate().InitConfig(now).ClearFwAppliedState().ClearRtAppliedState()
  {
    store := new FirewallDB.Open(file);
    store.InitConfig(now);
    ClearApplied(store);
  }

  /** `clear_fw_applied_state` then `clear_rt_applied_state`, as `init` and `stop` run them. */
  method ClearApplied(store: FirewallDB)
    requires store.Valid()
    modifies store
    ensures store.Valid()
    ensures store.Image() == old(store.Image()).ClearFwAppliedState().ClearRtAppliedState()
  {
    store.ClearFwAppliedState();
    store.ClearRtAppliedState();
  }

  // ---- Lemmas ----

  lemma ReportSerialized(r: StatusReport)
    ensures Serialize(ReportJson(r)) == ReportText(r)
  {
    CountsSerialized(r.fwApplied, r.fwTotal);
    CountsSerialized(r.rtApplied, r.rtTotal);
    NamesPlain();
    Object5("enabled_groups", JNum(r.enabledGroups), NatToString(r.enabledGroups),
            "firewall_rules", Counts(r.fwApplied, r.fwTotal), CountsText(r.fwApplied, r.fwTotal),
            "last_error", JStr(r.lastError), Quote(r.lastError),
            "routing_rules", Counts(r.rtApplied, r.rtTotal), CountsText(r.rtApplied, r.rtTotal),
            "status", JStr(r.status), Quote(r.status));
  }

  lemma NamesPlain()
    ensures Plain("enabled_groups") && Plain("firewall_rules") && Plain("last_error")
    ensures Plain("routing_rules") && Plain("status")
  {
  }

  lemma CountsSerialized(applied: nat, total: nat)
    ensures Serialize(Counts(applied, total)) == CountsText(applied, total)
  {
    assert Plain("applied") && Plain("total");
    Object2("applied", JNum(applied), NatToString(applied), "total", JNum(total), NatToString(total));
  }

  /** The rows of a query that selects by `keep` are exactly those whose id it lists. */
  lemma ListedIds<R>(es: seq<Entry<R>>, listing: seq<Entry<R>>, keep: R -> bool)
    requires forall a, b :: 0 <= a < b < |es| ==> es[a].id < es[b].id
    requires forall j :: 0 <= j < |listing| ==> listing[j] in es && keep(listing[j].row)
    requires forall p :: 0 <= p < |es| && keep(es[p].row) ==> es[p] in listing
    ensures forall p :: 0 <= p < |es| ==> (es[p].id in IdsOf(listing) <==> keep(es[p].row))
  {
    forall p | 0 <= p < |es| ensures es[p].id in IdsOf(listing) <==> keep(es[p].row) {
      if keep(es[p].row) {
        var j :| 0 <= j < |listing| && listing[j] == es[p];
      }
      if es[p].id in IdsOf(listing) {
        var j :| 0 <= j < |listing| && listing[j].id == es[p].id;
        var q :| 0 <= q < |es| && es[q] == listing[j];
        assert es[q].id == es[p].id;
      }
    }
  }

  lemma FwListedIds(img: FwImage, gid: int)
    requires img.fwRules.Valid()
    ensures forall p :: 0 <= p < |img.fwRules.entries| ==>
              (img.fwRules.entries[p].id in IdsOf(img.FirewallRulesForGroup(gid)) <==>
               FwGroupOf(img.fwRules.entries[p].row) == gid)
  {
    ListedIds(img.fwRules.entries, img.FirewallRulesForGroup(gid), FwInGroup(gid));
  }

  lemma RtListedIds(img: FwImage, gid: int)
    requires img.rtRules.Valid()
    ensures forall p :: 0 <= p < |img.rtRules.entries| ==>
              (img.rtRules.entries[p].id in IdsOf(img.RoutingRulesForGroup(gid)) <==>
               RtGroupOf(img.rtRules.entries[p].row) == gid)
  {
    ListedIds(img.rtRules.entries, img.RoutingRulesForGroup(gid), RtInGroup(gid));
  }

  /** Marking the listed rows of one more group extends the set of reconciled groups. */
  lemma MarkGroupStep<R(!new)>(es: seq<Entry<R>>, lastId: nat, groupOf: R -> int, gids: set<int>, g: int,
                               listed: set<int>, mark: Entry<R> -> Entry<R>)
    requires g !in gids
    requires forall e :: mark(e).id == e.id
    requires forall p :: 0 <= p < |es| ==> (es[p].id in listed <==> groupOf(es[p].row) == g)
    ensures MarkIds(Table(MarkIn(es, groupOf, gids, mark), lastId), listed, mark) ==
              Table(MarkIn(es, groupOf, gids + {g}, mark), lastId)
  {
    var a := MarkIds(Table(MarkIn(es, groupOf, gids, mark), lastId), listed, mark);
    var b := MarkIn(es, groupOf, gids + {g}, mark);
    assert a.entries == b;
  }

  /** Marking the rules `firewall_rules_for_group(g)` lists reconciles group `g` too. */
  lemma FwGroupStep(img: FwImage, gids: set<int>, k: Kernel, g: int)
    requires img.fwRules.Valid() && g !in gids
    ensures MarkIds(Reconciled(img, gids, k).fwRules, IdsOf(img.FirewallRulesForGroup(g)), FwMark(k)) ==
              Reconciled(img, gids + {g}, k).fwRules
  {
    FwListedIds(img, g);
    MarkGroupStep(img.fwRules.entries, img.fwRules.lastId, FwGroupOf, gids, g,
                  IdsOf(img.FirewallRulesForGroup(g)), FwMark(k));
  }

  /** Marking the rules `routing_rules_for_group(g)` lists reconciles group `g` too. */
  lemma RtGroupStep(img: FwImage, gids: set<int>, k: Kernel, g: int)
    requires img.rtRules.Valid() && g !in gids
    ensures MarkIds(Reconciled(img, gids, k).rtRules, IdsOf(img.RoutingRulesForGroup(g)), RtMark(k)) ==
              Reconciled(img, gids + {g}, k).rtRules
  {
    RtListedIds(img, g);
    MarkGroupStep(img.rtRules.entries, img.rtRules.lastId, RtGroupOf, gids, g,
                  IdsOf(img.RoutingRulesForGroup(g)), RtMark(k));
  }

  /** Before any group is reconciled the database is as it was. */
  lemma ReconciledNone(img: FwImage, k: Kernel)
    ensures Reconciled(img, {}, k) == img
  {
    assert MarkIn(img.fwRules.entries, FwGroupOf, {}, FwMark(k)) == img.fwRules.entries;
    assert MarkIn(img.rtRules.entries, RtGroupOf, {}, RtMark(k)) == img.rtRules.entries;
  }

  /** Reconciling keeps ids, definitions and so the table constraints. */
  lemma ReconciledValid(img: FwImage, gids: set<int>, k: Kernel)
    requires img.WellFormed()
    ensures Reconciled(img, gids, k).WellFormed()
    ensures Reconciled(img, gids, k).groups == img.groups && Reconciled(img, gids, k).config == img.config
  {
    var r := Reconciled(img, gids, k);
    assert forall p :: 0 <= p < |img.fwRules.entries| ==> r.fwRules.entries[p].id == img.fwRules.entries[p].id;
    assert forall p :: 0 <= p < |img.rtRules.entries| ==> r.rtRules.entries[p].id == img.rtRules.entries[p].id;
  }

  /** Groups not yet reconciled list the same firewall rules as before. */
  lemma FwListingAgrees(img: FwImage, gids: set<int>, k: Kernel, g: int)
    requires g !in gids
    ensures Reconciled(img, gids, k).FirewallRulesForGroup(g) == img.FirewallRulesForGroup(g)
  {
    var es := img.fwRules.entries;
    Table<FirewallRule>.SelectAgree(MarkIn(es, FwGroupOf, gids, FwMark(k)), es, FwInGroup(g));
  }

  /** Groups not yet reconciled list the same routing rules as before. */
  lemma RtListingAgrees(img: FwImage, gids: set<int>, k: Kernel, g: int)
    requires img.WellFormed() && g !in gids
    ensures Reconciled(img, gids, k).rtRules.Valid()
    ensures Reconciled(img, gids, k).RoutingRulesForGroup(g) == img.RoutingRulesForGroup(g)
  {
    ReconciledValid(img, gids, k);
    var es := img.rtRules.entries;
    Table<RoutingRule>.SelectAgree(MarkIn(es, RtGroupOf, gids, RtMark(k)), es, RtInGroup(g));
  }

  /** A sequence with the same rows as one with ascending ids has no two rows with one id. */
  lemma DistinctIds<R>(r: seq<Entry<R>>, s: seq<Entry<R>>)
    requires multiset(r) == multiset(s)
    requires forall a, b :: 0 <= a < b < |s| ==> s[a].id < s[b].id
    ensures forall a, b :: 0 <= a < b < |r| ==> r[a].id != r[b].id
  {
    forall a, b | 0 <= a < b < |r| ensures r[a].id != r[b].id {
      if r[a].id == r[b].id {
        assert r[a] in multiset(s) && r[b] in multiset(s);
        var x :| 0 <= x < |s| && s[x] == r[a];
        var y :| 0 <= y < |s| && s[y] == r[b];
        assert s[x] == s[y];
        TwoCopies(r, a, b);
        AtMostOnce(s, s[x]);
      }
    }
  }

  lemma TwoCopies<T>(r: seq<T>, a: nat, b: nat)
    requires a < b < |r| && r[a] == r[b]
    ensures multiset(r)[r[a]] >= 2
  {
    assert r == r[..b] + r[b..];
    assert r[..b][a] == r[a];
    assert r[b..][0] == r[b];
    assert multiset(r) == multiset(r[..b]) + multiset(r[b..]);
  }

  lemma {:induction false} AtMostOnce<R>(s: seq<Entry<R>>, x: Entry<R>)
    requires forall a, b :: 0 <= a < b < |s| ==> s[a].id < s[b].id
    ensures multiset(s)[x] <= 1
  {
    if s != [] {
      var t := s[1..];
      assert s == [s[0]] + t;
      AtMostOnce(t, x);
      if s[0] == x {
        forall j | 0 <= j < |t| ensures t[j] != x {
          assert t[j] == s[j + 1];
        }
        assert x !in multiset(t);
      }
    }
  }

  /** `enabled_groups` lists each group at most once. */
  lemma EnabledDistinct(img: FwImage)
    requires img.groups.Valid()
    ensures forall a, b :: 0 <= a < b < |img.EnabledGroups()| ==> img.EnabledGroups()[a].id != img.EnabledGroups()[b].id
  {
    Table<RuleGroup>.SelectSpec(img.groups.entries, Enabled);
    DistinctIds(img.EnabledGroups(), Table<RuleGroup>.Select(img.groups.entries, Enabled));
  }

  /** One more group of `start`: a fresh group id, its calls after the others, its errors last. */
  lemma GroupAtStep(groups: seq<Entry<RuleGroup>>, gi: nat, k: Kernel, img: FwImage, tr0: seq<KernelCall>, e0: string)
    requires img.rtRules.Valid() && gi < |groups|
    requires forall a, b :: 0 <= a < b < |groups| ==> groups[a].id != groups[b].id
    ensures groups[gi].id !in IdsOf(groups[..gi])
    ensures IdsOf(groups[..gi + 1]) == IdsOf(groups[..gi]) + {groups[gi].id}
    ensures tr0 + Calls(StartSteps(img, groups[..gi + 1])) ==
              (tr0 + Calls(StartSteps(img, groups[..gi]))) + Calls(GroupSteps(img, groups[gi].id))
    ensures LastError(k, StartSteps(img, groups[..gi + 1]), e0) ==
              LastError(k, GroupSteps(img, groups[gi].id), LastError(k, StartSteps(img, groups[..gi]), e0))
  {
    FreshGroupId(groups, gi);
    IdsOfSnoc(groups, gi);
    var before, next := StartSteps(img, groups[..gi]), GroupSteps(img, groups[gi].id);
    StartStepsSnoc(img, groups, gi);
    CallsAppend(before, next);
    AppendAssoc(tr0, Calls(before), Calls(next));
    LastErrorAppend(k, before, next, e0);
  }

  lemma AppendAssoc<T>(a: seq<T>, b: seq<T>, c: seq<T>)
    ensures a + (b + c) == (a + b) + c
  {
  }

  lemma FreshGroupId(groups: seq<Entry<RuleGroup>>, gi: nat)
    requires gi < |groups|
    requires forall a, b :: 0 <= a < b < |groups| ==> groups[a].id != groups[b].id
    ensures groups[gi].id !in IdsOf(groups[..gi])
  {
    var before := groups[..gi];
    forall j | 0 <= j < |before| ensures before[j].id != groups[gi].id {
      assert before[j] == groups[j];
    }
  }

  /** A group's calls are its firewall rules' calls, then its routing rules' calls. */
  lemma GroupStepsSplit(k: Kernel, tr0: seq<KernelCall>, img: FwImage, gid: int, e0: string)
    requires img.rtRules.Valid()
    ensures tr0 + Calls(GroupSteps(img, gid)) ==
              (tr0 + Calls(FwSteps(img.FirewallRulesForGroup(gid)))) + Calls(RtSteps(img.RoutingRulesForGroup(gid)))
    ensures LastError(k, GroupSteps(img, gid), e0) ==
              LastError(k, RtSteps(img.RoutingRulesForGroup(gid)), LastError(k, FwSteps(img.FirewallRulesForGroup(gid)), e0))
  {
    var a, b := FwSteps(img.FirewallRulesForGroup(gid)), RtSteps(img.RoutingRulesForGroup(gid));
    CallsAppend(a, b);
    LastErrorAppend(k, a, b, e0);
  }

  lemma StartStepsSnoc(img: FwImage, gs: seq<Entry<RuleGroup>>, i: nat)
    requires img.rtRules.Valid() && i < |gs|
    ensures StartSteps(img, gs[..i + 1]) == StartSteps(img, gs[..i]) + GroupSteps(img, gs[i].id)
  {
    assert gs[..i + 1][..i] == gs[..i];
  }

  lemma CallsAppend(a: seq<Step>, b: seq<Step>)
    ensures Calls(a + b) == Calls(a) + Calls(b)
  {
  }

  lemma {:induction false} LastErrorAppend(k: Kernel, a: seq<Step>, b: seq<Step>, init: string)
    ensures LastError(k, a + b, init) == LastError(k, b, LastError(k, a, init))
    decreases |b|
  {
    if b == [] {
      assert a + b == a;
    } else {
      var b' := b[..|b| - 1];
      LastErrorAppend(k, a, b', init);
      assert (a + b)[..|a + b| - 1] == a + b';
      assert (a + b)[|a + b| - 1] == b[|b| - 1];
    }
  }

  lemma IdsOfSnoc<R>(rs: seq<Entry<R>>, i: nat)
    requires i < |rs|
    ensures IdsOf(rs[..i + 1]) == IdsOf(rs[..i]) + {rs[i].id}
  {
    var a, b := rs[..i], rs[..i + 1];
    forall x | x in IdsOf(b) ensures x in IdsOf(a) + {rs[i].id} {
      var j :| 0 <= j < |b| && b[j].id == x;
      if j < i { assert a[j] == b[j]; }
    }
    forall x | x in IdsOf(a) + {rs[i].id} ensures x in IdsOf(b) {
      if x == rs[i].id { assert b[i] == rs[i]; }
      else { var j :| 0 <= j < |a| && a[j].id == x; assert b[j] == a[j]; }
    }
  }

  /** A row the kernel accepted: marking one more id is the `UPDATE` of that row. */
  lemma MarkIdsUpdate<R(!new)>(t: Table<R>, rules: seq<Entry<R>>, i: nat, mark: Entry<R> -> Entry<R>, f: R -> R)
    requires t.Valid() && i < |rules|
    requires forall j :: 0 <= j < |rules| ==> rules[j] in t.entries
    requires forall e :: mark(e).id == e.id
    requires mark(rules[i]) == Entry(rules[i].id, f(rules[i].row))
    requires f(f(rules[i].row)) == f(rules[i].row)
    ensures MarkIds(t, IdsOf(rules[..i]), mark).Valid()
    ensures MarkIds(t, IdsOf(rules[..i + 1]), mark) == MarkIds(t, IdsOf(rules[..i]), mark).UpdateId(rules[i].id, f)
  {
    var a := MarkIds(t, IdsOf(rules[..i]), mark);
    var b := MarkIds(t, IdsOf(rules[..i + 1]), mark);
    IdsOfSnoc(rules, i);
    var u := a.UpdateId(rules[i].id, f);
    forall p | 0 <= p < |t.entries| ensures b.entries[p] == u.entries[p] {
      if t.entries[p].id == rules[i].id {
        RowOfId(t, rules[i], p);
      }
    }
    assert b.entries == u.entries;
  }

  /** In a valid table the row with a given entry's id is that entry. */
  lemma RowOfId<R>(t: Table<R>, e: Entry<R>, p: int)
    requires t.Valid() && e in t.entries && 0 <= p < |t.entries| && t.entries[p].id == e.id
    ensures t.entries[p] == e
  {
    var q :| 0 <= q < |t.entries| && t.entries[q] == e;
    assert !(p < q) && !(q < p);
  }

  /** A row the kernel refused: marking it changes nothing. */
  lemma MarkIdsSkip<R(!new)>(t: Table<R>, rules: seq<Entry<R>>, i: nat, mark: Entry<R> -> Entry<R>)
    requires t.Valid() && i < |rules|
    requires forall j :: 0 <= j < |rules| ==> rules[j] in t.entries
    requires forall e :: mark(e).id == e.id
    requires mark(rules[i]) == rules[i]
    ensures MarkIds(t, IdsOf(rules[..i + 1]), mark) == MarkIds(t, IdsOf(rules[..i]), mark)
  {
    var a := MarkIds(t, IdsOf(rules[..i]), mark);
    var b := MarkIds(t, IdsOf(rules[..i + 1]), mark);
    IdsOfSnoc(rules, i);
    forall p | 0 <= p < |t.entries| ensures b.entries[p] == a.entries[p] {
      if t.entries[p].id == rules[i].id {
        var q :| 0 <= q < |t.entries| && t.entries[q] == rules[i];
        assert t.entries[p] == rules[i];
      }
    }
    assert b.entries == a.entries;
  }

  /** One more firewall rule handed to the kernel, as an `UPDATE` of its row or no change. */
  lemma FwMarkStep(t: Table<FirewallRule>, rules: seq<Entry<FirewallRule>>, i: nat, k: Kernel)
    requires t.Valid() && i < |rules|
    requires forall j :: 0 <= j < |rules| ==> rules[j] in t.entries
    ensures MarkIds(t, IdsOf(rules[..i + 1]), FwMark(k)) ==
              if k.applyRule(rules[i]).Ok?
              then MarkIds(t, IdsOf(rules[..i]), FwMark(k)).UpdateId(rules[i].id, SetFwApplied(true, AsI64(k.applyRule(rules[i]).value)))
              else MarkIds(t, IdsOf(rules[..i]), FwMark(k))
  {
    if k.applyRule(rules[i]).Ok? {
      MarkIdsUpdate(t, rules, i, FwMark(k), SetFwApplied(true, AsI64(k.applyRule(rules[i]).value)));
    } else {
      MarkIdsSkip(t, rules, i, FwMark(k));
    }
  }

  /** One more routing rule handed to the kernel, as an `UPDATE` of its row or no change. */
  lemma RtMarkStep(t: Table<RoutingRule>, rules: seq<Entry<RoutingRule>>, i: nat, k: Kernel)
    requires t.Valid() && i < |rules|
    requires forall j :: 0 <= j < |rules| ==> rules[j] in t.entries
    ensures MarkIds(t, IdsOf(rules[..i + 1]), RtMark(k)) ==
              if k.applyRoute(rules[i]).Ok?
              then MarkIds(t, IdsOf(rules[..i]), RtMark(k)).UpdateId(rules[i].id, SetRtApplied(true))
              else MarkIds(t, IdsOf(rules[..i]), RtMark(k))
  {
    if k.applyRoute(rules[i]).Ok? {
      MarkIdsUpdate(t, rules, i, RtMark(k), SetRtApplied(true));
    } else {
      MarkIdsSkip(t, rules, i, RtMark(k));
    }
  }

  lemma LastErrorSnoc(k: Kernel, steps: seq<Step>, s: Step, init: string)
    ensures LastError(k, steps + [s], init) ==
              match StepError(k, s) case Some(m) => m case None => LastError(k, steps, init)
  {
    assert (steps + [s])[..|steps|] == steps;
  }

  /** One more firewall rule: one more call, and its error text if it fails. */
  lemma FwStepsSnoc(k: Kernel, tr0: seq<KernelCall>, rules: seq<Entry<FirewallRule>>, i: nat, init: string)
    requires i < |rules|
    ensures tr0 + Calls(FwSteps(rules[..i + 1])) == (tr0 + Calls(FwSteps(rules[..i]))) + [ApplyRule(rules[i].id)]
    ensures LastError(k, FwSteps(rules[..i + 1]), init) ==
              if k.applyRule(rules[i]).Err?
              then "Failed to apply rule " + IntToString(rules[i].id) + ": " + k.applyRule(rules[i]).error
              else LastError(k, FwSteps(rules[..i]), init)
  {
    var a := FwSteps(rules[..i]);
    assert FwSteps(rules[..i + 1]) == a + [FwStep(rules[i])];
    LastErrorSnoc(k, a, FwStep(rules[i]), init);
  }

  /** One more routing rule: one more call, and its error text if it fails. */
  lemma RtStepsSnoc(k: Kernel, tr0: seq<KernelCall>, rules: seq<Entry<RoutingRule>>, i: nat, init: string)
    requires i < |rules|
    ensures tr0 + Calls(RtSteps(rules[..i + 1])) == (tr0 + Calls(RtSteps(rules[..i]))) + [ApplyRoutingRule(rules[i].id)]
    ensures LastError(k, RtSteps(rules[..i + 1]), init) ==
              if k.applyRoute(rules[i]).Err?
              then "Failed to apply routing rule " + IntToString(rules[i].id) + ": " + k.applyRoute(rules[i]).error
              else LastError(k, RtSteps(rules[..i]), init)
  {
    var a := RtSteps(rules[..i]);
    assert RtSteps(rules[..i + 1]) == a + [RtStep(rules[i])];
    LastErrorSnoc(k, a, RtStep(rules[i]), init);
  }

  // ---- What `start`, `stop` and `init` promise ----

  /** A group's id is among those of the enabled listing exactly when the group exists and is enabled. */
  lemma EnabledIds(img: FwImage, gid: int)
    requires img.groups.Valid()
    ensures gid in IdsOf(img.EnabledGroups()) <==> GroupEnabled(img, gid)
  {
    var eg := img.EnabledGroups();
    var es := img.groups.entries;
    if gid in IdsOf(eg) {
      var j :| 0 <= j < |eg| && eg[j].id == gid;
      var m :| 0 <= m < |es| && es[m] == eg[j];
      assert gid in img.groups.Ids();
      var v := img.groups.Find(gid).value;
      var n :| 0 <= n < |es| && es[n] == Entry(gid, v);
      assert m == n;
    }
    if GroupEnabled(img, gid) {
      var v := img.groups.Find(gid).value;
      var n :| 0 <= n < |es| && es[n] == Entry(gid, v);
      assert es[n] in eg;
      var j :| 0 <= j < |eg| && eg[j] == es[n];
    }
  }

  /**
   * What `start` does to a firewall rule: a rule of an enabled group that the
   * kernel installs becomes applied with the kernel's handle read as `i64`;
   * every other rule keeps its row.
   */
  lemma StartedFwRule(img: FwImage, k: Kernel, now: int, p: int)
    requires img.WellFormed() && 0 <= p < |img.fwRules.entries|
    ensures var e := img.fwRules.entries[p];
      var s := StartedImage(img, k, now).fwRules.entries[p];
      var installed := GroupEnabled(img, e.row.def.groupId) && k.applyRule(e).Ok?;
      && s.id == e.id && s.row.def == e.row.def && s.row.createdAt == e.row.createdAt
      && (s.row.applied <==> e.row.applied || installed)
      && (installed ==> s.row.nftHandle == AsI64(k.applyRule(e).value))
      && (!installed ==> s.row == e.row)
  {
    EnabledIds(img, img.fwRules.entries[p].row.def.groupId);
  }

  /** What `start` does to a routing rule: one of an enabled group that the kernel installs becomes applied. */
  lemma StartedRtRule(img: FwImage, k: Kernel, now: int, p: int)
    requires img.WellFormed() && 0 <= p < |img.rtRules.entries|
    ensures var e := img.rtRules.entries[p];
      var s := StartedImage(img, k, now).rtRules.entries[p];
      var installed := GroupEnabled(img, e.row.def.groupId) && k.applyRoute(e).Ok?;
      && s.id == e.id && s.row.def == e.row.def && s.row.createdAt == e.row.createdAt
      && (s.row.applied <==> e.row.applied || installed)
      && (!installed ==> s.row == e.row)
  {
    EnabledIds(img, img.rtRules.entries[p].row.def.groupId);
  }

  /** `start` changes only the rule tables and the state column. */
  lemma StartedKeeps(img: FwImage, k: Kernel, now: int)
    requires img.WellFormed()
    ensures StartedImage(img, k, now).WellFormed()
    ensures StartedImage(img, k, now).groups == img.groups
    ensures StartedImage(img, k, now).userVersion == img.userVersion
    ensures |StartedImage(img, k, now).fwRules.entries| == |img.fwRules.entries|
    ensures |StartedImage(img, k, now).rtRules.entries| == |img.rtRules.entries|
    ensures img.config.Some? ==> StartedImage(img, k, now).config == Some(img.config.value.(state := "started", updatedAt := now))
  {
    ReconciledValid(img, IdsOf(img.EnabledGroups()), k);
  }

  /** Stopping after a start leaves the database as stopping without it would. */
  lemma StartThenStop(img: FwImage, k: Kernel, t1: int, t2: int)
    requires img.WellFormed()
    ensures StartedImage(img, k, t1).WellFormed()
    ensures StoppedImage(StartedImage(img, k, t1), t2) == StoppedImage(img, t2)
  {
    StartedKeeps(img, k, t1);
    var a := StoppedImage(StartedImage(img, k, t1), t2);
    var b := StoppedImage(img, t2);
    StopFwSame(img, k, t1, t2);
    StopRtSame(img, k, t1, t2);
    assert a.fwRules == b.fwRules && a.rtRules == b.rtRules;
  }

  lemma StopFwSame(img: FwImage, k: Kernel, t1: int, t2: int)
    requires img.WellFormed() && StartedImage(img, k, t1).WellFormed()
    ensures StoppedImage(StartedImage(img, k, t1), t2).fwRules == StoppedImage(img, t2).fwRules
  {
    var st := StartedImage(img, k, t1);
    var a := st.ClearFwAppliedState().fwRules;
    var b := img.ClearFwAppliedState().fwRules;
    forall p | 0 <= p < |a.entries| ensures a.entries[p] == b.entries[p] {
      StartedFwRule(img, k, t1, p);
    }
    assert a.entries == b.entries;
  }

  lemma StopRtSame(img: FwImage, k: Kernel, t1: int, t2: int)
    requires img.WellFormed() && StartedImage(img, k, t1).WellFormed()
    ensures StoppedImage(StartedImage(img, k, t1), t2).rtRules == StoppedImage(img, t2).rtRules
  {
    var st := StartedImage(img, k, t1);
    var a := st.ClearFwAppliedState().ClearRtAppliedState().rtRules;
    var b := img.ClearFwAppliedState().ClearRtAppliedState().rtRules;
    forall p | 0 <= p < |a.entries| ensures a.entries[p] == b.entries[p] {
      StartedRtRule(img, k, t1, p);
    }
    assert a.entries == b.entries;
  }

  /** After `stop` no rule of either kind is listed as applied. */
  lemma StoppedNothingApplied(img: FwImage, now: int)
    requires img.WellFormed()
    ensures StoppedImage(img, now).AppliedFirewallRules() == []
    ensures StoppedImage(img, now).AppliedRoutingRules() == []
  {
    var c := img.ClearFwAppliedState();
    ClearFwLeavesNothing(img);
    ClearRtLeavesNothing(c);
    assert StoppedImage(img, now).fwRules == c.ClearRtAppliedState().fwRules == c.fwRules;
    assert StoppedImage(img, now).rtRules == c.ClearRtAppliedState().rtRules;
  }

  /** After a successful `init` no rule of either kind is listed as applied. */
  lemma InitializedNothingApplied(file: FwImage, now: int)
    requires file.WellFormed()
    ensures InitializedImage(file, now).AppliedFirewallRules() == []
    ensures InitializedImage(file, now).AppliedRoutingRules() == []
  {
    var m := file.Migrate().InitConfig(now);
    assert m.WellFormed();
    var c := m.ClearFwAppliedState();
    ClearFwLeavesNothing(m);
    ClearRtLeavesNothing(c);
    assert InitializedImage(file, now).fwRules == c.ClearRtAppliedState().fwRules == c.fwRules;
    assert InitializedImage(file, now).rtRules == c.ClearRtAppliedState().rtRules;
  }

  lemma FwStepsMembers(rs: seq<Entry<FirewallRule>>, s: Step)
    ensures s in FwSteps(rs) <==> s.FwStep? && s.fw in rs
  {
    if s.FwStep? && s.fw in rs {
      var j :| 0 <= j < |rs| && rs[j] == s.fw;
      assert FwSteps(rs)[j] == s;
    }
  }

  lemma RtStepsMembers(rs: seq<Entry<RoutingRule>>, s: Step)
    ensures s in RtSteps(rs) <==> s.RtStep? && s.rt in rs
  {
    if s.RtStep? && s.rt in rs {
      var j :| 0 <= j < |rs| && rs[j] == s.rt;
      assert RtSteps(rs)[j] == s;
    }
  }

  /** The steps of one group are its firewall rules and its routing rules. */
  lemma GroupStepsMembers(img: FwImage, gid: int, s: Step)
    requires img.rtRules.Valid()
    ensures s in GroupSteps(img, gid) <==>
      || (s.FwStep? && s.fw in img.fwRules.entries && s.fw.row.def.groupId == gid)
      || (s.RtStep? && s.rt in img.rtRules.entries && s.rt.row.def.groupId == gid)
  {
    var fs, rs := img.FirewallRulesForGroup(gid), img.RoutingRulesForGroup(gid);
    FwStepsMembers(fs, s);
    RtStepsMembers(rs, s);
    if s.FwStep? && s.fw in img.fwRules.entries && s.fw.row.def.groupId == gid {
      var m :| 0 <= m < |img.fwRules.entries| && img.fwRules.entries[m] == s.fw;
    }
    if s.RtStep? && s.rt in img.rtRules.entries && s.rt.row.def.groupId == gid {
      var m :| 0 <= m < |img.rtRules.entries| && img.rtRules.entries[m] == s.rt;
    }
  }

  /** The steps of a list of groups are the rules whose group is in the list. */
  lemma {:induction false} StepsOfGroups(img: FwImage, gs: seq<Entry<RuleGroup>>, s: Step)
    requires img.rtRules.Valid()
    ensures s in StartSteps(img, gs) <==>
      || (s.FwStep? && s.fw in img.fwRules.entries && s.fw.row.def.groupId in IdsOf(gs))
      || (s.RtStep? && s.rt in img.rtRules.entries && s.rt.row.def.groupId in IdsOf(gs))
    decreases |gs|
  {
    if gs != [] {
      var n := |gs| - 1;
      StepsOfGroups(img, gs[..n], s);
      GroupStepsMembers(img, gs[n].id, s);
      IdsOfSnoc(gs, n);
      assert gs[..n + 1] == gs;
    }
  }

  /**
   * `start` hands the kernel exactly the rules of the enabled groups: every
   * one of them, and no other.
   */
  lemma StartStepsCover(img: FwImage, s: Step)
    requires img.WellFormed()
    ensures s in StartSteps(img, img.EnabledGroups()) <==>
      || (s.FwStep? && s.fw in img.fwRules.entries && GroupEnabled(img, s.fw.row.def.groupId))
      || (s.RtStep? && s.rt in img.rtRules.entries && GroupEnabled(img, s.rt.row.def.groupId))
  {
    StepsOfGroups(img, img.EnabledGroups(), s);
    if s.FwStep? { EnabledIds(img, s.fw.row.def.groupId); }
    if s.RtStep? { EnabledIds(img, s.rt.row.def.groupId); }
  }

  /** With no failing step, `last_error` is left as it was. */
  lemma {:induction false} LastErrorNone(k: Kernel, steps: seq<Step>, init: string)
    requires forall j :: 0 <= j < |steps| ==> StepError(k, steps[j]).None?
    ensures LastError(k, steps, init) == init
    decreases |steps|
  {
    if steps != [] {
      var n := |steps| - 1;
      assert forall j :: 0 <= j < n ==> steps[..n][j] == steps[j];
      LastErrorNone(k, steps[..n], init);
    }
  }

  /** Otherwise `last_error` is the message of the last step that failed. */
  lemma LastErrorLast(k: Kernel, steps: seq<Step>, init: string, j: int)
    requires 0 <= j < |steps| && StepError(k, steps[j]).Some?
    requires forall l :: j < l < |steps| ==> StepError(k, steps[l]).None?
    ensures LastError(k, steps, init) == StepError(k, steps[j]).value
  {
    var a, b := steps[..j + 1], steps[j + 1..];
    var mid := LastError(k, a, init);
    assert mid == StepError(k, steps[j]).value by {
      assert a[|a| - 1] == steps[j];
      LastErrorHit(k, a, init);
    }
    assert LastError(k, b, mid) == mid by {
      QuietTail(k, steps, b, j);
      LastErrorNone(k, b, mid);
    }
    assert steps == a + b;
    LastErrorAppend(k, a, b, init);
  }

  /** The steps after the last failing one all succeed. */
  lemma QuietTail(k: Kernel, steps: seq<Step>, b: seq<Step>, j: int)
    requires 0 <= j < |steps| && b == steps[j + 1..]
    requires forall l :: j < l < |steps| ==> StepError(k, steps[l]).None?
    ensures forall l :: 0 <= l < |b| ==> StepError(k, b[l]).None?
  {
    assert forall l :: 0 <= l < |b| ==> b[l] == steps[j + 1 + l];
  }

  lemma LastErrorHit(k: Kernel, steps: seq<Step>, init: string)
    requires steps != [] && StepError(k, steps[|steps| - 1]).Some?
    ensures LastError(k, steps, init) == StepError(k, steps[|steps| - 1]).value
  {
  }
}
