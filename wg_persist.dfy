/**
 * The persistent device (src/persistent_device.go): a wireguard-go device
 * whose full configuration is saved to the `ipc_state` row of a state
 * database after every successful IpcSet, and fed back on creation.
 */
module WgPersist {
  import opened Wrappers
  import opened Strings
  import WgDevice

  // ---------------------------------------------------------------------
  // filterIpcDump
  // ---------------------------------------------------------------------

  /** The read-only fields IpcGet reports and IpcSet rejects. */
  predicate ReadOnly(line: string)
  {
    || StartsWith(line, "last_handshake_time_sec=")
    || StartsWith(line, "last_handshake_time_nsec=")
    || StartsWith(line, "rx_bytes=")
    || StartsWith(line, "tx_bytes=")
    || StartsWith(line, "protocol_version=")
  }

  /** What one line contributes to the filtered dump: nothing, or the line and a line break. */
  function Kept(line: string): string
  {
    if ReadOnly(line) then "" else line + "\n"
  }

  /** The filtered text of a run of lines. */
  function FilterLines(lines: seq<string>): string
    decreases |lines|
  {
    if lines == [] then "" else FilterLines(lines[..|lines| - 1]) + Kept(lines[|lines| - 1])
  }

  /** `filterIpcDump`, as a specification: each line of the dump that is not read-only, followed by '\n'. */
  function FilteredDump(dump: string): string
  {
    FilterLines(Split(dump, '\n'))
  }

  /** `filterIpcDump`. */
  method FilterIpcDump(dump: string) returns (result: string)
    ensures result == FilteredDump(dump)
  {
    var lines := Split(dump, '\n');
    result := "";
    for i := 0 to |lines|
      invariant result == FilterLines(lines[..i])
    {
      var line := lines[i];
      assert lines[..i + 1][..i] == lines[..i];
      if ReadOnly(line) {
        continue;
      }
      result := result + line;
      result := result + "\n";
    }
    assert lines[..|lines|] == lines;
  }

  /** The lines the filter keeps, in order. */
  function KeptLines(lines: seq<string>): seq<string>
    decreases |lines|
  {
    if lines == [] then []
    else KeptLines(lines[..|lines| - 1]) + (if ReadOnly(lines[|lines| - 1]) then [] else [lines[|lines| - 1]])
  }

  /** The kept lines are exactly the lines of the input that are not read-only. */
  lemma {:induction false} KeptLinesExact(lines: seq<string>)
    ensures forall l :: l in KeptLines(lines) <==> l in lines && !ReadOnly(l)
    decreases |lines|
  {
    if lines != [] {
      var init, last := lines[..|lines| - 1], lines[|lines| - 1];
      KeptLinesExact(init);
      assert lines == init + [last];
    }
  }

  /** The filtered text is the kept lines, each followed by '\n'. */
  lemma {:induction false} FilterTerminated(lines: seq<string>)
    ensures FilterLines(lines) == Terminated(KeptLines(lines))
    decreases |lines|
  {
    if lines != [] {
      var init, last := lines[..|lines| - 1], lines[|lines| - 1];
      FilterTerminated(init);
      if !ReadOnly(last) {
        assert KeptLines(lines) == KeptLines(init) + [last];
        assert FilterLines(lines) == FilterLines(init) + (last + "\n");
        TerminatedSnoc(KeptLines(init), last);
      } else {
        assert KeptLines(lines) == KeptLines(init) + [] == KeptLines(init);
        assert FilterLines(lines) == FilterLines(init) + "" == FilterLines(init);
      }
    }
  }

  /**
   * The filtered dump, split back into lines, is exactly the kept lines in
   * order, then the empty text after the final '\n': no read-only field
   * survives, and every other line does.
   */
  lemma FilteredLines(dump: string)
    ensures Split(FilteredDump(dump), '\n') == KeptLines(Split(dump, '\n')) + [""]
  {
    var lines := Split(dump, '\n');
    var kept := KeptLines(lines);
    FilterTerminated(lines);
    KeptLinesExact(lines);
    assert forall i :: 0 <= i < |kept| ==> kept[i] in lines;
    SplitTerminated(kept);
  }

  lemma {:induction false} KeptAll(ls: seq<string>)
    requires forall l :: l in ls ==> !ReadOnly(l)
    ensures KeptLines(ls) == ls
    decreases |ls|
  {
    if ls != [] {
      var init, last := ls[..|ls| - 1], ls[|ls| - 1];
      assert forall l :: l in init ==> !ReadOnly(l) by {
        assert forall l :: l in init ==> l in ls;
      }
      KeptAll(init);
      assert init + [last] == ls;
      KeptSnoc(init, last);
    }
  }

  /** A line that is not read-only is kept at the end. */
  lemma KeptSnoc(init: seq<string>, last: string)
    requires !ReadOnly(last)
    ensures KeptLines(init + [last]) == KeptLines(init) + [last]
  {
    assert (init + [last])[..|init|] == init;
  }

  /**
   * Filtering a filtered dump again keeps every line and adds one more
   * empty line: the stored dump already ends with the blank line that ends
   * an IpcSet.
   */
  lemma FilterTwice(dump: string)
    ensures FilteredDump(FilteredDump(dump)) == FilteredDump(dump) + "\n"
  {
    var lines := Split(dump, '\n');
    var kept := KeptLines(lines);
    var f := FilteredDump(dump);
    assert Split(f, '\n') == kept + [""] by {
      FilteredLines(dump);
    }
    assert FilterLines(kept) == f by {
      KeptLinesExact(lines);
      KeptAll(kept);
      FilterTerminated(kept);
      FilterTerminated(lines);
    }
    assert FilterLines(kept + [""]) == FilterLines(kept) + "\n" by {
      assert (kept + [""])[..|kept|] == kept;
      assert !ReadOnly("");
    }
  }

  // ---------------------------------------------------------------------
  // persistentDevice
  // ---------------------------------------------------------------------

  /** The faults the environment may raise while a persistent device is created. */
  datatype CreateFaults = CreateFaults(
    openError: Option<string>,
    pingError: Option<string>,
    tunError: Option<string>,
    deviceCreated: bool,
    restoreOutcome: Option<string>)

  /** The error `database/sql` returns for a statement on a closed handle. */
  const DB_CLOSED := "sql: database is closed"

  class PersistentDevice {
    var dev: WgDevice.Device
    /** The `dump` column of the `ipc_state` row with id 1; None when there is no row. */
    var stateRow: Option<string>
    var dbOpen: bool

    constructor Wrap(dev: WgDevice.Device, stateRow: Option<string>)
      ensures this.dev == dev && this.stateRow == stateRow && dbOpen
    {
      this.dev := dev;
      this.stateRow := stateRow;
      dbOpen := true;
    }

    /**
     * `restore`: no row or an empty dump restores nothing; otherwise the dump
     * is handed to IpcSet, and its error is the result.
     */
    method Restore(outcome: Option<string>) returns (err: Option<string>)
      modifies dev
      ensures stateRow.None? || stateRow.value == "" ==> err.None? && dev.calls == old(dev.calls)
      ensures stateRow.Some? && stateRow.value != "" ==>
                err == outcome && dev.calls == old(dev.calls) + [WgDevice.SetCall(stateRow.value)]
    {
      if stateRow.None? || stateRow.value == "" {
        return None;
      }
      err := dev.IpcSet(stateRow.value, outcome);
    }

    /**
     * `persist`: the device's dump, filtered, replaces the stored row; an
     * IpcGet error is reported and nothing is written, and so is the error
     * `database/sql` gives for a statement on a closed handle.
     */
    method Persist(answer: Result<string, string>) returns (err: Option<string>)
      modifies this, dev
      ensures dev == old(dev) && dbOpen == old(dbOpen)
      ensures dev.calls == old(dev.calls) + [WgDevice.GetCall]
      ensures answer.Err? ==> err == Some("ipc get: " + answer.error) && stateRow == old(stateRow)
      ensures answer.Ok? && !dbOpen ==> err == Some(DB_CLOSED) && stateRow == old(stateRow)
      ensures answer.Ok? && dbOpen ==> err.None? && stateRow == Some(FilteredDump(answer.value))
    {
      var dump := dev.IpcGet(answer);
      if dump.Err? {
        return Some("ipc get: " + dump.error);
      }
      var filtered := FilterIpcDump(dump.value);
      if !dbOpen {
        return Some(DB_CLOSED);
      }
      stateRow := Some(filtered);
      err := None;
    }

    /**
     * `ipcSet`: the configuration goes to the device; only when it is
     * accepted is the resulting state persisted.
     */
    method IpcSet(config: string, outcome: Option<string>, answer: Result<string, string>) returns (err: Option<string>)
      modifies this, dev
      ensures dev == old(dev) && dbOpen == old(dbOpen)
      ensures outcome.Some? ==> err == outcome && stateRow == old(stateRow)
      ensures outcome.Some? ==> dev.calls == old(dev.calls) + [WgDevice.SetCall(config)]
      ensures outcome.None? ==> dev.calls == old(dev.calls) + [WgDevice.SetCall(config), WgDevice.GetCall]
      ensures outcome.None? && answer.Err? ==> err == Some("ipc get: " + answer.error) && stateRow == old(stateRow)
      ensures outcome.None? && answer.Ok? && !dbOpen ==> err == Some(DB_CLOSED) && stateRow == old(stateRow)
      ensures outcome.None? && answer.Ok? && dbOpen ==> err.None? && stateRow == Some(FilteredDump(answer.value))
    {
      err := dev.IpcSet(config, outcome);
      if err.Some? {
        return;
      }
      err := Persist(answer);
    }

    /** `ipcGet`: the device's dump as it stands. */
    method IpcGet(answer: Result<string, string>) returns (r: Result<string, string>)
      modifies dev
      ensures r == answer && dev.calls == old(dev.calls) + [WgDevice.GetCall]
    {
      r := dev.IpcGet(answer);
    }

    /** `close`: the device and then the state database are closed. */
    method Close()
      modifies this, dev
      ensures dev == old(dev) && stateRow == old(stateRow) && !dbOpen
      ensures dev.calls == old(dev.calls) + [WgDevice.CloseCall]
    {
      dev.Close();
      dbOpen := false;
    }
  }

  /** The message `newPersistentDevice` gives for each failure, in the order it checks them. */
  function CreateError(stateRow: Option<string>, f: CreateFaults): Option<string>
  {
    if f.openError.Some? then Some("open state db: " + f.openError.value)
    else if f.pingError.Some? then Some("ping state db: " + f.pingError.value)
    else if f.tunError.Some? then Some("create tun: " + f.tunError.value)
    else if !f.deviceCreated then Some("create device")
    else if stateRow.Some? && stateRow.value != "" && f.restoreOutcome.Some? then Some("restore: " + f.restoreOutcome.value)
    else None
  }

  /**
   * `newPersistentDevice`: open and ping the state database, create the TUN
   * device and the engine, then restore the stored state. Any failure
   * releases what was acquired and reports the step.
   */
  method NewPersistentDevice(stateRow: Option<string>, f: CreateFaults) returns (r: Result<PersistentDevice, string>)
    ensures r.Err? <==> CreateError(stateRow, f).Some?
    ensures r.Err? ==> r.error == CreateError(stateRow, f).value
    ensures r.Ok? ==> fresh(r.value) && fresh(r.value.dev) && r.value.dbOpen && r.value.stateRow == stateRow
    ensures r.Ok? && (stateRow.None? || stateRow.value == "") ==> r.value.dev.calls == []
    ensures r.Ok? && stateRow.Some? && stateRow.value != "" ==> r.value.dev.calls == [WgDevice.SetCall(stateRow.value)]
  {
    if f.openError.Some? {
      return Err("open state db: " + f.openError.value);
    }
    if f.pingError.Some? {
      return Err("ping state db: " + f.pingError.value);
    }
    if f.tunError.Some? {
      return Err("create tun: " + f.tunError.value);
    }
    if !f.deviceCreated {
      return Err("create device");
    }
    var dev := new WgDevice.Device();
    var pd := new PersistentDevice.Wrap(dev, stateRow);
    var err := pd.Restore(f.restoreOutcome);
    if err.Some? {
      dev.Close();
      return Err("restore: " + err.value);
    }
    return Ok(pd);
  }
}
