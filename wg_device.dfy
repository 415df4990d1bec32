/**
 * The wireguard-go device as the bridge sees it: every call the bridge makes
 * is appended to `calls`, and what the engine answers (an error, or the text
 * of its configuration dump) is a parameter of the call, since the engine's
 * own state is not modelled.
 */
module WgDevice {
  import opened Wrappers

  /** The error codes of src/wireguard_go_bridge.h. */
  const WG_OK := 0
  const WG_ERR_IPC_SET := -4
  const WG_ERR_NOT_FOUND := -5

  datatype Call =
    | SetCall(config: string)
    | GetCall
    | UpCall
    | DownCall
    | CloseCall

  class Device {
    /** Every call made on this device, oldest first. */
    var calls: seq<Call>

    constructor ()
      ensures calls == []
    {
      calls := [];
    }

    /** `IpcSet`: hand a UAPI configuration to the engine; `outcome` is what it answers. */
    method IpcSet(config: string, outcome: Option<string>) returns (err: Option<string>)
      modifies this
      ensures err == outcome
      ensures calls == old(calls) + [SetCall(config)]
    {
      calls := calls + [SetCall(config)];
      err := outcome;
    }

    /** `IpcGet`: the engine's UAPI dump, or the error it gives. */
    method IpcGet(answer: Result<string, string>) returns (r: Result<string, string>)
      modifies this
      ensures r == answer
      ensures calls == old(calls) + [GetCall]
    {
      calls := calls + [GetCall];
      r := answer;
    }

    method Up(outcome: Option<string>) returns (err: Option<string>)
      modifies this
      ensures err == outcome
      ensures calls == old(calls) + [UpCall]
    {
      calls := calls + [UpCall];
      err := outcome;
    }

    method Down()
      modifies this
      ensures calls == old(calls) + [DownCall]
    {
      calls := calls + [DownCall];
    }

    method Close()
      modifies this
      ensures calls == old(calls) + [CloseCall]
    {
      calls := calls + [CloseCall];
    }
  }
}
