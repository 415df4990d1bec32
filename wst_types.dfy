/**
 * Error codes and the exception of the wstunnel bridge
 * (wstunnel_bridge/types.py).
 */
module WstTypes {
  import opened Wrappers
  import opened Strings

  /** The result codes returned by the wstunnel engine. */
  datatype ErrorCode = OK | ALREADY_RUNNING | INVALID_PARAM | RUNTIME | START_FAILED | NOT_RUNNING | CONFIG_NULL

  function CodeValue(c: ErrorCode): (v: int)
    ensures -6 <= v <= 0
  {
    match c
    case OK => 0
    case ALREADY_RUNNING => -1
    case INVALID_PARAM => -2
    case RUNTIME => -3
    case START_FAILED => -4
    case NOT_RUNNING => -5
    case CONFIG_NULL => -6
  }

  /** The enum conversion `ErrorCode(v)`: None where Python raises ValueError. */
  function CodeOf(v: int): (r: Option<ErrorCode>)
    ensures r.Some? <==> -6 <= v <= 0
    ensures r.Some? ==> CodeValue(r.value) == v
  {
    match v
    case 0 => Some(OK)
    case -1 => Some(ALREADY_RUNNING)
    case -2 => Some(INVALID_PARAM)
    case -3 => Some(RUNTIME)
    case -4 => Some(START_FAILED)
    case -5 => Some(NOT_RUNNING)
    case -6 => Some(CONFIG_NULL)
    case _ => None
  }

  lemma CodeOfValue(c: ErrorCode)
    ensures CodeOf(CodeValue(c)) == Some(c)
  {
  }

  /** Log levels accepted by the engine. */
  datatype LogLevel = ERROR | WARN | INFO | DEBUG | TRACE

  function LogLevelValue(l: LogLevel): int
  {
    match l
    case ERROR => 0
    case WARN => 1
    case INFO => 2
    case DEBUG => 3
    case TRACE => 4
  }

  /** The message table; OK has no entry. */
  function TableMessage(c: ErrorCode): Option<string>
  {
    match c
    case OK => None
    case ALREADY_RUNNING => Some("Client is already running")
    case INVALID_PARAM => Some("Invalid parameter")
    case RUNTIME => Some("Tokio runtime error")
    case START_FAILED => Some("Client start failed")
    case NOT_RUNNING => Some("Client is not running")
    case CONFIG_NULL => Some("Config handle is null")
  }

  /** What `WstunnelError.code` holds: the enum member, or the raw int when the value is not one. */
  datatype StoredCode = Known(code: ErrorCode) | Raw(raw: int)
  {
    function Value(): int
    {
      if Known? then CodeValue(code) else raw
    }
  }

  datatype WstunnelError = WstunnelError(code: StoredCode, detail: string, message: string)

  /** The text before the optional detail: the table entry, or "Unknown error (<code>)". */
  function BaseMessage(code: int): string
  {
    var c := CodeOf(code);
    if c.Some? && TableMessage(c.value).Some? then TableMessage(c.value).value
    else "Unknown error (" + IntToString(code) + ")"
  }

  /** The exception constructor `WstunnelError(code, detail)`. */
  function NewError(code: int, detail: string): (e: WstunnelError)
    ensures e.code.Value() == code
    ensures e.code.Known? <==> -6 <= code <= 0
    ensures e.detail == detail
    ensures detail == "" ==> e.message == BaseMessage(code)
    ensures detail != "" ==> e.message == BaseMessage(code) + ": " + detail
  {
    var stored := match CodeOf(code) case Some(c) => Known(c) case None => Raw(code);
    var msg := if detail != "" then BaseMessage(code) + ": " + detail else BaseMessage(code);
    WstunnelError(stored, detail, msg)
  }

  /** Every code outside the table, OK included, is reported as unknown with its number. */
  lemma UnknownCodeMessage(code: int)
    requires CodeOf(code).None? || code == 0
    ensures NewError(code, "").message == "Unknown error (" + IntToString(code) + ")"
  {
  }

  /** A known non-OK code reports its table text. */
  lemma KnownCodeMessage(c: ErrorCode)
    requires c != OK
    ensures NewError(CodeValue(c), "").message == TableMessage(c).value
    ensures NewError(CodeValue(c), "").code == Known(c)
  {
    CodeOfValue(c);
  }

  /** `check_error`: returns when the engine result is OK, raises WstunnelError(result) otherwise. */
  function CheckError(result: int): (r: Result<(), WstunnelError>)
    ensures r.Ok? <==> result == CodeValue(OK)
    ensures r.Err? ==> r.error.code.Value() == result && r.error.detail == ""
  {
    if result != 0 then Err(NewError(result, "")) else Ok(())
  }
}
