/** Option and Result, used by every module for the source's error returns. */
module Wrappers {
  datatype Option<T> = None | Some(value: T)
  {
    function GetOr(default: T): T
    {
      if Some? then value else default
    }
  }

  datatype Result<T, E> = Ok(value: T) | Err(error: E)
  {
    /** The value, with the error dropped. */
    function ToOption(): Option<T>
    {
      if Ok? then Some(value) else None
    }
  }
}
