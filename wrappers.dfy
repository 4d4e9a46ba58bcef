/** Optional values and error-carrying results, used wherever the source returns
 *  `None` or raises an exception. */
module Wrappers {
  datatype Option<T> = None | Some(value: T)
  {
    function GetOr(default: T): T
    {
      if Some? then value else default
    }
  }

  /** `Err` carries the exception class or the message the source produces. */
  datatype Result<T> = Ok(value: T) | Err(error: string)
}
