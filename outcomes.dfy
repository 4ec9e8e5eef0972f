/** Optional values and the exceptions the services throw, as values. */
module Outcomes {

  /** A Java reference that may be null. */
  datatype Option<+T> = None | Some(value: T)

  function Lookup<K, V>(m: map<K, V>, k: K): (r: Option<V>)
  {
    if k in m then Some(m[k]) else None
  }

  /** The unchecked exceptions thrown by the services. */
  datatype Failure =
    | IllegalArgument(message: string)
    | IllegalState(message: string)
    | NullPointer

  /** A service call: its return value, or the exception it throws. */
  datatype Result<+T> = Ok(value: T) | Err(failure: Failure)
}
