/** Optional values and the typed failures the retail service raises instead of exceptions. */
module Outcomes {

  datatype Option<+T> = None | Some(value: T)

  /** The exception kinds the service lets escape to its callers. */
  datatype Error =
    | InvalidOperation(message: string)  // InvalidOperationException: a workflow precondition failed
    | ArgumentError(message: string)     // ArgumentException: a missing id or a missing product
    | NotFound                           // the table store's "entity not found" failure, not caught by the service

  /** A value, or the failure that replaced it. */
  datatype Result<+T> = Ok(value: T) | Err(error: Error)

  /** The value stored under `k`, if any: the service's "get, or null when the lookup throws". */
  function Lookup<V>(m: map<string, V>, k: string): (r: Option<V>)
    ensures r.Some? <==> k in m
    ensures r.Some? ==> r.value == m[k]
  {
    if k in m then Some(m[k]) else None
  }
}
