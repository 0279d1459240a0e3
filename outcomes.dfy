/** Optional values and the outcomes of calls into the hosted backend. */
module Outcomes {

  /** A value that may be missing (`null` / `undefined` in the page). */
  datatype Option<T> = None | Some(value: T)

  /** What a backend call that returns data hands back: its `data` when
      `error` is null, or the fact that `error` was set. */
  datatype Reply<T> = Ok(value: T) | Err

  /** What a backend call that returns no data hands back: whether `error`
      was null. */
  datatype Ack = Acked | Failed
}
