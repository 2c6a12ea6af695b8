/** The optional-value datatype shared by every module of the model. */
module Wrappers {

  /** A value that may be absent: a missing storage entry, a failed parse. */
  datatype Option<+T> = None | Some(value: T)
}

/**
 * Browser-local storage entries that hold JSON text.  JSON itself is not
 * modelled: an entry either decodes to the value it encodes (`Parsed`) or
 * is text that `JSON.parse` rejects (`Malformed`).
 */
module Storage {
  import opened Wrappers

  datatype Entry<+T> = Parsed(value: T) | Malformed

  /**
   * `JSON.parse(localStorage.getItem(key) || fallback)` guarded by a
   * try/catch that returns the fallback: an absent or malformed entry
   * loads as `fallback`.
   */
  function LoadOr<T>(e: Option<Entry<T>>, fallback: T): (r: T)
    ensures e == Some(Parsed(r)) || r == fallback
    ensures (e.Some? && e.value.Parsed?) ==> r == e.value.value
  {
    match e
    case Some(Parsed(v)) => v
    case _ => fallback
  }
}
