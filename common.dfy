/** Failure-compatible wrappers shared by every module of the ledger model. */
module Common {

  /** A value that may be absent: a nullable column or an omitted keyword argument. */
  datatype Option<+T> = None | Some(value: T) {
    function GetOr(default: T): T {
      match this
      case Some(v) => v
      case None => default
    }
  }

  /** A keyword argument left at `None` keeps the stored value; a given one replaces it. */
  function Pick<T>(given: Option<T>, current: T): T {
    if given.Some? then given.value else current
  }

  /** The same for a nullable column. */
  function PickOpt<T>(given: Option<T>, current: Option<T>): Option<T> {
    if given.Some? then given else current
  }

  /** Either the result of an operation or the error it raised. */
  datatype Result<+T, +E> = Success(value: T) | Failure(error: E)
}
