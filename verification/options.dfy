/** Optional values and fallible results, used for pandas' missing cells (NaN / NaT / None)
    and for the operations that raise instead of returning. */
module Options {

  /** A cell or aggregate that may be missing. `None` plays the part of pandas' NaN, NaT and None. */
  datatype Option<+T> = None | Some(value: T) {

    /** The wrapped value, or `default` when missing (pandas' `fillna(default)` on one cell). */
    function GetOr(default: T): T {
      match this
      case Some(v) => v
      case None => default
    }
  }

  /** The outcome of an operation that may raise. */
  datatype Result<+T, +E> = Ok(value: T) | Err(error: E)
}
