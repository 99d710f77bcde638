/** Optional values, the model of Rust's `Option`. */
module Wrappers {

  datatype Option<+T> = None | Some(value: T) {

    /** The `unwrap_or` of the source: the value if present, the default otherwise. */
    function UnwrapOr(default: T): T
    {
      match this
      case Some(v) => v
      case None => default
    }
  }
}
