/** Optional values: the model's rendering of TypeScript's `T | undefined`
    and `T | null`. */
module Wrappers {

  datatype Option<+T> = None | Some(value: T) {

    /** The wrapped value, or `default` when there is none (`x ?? d`). */
    function GetOr(default: T): T {
      match this
      case Some(v) => v
      case None => default
    }
  }

  /** JavaScript truthiness of an optional string: `undefined`, `null` and the
      empty string are all falsy. */
  predicate IsSet(o: Option<string>) {
    o.Some? && o.value != ""
  }
}
