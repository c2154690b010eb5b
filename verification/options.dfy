/** Optional values: a JavaScript value that may be `undefined`, a lookup
    that may miss, a step that may throw. */
module Options {

  datatype Option<T> = None | Some(value: T) {
    function GetOr(default: T): (r: T)
      ensures this.Some? ==> r == value
      ensures this.None? ==> r == default
    {
      match this
      case Some(v) => v
      case None => default
    }
  }

  /** JavaScript truthiness of a string that may be `undefined`. */
  predicate Present(s: Option<string>) {
    s.Some? && s.value != ""
  }
}
