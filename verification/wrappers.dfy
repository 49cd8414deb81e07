/** The optional value used wherever the painter answers "nothing here":
    a ray that misses, a direction that cannot be normalised, a brush colour
    that is left as it was. */
module Wrappers {

  datatype Option<+T> = None | Some(value: T) {

    /** The carried value, or `default` when there is none. */
    function GetOr(default: T): (r: T)
      ensures Some? ==> r == value
      ensures None? ==> r == default
    {
      match this
      case Some(v) => v
      case None => default
    }
  }
}
