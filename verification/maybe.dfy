/**
 * A value that may be missing: the outcome of a dictionary lookup, or the
 * mean of an empty image, which Python computes as NaN.
 */
module Maybes {

  datatype Maybe<T> = Nothing | Just(value: T) {

    /** The held value, or `fallback` when there is none; the second argument of `dict.get`. */
    function Else(fallback: T): T {
      if Just? then value else fallback
    }
  }
}
