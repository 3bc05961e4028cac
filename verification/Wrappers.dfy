/** Helpers that know nothing of the program: optional values and lists of lists. */
module Wrappers {

  datatype Option<+T> = None | Some(value: T)

  /** All elements of a list of lists, in order. */
  function Flatten<T>(ll: seq<seq<T>>): seq<T> {
    if ll == [] then [] else ll[0] + Flatten(ll[1..])
  }
}
