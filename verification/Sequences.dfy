/** Small vocabulary for lists, shared by the models: the front and the last element, and values
    that may be missing. */
module Sequences {

  datatype Option<+T> = None | Some(value: T)

  function Front<T>(xs: seq<T>): seq<T>
    requires xs != []
  {
    xs[..|xs| - 1]
  }

  function Last<T>(xs: seq<T>): T
    requires xs != []
  {
    xs[|xs| - 1]
  }
}
