/** A value that may be absent: the model's stand-in for a JavaScript
    property that is `null` or `undefined`, and for the NaN that marks an
    invalid `Date`. */
module Wrappers {

  datatype Option<+T> = None | Some(value: T)
}
