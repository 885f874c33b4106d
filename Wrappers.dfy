/** The Option datatype used for Python's "value or missing" results:
    a key absent from a parsed JSON object, an element that was not found. */
module Wrappers {

  datatype Option<+T> = None | Some(value: T)

}
