/** The optional value used wherever the source reads a property that may be
    `undefined` (a missing DOM element, a regex that did not match). */
module Wrappers {
  datatype Option<+T> = None | Some(value: T)
}
