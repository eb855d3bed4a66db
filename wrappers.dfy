/** An optional value, for the source's `undefined` results. */
module Wrappers {

  datatype Option<+T> = None | Some(value: T)

}
