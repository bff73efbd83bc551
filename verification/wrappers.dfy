/** The optional value used for absent key-map entries and absent results. */
module Wrappers {

  datatype Option<+T> = None | Some(value: T)
}
