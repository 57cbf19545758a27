/** The optional value used for DOM lookups that may find nothing
    (`querySelector` returning `null`) and for a regex that may not match. */
module Wrappers {

  datatype Option<+T> = None | Some(value: T)
}
