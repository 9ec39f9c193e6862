/** The optional value used wherever the application either has a value or
    got nothing (a provider call that raised, a lookup that missed). */
module Wrappers {

  datatype Option<+T> = None | Some(value: T)
}
