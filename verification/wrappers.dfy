/** The optional value used where the source either produces something or gives up
    (a `JSON.parse` that throws, an entry that is not written back). */
module Wrappers {

  datatype Option<+T> = None | Some(value: T)
}
