/** Optional values, standing for the source's nullable results and for a
    collaborator call that either returns a value or throws. */
module Wrappers {

  datatype Option<+T> = None | Some(value: T)
}
