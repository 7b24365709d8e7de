/** Optional values: the output alphabet, which only a transducer has, and
    the title of a report, which the caller may leave out. */
module Wrappers {

  datatype Option<+T> = None | Some(value: T)
}
