/** Optional values, used for absent request arguments, for a CSV file that may
    not exist yet, and for timestamps that may fail to parse. */
module Wrappers {

  datatype Option<+T> = None | Some(value: T)
}
