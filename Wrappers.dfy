/** Optional values: every field of the legacy and the new histology record may be absent (Java `null`). */
module Wrappers {

  datatype Option<+T> = None | Some(value: T)
}
