/** Optional values, standing for TypeScript's `undefined`/`null` and SQL NULL. */
module Wrappers {
  datatype Option<+T> = None | Some(value: T)
}
