/** Optional values: `null` / `undefined` in the TypeScript source. */
module Wrappers {

  datatype Option<+T> = None | Some(value: T)
}
