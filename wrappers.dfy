/** Optional values: PHP's `null` / `false` sentinels and `isset` checks. */
module Wrappers {

  datatype Option<T> = None | Some(value: T)

}
