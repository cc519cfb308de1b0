/** Optional values, used where the JavaScript code returns `null`,
    `undefined` or an `{ ok: false }` record. */
module Wrappers {

  datatype Option<+T> = None | Some(value: T)
}
