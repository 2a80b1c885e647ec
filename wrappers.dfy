/** Optional values: a JavaScript `undefined` result, an absent request field,
    or a token that did not verify. */
module Wrappers {

  datatype Option<+T> = None | Some(value: T)
}
