/** Optional values: an absent HTML attribute or element, a date that does not parse,
    a page that could not be fetched. */
module Wrappers {

  datatype Option<+T> = None | Some(value: T)
}
