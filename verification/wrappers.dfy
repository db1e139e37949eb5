/** Optional values: a nullable foreign key, an absent requester, a lookup that found nothing. */
module Wrappers {

  datatype Option<+T> = None | Some(value: T)
}
