/** A value that may be absent: `null` / `undefined`, a missing response, an invalid
    date, or a check that found nothing wrong. */
module Wrappers {

  datatype Option<T> = None | Some(value: T)
}
