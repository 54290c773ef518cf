/** The Option type used for values that may be absent (a JSON field that
    was not sent, a lookup that found nothing, a `null` in a record). */
module Wrappers {

  datatype Option<+T> = None | Some(value: T)
}
