/** The Option type used for results that may be absent (a failed read, a skipped entry). */
module Wrappers {

  datatype Option<+T> = None | Some(value: T)
}
