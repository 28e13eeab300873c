/** The Some/None datatype used wherever the source has an absent value (a missing
    object field, a deleted property, a failed parse). */
module Wrappers {

  datatype Option<+T> = None | Some(value: T)
}
