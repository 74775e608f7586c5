/** An optional value: a missing JSON field, a failed request or an absent map entry. */
module Wrappers {

  datatype Option<+T> = None | Some(value: T)
}
