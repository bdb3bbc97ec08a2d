/** An optional value, for the "no maximum yet" sentinels, a draw without a winner and a run without a failure. */
module Wrappers {

  datatype Option<T> = None | Some(value: T)
}
