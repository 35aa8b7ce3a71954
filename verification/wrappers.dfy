/** The optional value used for the browser store's `getItem`, which yields
    either a stored string or nothing, and for the edit session's index. */
module Wrappers {
  datatype Option<+T> = None | Some(value: T)
}
