/** The optional value used for the editor's "undefined" hover fields and for
    a duration symbol that the duration table does not know. */
module Wrappers {
  datatype Option<+T> = None | Some(value: T)
}
