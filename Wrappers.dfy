/** The optional value used wherever the page script reads something that may be
    absent: a stored preference (`null` from storage), an attribute that an
    element may not carry, the last section seen in a notification batch. */
module Wrappers {
  datatype Option<+T> = None | Some(value: T)
}
