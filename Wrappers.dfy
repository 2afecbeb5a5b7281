/** The optional value used for JavaScript results that may be absent (`undefined`, `null`, a thrown parse). */
module Wrappers {

  datatype Option<+T> = None | Some(value: T)
}
