/** The optional value used for Kotlin's nullable results (`recent[key]`, `sbn.packageName`). */
module Wrappers {

  datatype Option<+T> = None | Some(value: T)
}
