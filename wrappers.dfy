/** The optional-value type used wherever the Kotlin code returns a nullable value. */
module Wrappers {

  datatype Option<+T> = None | Some(value: T)
}
