/** A value that C# types as a nullable reference (`T?`): absent is `null`. */
module Wrappers {

  datatype Option<+T> = None | Some(value: T)
}
