/** Option stands for a Java reference that may be null, or a map lookup that may miss. */
module Wrappers {

  datatype Option<+T> = None | Some(value: T)
}
