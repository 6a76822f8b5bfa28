/** The optional value used wherever the pages branch on "present or not". */
module Wrappers {

  datatype Option<+T> = None | Some(value: T)
}
