/** The optional value used wherever the service reads a nullable field or a
    function may return `None`. */
module Wrappers {

  datatype Option<+T> = None | Some(value: T)
}
