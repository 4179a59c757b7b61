/** The optional value used wherever the Python code returns `None`
    for "nothing found". */
module Wrappers {

  datatype Option<+T> = None | Some(value: T)
}
