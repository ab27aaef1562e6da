/** The optional value used wherever the modelled code returns "nothing"
    or reads a request field that may be absent. */
module Wrappers {

  datatype Option<+T> = None | Some(value: T)
}
