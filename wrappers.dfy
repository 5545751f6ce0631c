/** The optional value used for the component's nullable state (the selected
    task) and for the answer of a browser prompt, which may be cancelled. */
module Wrappers {

  datatype Option<+T> = None | Some(value: T)
}
