/** The optional values the editor keeps for "no image yet" (Python's None). */
module Wrappers {

  datatype Option<+T> = None | Some(value: T)
}
