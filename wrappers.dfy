/** The optional value the models return where the source returns a document or `null`. */
module Wrappers {

  datatype Option<+T> = None | Some(value: T)
}
