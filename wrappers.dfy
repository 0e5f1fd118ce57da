/** The optional value shared by the evaluator and the pretty-printer models. */
module Wrappers {
  datatype Option<T> = None | Some(value: T)
}
