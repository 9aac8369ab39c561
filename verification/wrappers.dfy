/** Optional values shared by the model. */
module Wrappers {

  /** An optional value: `None` stands for JavaScript's `undefined`/`null`,
      or for a remote call that produced no usable result. */
  datatype Option<+T> = None | Some(value: T)
}
