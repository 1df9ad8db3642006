/** A value that may be missing: JavaScript's `undefined` and `null`. */
module Options {

  datatype Option<+T> = None | Some(value: T)
}
