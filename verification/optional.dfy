/** A value that may be missing: JavaScript's `null`/`undefined` for the
    handful of places the model needs one. */
module Optional {

  datatype Option<+T> = None | Some(value: T)
}
