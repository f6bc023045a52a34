/** A value that may be missing: a NULL pointer, or a refusal. */
module Options {

  datatype Option<+T> = None | Some(value: T)
}
