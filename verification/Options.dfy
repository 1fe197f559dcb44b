/** A value that may be missing: what a call returns when the source throws, or an empty pointer. */
module Options {

  datatype Option<T> = None | Some(value: T)
}
