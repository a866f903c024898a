/** The optional value used by both scripts' models (a search that may find
    nothing, a regular-expression group that may not match). */
module Options {
  datatype Option<T> = None | Some(value: T)
}
