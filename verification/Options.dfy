/** An optional value: the source's null pointers that are not addresses. */
module Options {
  datatype Option<T> = None | Some(value: T)
}
