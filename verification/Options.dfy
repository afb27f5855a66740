/** Results that may be absent: null pointers, failed searches, free owners. */
module Options {
  datatype Option<T> = None | Some(value: T)
}
