/** Python's `Optional[...]`: a value that may be `None`. */
module Optional {
  datatype Option<+T> = None | Some(value: T)
}
