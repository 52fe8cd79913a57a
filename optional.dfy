/** An optional value, for PHP's NULL. */
module Optional {
  datatype Option<T> = None | Some(value: T)
}
