/** An optional value, shared by the consumption and mortality modules. */
module Optional {
  datatype Option<T> = None | Some(value: T)
}
