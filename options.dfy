/** The optional value used for the registry's lookups. */
module Options {
  datatype Option<T> = None | Some(value: T)
}
