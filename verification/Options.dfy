/** The optional value used wherever the modelled code stores NULL or None. */
module Options {
  datatype Option<+T> = None | Some(value: T)
}
