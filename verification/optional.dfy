/** The option type shared by the list and dictionary models. */
module Optional {

  datatype Option<+T> = None | Some(value: T)
}
