/** The optional value used for JavaScript `null` labels and for failed lookups. */
module Options {

  datatype Option<+T> = None | Some(value: T)
}
