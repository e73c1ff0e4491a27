/** The optional value used for regex matches, parsed dates and injected failures. */
module Options {

  datatype Option<+T> = None | Some(value: T)
}
