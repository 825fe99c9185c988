/** The usual optional value, used by the parsers that invert the record formats. */
module Options {

  datatype Option<+T> = None | Some(value: T)
}
