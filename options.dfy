/** A value that may be absent: a DOM attribute or element that is not there. */
module Options {

  datatype Option<+T> = None | Some(value: T)
}
