/** A value that may be absent, standing for Ruby's nil. */
module Options {

  datatype Option<+T> = None | Some(value: T)
}
