/** The usual Some/None wrapper, for values that may be absent (a row that a lookup does not find,
    a form field that was not sent). */
module Optional {
  datatype Option<+T> = None | Some(value: T)
}
