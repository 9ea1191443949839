/** A value that may be absent: a missing query parameter, a failed parse,
    an undefined chart bound, a query that returned an error. */
module Optional {
  datatype Option<+T> = None | Some(value: T)
}
