/** The optional value used for a feed field that may be absent (a missing
    winner) and for a time value that may be invalid (an out-of-range Date). */
module Options {
  datatype Option<+T> = None | Some(value: T)
}
