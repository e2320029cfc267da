/** Small shared datatypes. */
module Common {

  /** A value that may be missing (JavaScript `null`/`undefined`, or an "Invalid Date"). */
  datatype Option<+T> = None | Some(value: T)
}
