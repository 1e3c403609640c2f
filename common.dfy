/** Small value wrappers shared by the server and the client models. */
module Common {

  /** A value that may be missing: `None` stands for a parse failure (JavaScript's NaN). */
  datatype Option<+T> = None | Some(value: T)
}
