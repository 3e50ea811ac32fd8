/** Vocabulary shared by every module: results, optional values and bytes. */
module Common {
  datatype Option<+T> = None | Some(value: T)

  datatype Result<+T, +E> = Ok(value: T) | Err(error: E)

  /** One octet of a file or of an encoded payload. */
  type byte = x: int | 0 <= x < 256
}
