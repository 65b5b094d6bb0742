/** Value types shared by every part of the model. */
module Common {

  /** An unsigned 8-bit integer: a byte of a file or a Rust `u8`. */
  newtype byte = x: int | 0 <= x < 256

  /** The contents of a file or of an encoder's output buffer. */
  type Bytes = seq<byte>

  /** A fallible outcome; the error side carries the message text the
      source formats with `to_string()` or `format!`. */
  datatype Result<+T> = Ok(value: T) | Err(error: string)

  /** Rust's `Option`. */
  datatype Option<+T> = None | Some(value: T)
}
