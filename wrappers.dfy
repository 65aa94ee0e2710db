/** Option and Result, the two sum types the Rust code uses for absent values
    and for error returns (`Option<T>`, `Result<T, String>`). */
module Wrappers {

  datatype Option<+T> = None | Some(value: T)

  /** `Err` carries the message the source formats; the model keeps it as a string. */
  datatype Result<+T> = Ok(value: T) | Err(msg: string)
}
