/** Option and Result values shared by every module of the model. */
module Common {

  /** A value that may be absent: `undefined`/`null` in TypeScript, `None` in Python. */
  datatype Option<T> = None | Some(value: T)

  /** The outcome of an operation that either returns a value or raises an error. */
  datatype Result<T, E> = Ok(value: T) | Err(error: E)

  /** A byte of a message payload or an uploaded file. */
  type Byte = x: int | 0 <= x < 256

  function Max(a: real, b: real): real { if a >= b then a else b }

  function Min(a: real, b: real): real { if a <= b then a else b }
}
