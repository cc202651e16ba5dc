/** The optional value and the error-or-value result used where the Go code has nil pointers and error returns. */
module Options {

  datatype Option<T> = None | Some(value: T)

  datatype Result<T, E> = Ok(value: T) | Err(error: E)
}
