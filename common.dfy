/** Failure-carrying values used by every module of the model: Go's `(T, error)` pairs
    become `Result<T, E>`, a nullable pointer becomes `Option<T>`. */
module Common {

  datatype Option<+T> = None | Some(value: T)

  datatype Result<+T, +E> = Ok(value: T) | Err(error: E)
}
