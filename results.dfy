/** Option and Result datatypes used for Python's exceptions and missing values. */
module Results {

  datatype Option<T> = None | Some(value: T)

  /** `Err` stands for an exception that escapes the Python function. */
  datatype Result<T, E> = Ok(value: T) | Err(error: E)
}
