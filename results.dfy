/** Failure-carrying values shared by the modules of this project. */
module Results {

  /** A value that may be absent, as a dictionary lookup that can miss. */
  datatype Option<T> = None | Some(value: T)

  /** The outcome of an operation that raises an exception on some inputs. */
  datatype Result<T, E> = Ok(value: T) | Err(error: E)
}
