/** The success-or-failure value that the decoder returns instead of throwing. */
module Outcomes {

  datatype Result<T, E> = Ok(value: T) | Err(error: E)

}
