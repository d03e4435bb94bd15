/** The failure-carrying values of the pricing model: `Option` for the
    solver's "no root found" answer and `Result` for an operation that may
    raise an error in `price_rate_and_payment`. */
module Outcomes {

  datatype Option<+T> = None | Some(value: T)

  datatype Result<+T, +E> = Ok(value: T) | Err(error: E)
}
