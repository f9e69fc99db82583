/** Failure-carrying values shared by the whole model: the `Option` a Rust `Option<T>`
    becomes, and the `Result` every fallible operation returns in place of
    `Result<T, Box<dyn Error>>`. */
module Wrappers {

  datatype Option<+T> = None | Some(value: T) {
    predicate IsFailure() { None? }

    function PropagateFailure<U>(): Option<U>
      requires None?
    {
      None
    }

    function Extract(): T
      requires Some?
    {
      value
    }
  }

  /** The two kinds of failure the client propagates with `?`: a request that could not
      be sent or answered, and a response body that did not decode. */
  datatype Error = Transport | Decode(message: string)

  datatype Result<+T> = Ok(value: T) | Err(error: Error)
}
