/** Failure outcomes shared by the vocabulary, the sentence layer and the chain. */
module Outcomes {

  /** The ways an operation of the engine can fail.
      UnknownToken: a vocabulary lookup (`at`) of an id or a string that was never interned.
      ReadPastEnd: the scoring loop indexes past the end of both compared id sequences
      (an unchecked read, undefined behaviour in the C++). */
  datatype Error = UnknownToken | ReadPastEnd

  datatype Result<+T> = Ok(value: T) | Err(error: Error)

  datatype Option<+T> = None | Some(value: T)

  /** The outcome of an operation that returns nothing but may fail. */
  datatype Outcome = Pass | Fail(error: Error)
}
