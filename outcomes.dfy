/** The ways a generation request can end: a value, or the exception that escapes the service. */
module Outcomes {

  /** The exceptions the pipeline lets propagate, one tag per cause. */
  datatype Fault =
    | NegativeCount    // Enumerable.Range or Enumerable.Repeat given a negative count
    | InvalidDraw      // a Faker draw whose arguments admit no value
    | IndexOutOfRange  // a list indexed past its end
    | EmptySequence    // First() on an empty list
    | DuplicateKey     // Dictionary.Add with a key that is already present
    | KeyNotFound      // a dictionary indexer with an absent key
    | DecimalsOutOfRange  // decimal.Round given a number of decimals outside 0..28

  datatype Result<+T> = Ok(value: T) | Err(fault: Fault)
}
