/** The ways a host-side call can end: normally, or with a Go panic raised at
    the call boundary before anything is queued on the device.  The panic
    messages are the literal strings the package passes to `panic`. */
module Outcomes {

  /** Outcome of an operation that returns nothing. */
  datatype Status = Ok | Panic(msg: string)

  /** Outcome of an operation that returns a value. */
  datatype Result<T> = Returned(value: T) | Panicked(msg: string)

  const INDEX_OUT_OF_RANGE := "index out of range"
  const VECTORS_CANNOT_BE_EQUAL := "vectors cannot be equal"
  const LENGTH_MISMATCH := "length mismatch"
  const INPUTS_OVERLAP := "inputs overlap"
  const SCALER_COUNT_MUST_DIVIDE := "scaler count must divide vector size"
  const REPEATED_VECTOR_EMPTY := "repeated vector cannot be empty"
  const MAPPER_TOO_BIG := "mapper size is too big"
  const BAD_INPUT_SIZE := "bad input size"
  const BAD_OUT_SIZE := "bad out size"
  /** The Go runtime's panic for an integer `%` or `/` by zero. */
  const INTEGER_DIVIDE_BY_ZERO := "runtime error: integer divide by zero"
}
