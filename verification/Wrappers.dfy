/** The result types the other modules share. */
module Wrappers {

  /** A value that may be absent: a NULL pointer, a failed search, an aborted run. */
  datatype Option<+T> = None | Some(value: T)

  /** The outcome of reading a value from the front of a buffer. */
  datatype Decoded<+T> =
    | Done(value: T, used: nat)  // the value, and how many bytes it occupied
    | Failed                     // the C code takes its error exit
    | Undefined                  // it leaves defined behaviour: unwritten memory, an overflow
}
