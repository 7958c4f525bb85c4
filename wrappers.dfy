/** Small failure-carrying datatypes shared by every module. */
module Wrappers {

  /** A value that may be absent: the C# `null` of the source. */
  datatype Option<+T> = None | Some(value: T)

  /** The outcome of running code that the .NET runtime may abort with an
      exception (index out of range, a bad cast, a negative array size,
      a `Buffer.BlockCopy` range error).  An aborted Udon behaviour stops,
      so `Fault` is terminal for the caller. */
  datatype Run<+T> = Ok(value: T) | Fault
}
