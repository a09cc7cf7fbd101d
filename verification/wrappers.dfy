/** Option and Result for the source's sentinel values (npos) and for the
    error paths that print a message and end the program with exit(1). */
module Wrappers {

  datatype Option<+T> = None | Some(value: T)

  /** `Fail` carries the message the source writes to standard error before
      it exits, without its final end of line. */
  datatype Result<+T> = Ok(value: T) | Fail(error: string)
}
