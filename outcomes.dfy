/** Outcomes of the operations: a value, or the error the source throws. */
module Outcomes {

  datatype Option<+T> = None | Some(value: T)

  /** The two kinds of failure the version store distinguishes. Every failure of a
      statement (syntax error, missing table, integer out of range) is a StorageError;
      a version table without exactly one row at read time is an InvariantViolation. */
  datatype Error =
    | StorageError(message: string)
    | InvariantViolation(message: string)

  datatype Result<+T> = Ok(value: T) | Err(error: Error)

  const RowCountMessage: string := "Row count of version table was not exactly 1"
}
