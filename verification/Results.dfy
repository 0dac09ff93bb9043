/** Outcomes of the operations that the program reports through an `error` value. */
module Results {

  datatype Error = LogicalOverflow | InvalidLogical | QuorumNotReached

  datatype Result<+T> = Ok(value: T) | Err(error: Error)

  datatype Option<+T> = None | Some(value: T)
}
