/** JavaScript's `null`/absent values and thrown errors, as values. */
module Results {

  datatype Option<+T> = None | Some(value: T)

  /** A thrown JavaScript `Error`: its constructor name and its message. */
  datatype Error = Error(name: string, message: string)

  /** The outcome of a call that returns a value or throws. */
  datatype Result<+T> = Ok(value: T) | Err(error: Error)

  /** How a promise settled: with a value, or rejected with a reason, which
      is either a bare string (`reject('...')`) or a thrown `Error`. */
  datatype Reason = Message(text: string) | Thrown(error: Error)

  datatype Settled<+T> = Fulfilled(value: T) | Rejected(reason: Reason)
}
