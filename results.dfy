/** The outcome of an operation that the Java code may abort with an
    IllegalStateException: either a value or the exception's message. */
module Results {

  /** The only fault the collections package raises. */
  datatype Fault = IllegalState(message: string)

  datatype Result<T> = Success(value: T) | Failure(fault: Fault)
}
