/** Failure values for the exceptions the NatNet codec and client raise, and the
    shape every decoder returns: a value together with the offset just past it. */
module Results {

  /** The exceptions of the Python code, as values. */
  datatype Error =
    | StructError                // struct.error: a fixed-width field ran past the buffer, or a value out of range was packed
    | UnknownModelType(tag: nat) // ValueError from the model-definitions tag dispatch
    | NotImplemented(tag: nat)   // NotImplementedError from the force-plate and device descriptions
    | NoParams                   // AssertionError: a flag property read while params is None
    | BadAddressLength           // OSError from inet_ntoa on an address that is not 4 bytes long
    | MissingPacket              // TypeError: a timed-out wait yields None, which cannot be sliced
    | Exhausted                  // the modelled sequence of arrivals ended; the real loop would go on waiting

  datatype Option<+T> = None | Some(value: T)

  /** Failure-compatible result, so that `:-` propagates an error like a raised exception. */
  datatype Result<+T> = Ok(value: T) | Err(error: Error) {
    predicate IsFailure() {
      Err?
    }

    function PropagateFailure<U>(): Result<U>
      requires Err?
    {
      Err(error)
    }

    function Extract(): T
      requires Ok?
    {
      value
    }
  }

  /** A decoded value and the cursor offset after it. */
  datatype Parsed<+T> = Parsed(value: T, next: nat)

  /** What an imperative reader returned (`r`) and where it left the cursor (`offset`)
      agree with the specification `spec`. After an error the cursor is left wherever
      the failing read left it, as in the Python code, so nothing is said about it. */
  ghost predicate Agrees<T>(r: Result<T>, spec: Result<Parsed<T>>, offset: nat) {
    match spec
    case Ok(p) => r == Ok(p.value) && offset == p.next
    case Err(e) => r == Err(e)
  }
}
