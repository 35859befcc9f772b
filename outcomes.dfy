/** Results and errors shared by the whole model.

    The library signals failure by throwing; the model returns a value instead.
    Each `Error` constructor names the exception class the library throws. */
module Outcomes {

  /** PHP's `null` in a result position, and the library's `Nothing` sentinel,
      both become `None`. */
  datatype Option<+T> = None | Some(value: T)

  datatype Error =
    /** InvalidArgumentException (bad count, size, step or index; a value of the wrong type) */
    | InvalidArgument(message: string)
    /** SequenceAlreadyIteratedException, carrying the sequence that was iterated twice */
    | AlreadyIterated(sequence: object)
    /** UnexpectedValueException("Iteration failed!") from a cursor in the FAILED state */
    | IterationFailed
    /** OutOfBoundsException("No more elements available!") from pluckNext */
    | NoMoreElements
    /** BadMethodCallException("This iterator cannot be rewound"), and a
        Generator's own exception when it is rewound after advancing */
    | NotRewindable
    /** UnexpectedValueException from first/last ("No element matched the given
        predicate") and from single ("Expected exactly one element matching
        given predicate") when nothing matches */
    | NoMatch
    /** OverflowException from single when a second element matches */
    | MoreThanOne
    /** LengthException from reduce on an empty sequence */
    | EmptySequence
    /** OutOfRangeException from elementAt */
    | IndexOutOfRange(index: int)
    /** TypeError: a value of the wrong PHP type reached a typed parameter */
    | TypeMismatch
    /** An exception raised by code outside the model (a user callback, an external iterator) */
    | CallbackFailed
    /** Error("Undefined class constant ...") from a reference to a constant no class declares */
    | UndefinedConstant(name: string)
    /** Error("Call to undefined method ...") from a call to a method its class does not declare */
    | UndefinedMethod(name: string)
    /** Error("Class ... not found") from a `new` of a class that does not exist */
    | ClassNotFound(name: string)

  datatype Result<+T> = Ok(value: T) | Err(error: Error)

  /** The result of an operation that returns nothing (`void`) but may throw. */
  datatype Outcome = Pass | Fail(error: Error)

  function Min(a: int, b: int): int { if a <= b then a else b }
  function Max(a: int, b: int): int { if a >= b then a else b }
}
