/** Optional values: `null`/`undefined` in the TypeScript sources, `None` in the Python script. */
module Wrappers {

  datatype Option<+T> = None | Some(value: T) {

    /** The value, or `default` when absent (the `??` operator). */
    function GetOr(default: T): T {
      match this
      case Some(v) => v
      case None => default
    }
  }
}

/**
 * The error classes of src/domain/errors/DomainErrors.ts, and what a use case can throw.
 * The TypeScript sources throw either a subclass of DomainError (the "typed" use cases),
 * a plain `Error` (the older use cases), or, in principle, any value at all.
 */
module DomainErrors {

  /** One constructor per subclass of DomainError; `Base` is a plain `new DomainError(...)`. */
  datatype DomainKind = NotFound | Forbidden | Unauthorized | Validation | Conflict | BusinessRule | Base

  datatype Thrown =
    | DomainErr(kind: DomainKind, message: string)   // an instance of a DomainError subclass
    | PlainErr(message: string)                       // `new Error(message)`
    | NotAnError                                      // a thrown value that is not an Error

  /** A use case either returns a value or throws. */
  datatype Result<+T> = Ok(value: T) | Err(error: Thrown)
}
