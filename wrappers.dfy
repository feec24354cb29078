/**
 * Optional values and the exceptions the services throw, as data.
 *
 * A nullable reference of the C# code is an `Option`; a thrown exception
 * that a caller can observe is the `Err` case of a `Result`, carrying the
 * exception type and the localisation key its message is looked up with.
 */
module Wrappers {

  datatype Option<T> = None | Some(value: T) {
    predicate IsSome() { Some? }

    function GetOr(default: T): (r: T)
      ensures Some? ==> r == value
      ensures None? ==> r == default
    {
      match this
      case Some(v) => v
      case None => default
    }
  }

  /** The exception types the core throws, each with its message key. */
  datatype Error =
    | KeyNotFound(key: string)          // KeyNotFoundException
    | InvalidOperation(key: string)     // InvalidOperationException
    | Unauthorized(key: string)         // UnauthorizedAccessException
    | SecurityToken(key: string)        // SecurityTokenException
    | DbUpdateConflict                  // DbUpdateException raised by a unique index at SaveChanges
    | MalformedExpression               // building a filter expression over mismatched types throws
    | NullReference                     // evaluating a filter dereferenced a null string or navigation
    | DuplicateKey                      // ArgumentException: ToDictionary met the same key twice

  datatype Result<T> = Ok(value: T) | Err(error: Error) {
    predicate IsOk() { Ok? }
  }
}
