/** Shared result types: the exceptions of the Python program become values. */
module Common {

  datatype Option<T> = None | Some(value: T)

  /** The failures that propagate out of the reconciler. */
  datatype Error =
    | ApiError(status: int)   // a comicbagi_openapi.ApiException carrying an HTTP status
    | AuthFailed              // the RuntimeError raised when the token request is refused
    | NotANumber              // the ValueError of float() on a chapter number or of int() on a MAL id

  /** A step that returns nothing but may raise. */
  datatype Outcome = Pass | Fail(error: Error)

  /** A step that returns a value or raises. */
  datatype Result<T> = Ok(value: T) | Err(error: Error)

  /** HTTP status of "not found", the one error the reconciler recovers from. */
  const NotFoundStatus: int := 404

  /** Python truthiness of an optional string field: None and "" are both false.
      Source fields that may be None are modelled as strings where "" stands for both. */
  predicate Truthy(s: string) {
    s != ""
  }

  /** Python truthiness of an optional count such as `max_comic`: None and 0 are false. */
  predicate TruthyCount(n: Option<int>) {
    n.Some? && n.value != 0
  }
}
