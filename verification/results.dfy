/**
 Failure-carrying datatypes shared by the whole model.

 The service's exceptions become values: an upstream HTTP call answers with a
 `Fetch`, and every operation that can throw answers with a `Result` whose
 `Error` says which exception the service would have raised.
 */
module Results {

  datatype Option<+T> = None | Some(value: T)

  /** Why an outbound HTTP request failed: an HTTP status, or no response at all. */
  datatype HttpFailure = HttpStatus(code: int) | NetworkError

  /** What one outbound HTTP request yields. */
  datatype Fetch<+T> = Received(value: T) | Failed(failure: HttpFailure)

  /** The exceptions the service lets reach its caller. */
  datatype Error =
    | NotFound(message: string)          // NotFoundException with its message
    | UpstreamFailed(failure: HttpFailure) // an HTTP error propagated untranslated
    | MissingField(field: string)        // a TypeError from dereferencing an absent field

  datatype Result<+T> = Ok(value: T) | Err(error: Error)

  /** The set of the elements of a list, duplicates collapsed (JavaScript `new Set(list)`). */
  function SetOf(s: seq<string>): (r: set<string>)
    ensures forall x :: x in r <==> x in s
  {
    set x | x in s
  }
}
