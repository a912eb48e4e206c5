/** Outcomes of a request handler: either its value or one of the error kinds it raises. */
module Results {

  datatype Option<T> = None | Some(value: T)

  /** The failures the handlers raise, each named after the HTTP status it is meant to carry. */
  datatype Error =
    | BadRequest     // 400: malformed id, failed body validation, missing file, self-subscription
    | Forbidden      // 403: the caller does not own the playlist
    | NotFound       // 404: the referenced record does not exist
    | Conflict       // 409: username or e-mail already registered
    | UploadFailed   // 500: the object store returned no URL for an upload
    | ServerError    // 500: an uncaught fault (a cast error, a dereferenced null)
  {
    /** The status code the handler passes along with the error. */
    function Status(): (code: nat)
      ensures 400 <= code < 600
      ensures code == 500 <==> this in {UploadFailed, ServerError}
    {
      match this
      case BadRequest => 400
      case Forbidden => 403
      case NotFound => 404
      case Conflict => 409
      case UploadFailed => 500
      case ServerError => 500
    }
  }

  datatype Result<T> = Ok(value: T) | Err(error: Error)
}
