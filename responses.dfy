/** The responses the mobile API's views send back. */
module Responses {
  import opened Common
  import opened Serializers

  /** The numbered errors, each sent with status 401 and a body
      `{"code": ..., "error": ...}`. */
  datatype ErrorCode = WrongCredentials | UserExists | NotInCart | EmptyCart

  /** The code sent for each error; distinct errors get distinct codes, so
      a client can tell the error from its code. */
  function Code(e: ErrorCode): (code: string)
    ensures ErrorWithCode(code) == Some(e)
  {
    match e
    case WrongCredentials => "701"
    case UserExists => "702"
    case NotInCart => "703"
    case EmptyCart => "704"
  }

  /** The error a client reads from a code. */
  function ErrorWithCode(code: string): Option<ErrorCode>
  {
    if code == "701" then Some(WrongCredentials)
    else if code == "702" then Some(UserExists)
    else if code == "703" then Some(NotInCart)
    else if code == "704" then Some(EmptyCart)
    else None
  }

  /** `Done` is a success (200, 201, or 204 with an empty body); `Invalid`
      carries the fields a serializer rejected (400); `NotFound` is what
      `get_object_or_404` raises (404); `ServerError` is an unhandled
      exception (500). */
  datatype Response<T> =
    | Done(body: T)
    | Invalid(fields: set<Field>)
    | Rejected(code: ErrorCode)
    | NotFound
    | ServerError
}
