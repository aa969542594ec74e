/** Values shared by every part of the model: optional values (JavaScript's
    null/undefined), errors as the services throw them, and the outcome of a
    call that either returns a value or throws. */
module Common {

  datatype Option<+T> = None | Some(value: T) {
    /** `x ?? d` and `x || d` for a field that is either absent or a value. */
    function GetOr(default: T): T {
      match this
      case Some(v) => v
      case None => default
    }
  }

  /** A thrown JavaScript error: `code` is empty for a plain `new Error(message)`. */
  datatype Error = Error(code: string, message: string)

  /** `new Error(message)` */
  function Thrown(message: string): Error {
    Error([], message)
  }

  /** Either the value an async call resolves to, or the error it throws. */
  datatype Result<+T> = Ok(value: T) | Err(error: Error)

  /** The message every library-service operation throws without a session. */
  const NoSessionMessage: string := "No active session. Please log in."

  /** JavaScript truthiness of an optional numeric identifier: null, undefined
      and 0 are falsy. */
  predicate Truthy(id: Option<int>) {
    id.Some? && id.value != 0
  }

  /** JavaScript truthiness of an optional string: null, undefined and "" are falsy. */
  predicate TruthyText(s: Option<string>) {
    s.Some? && s.value != []
  }
}
