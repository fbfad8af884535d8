/** Types shared by the authorizers and the authenticator: an optional value,
    Go's `error` value (nil, or an error carrying a message), and the request
    attributes an authorizer decides on. */
module AuthTypes {

  datatype Option<+T> = None | Some(value: T)

  /** A Go `(value, error)` pair in which exactly one side is meaningful. */
  datatype Result<+T> = Ok(value: T) | Fail(err: string)

  /** A Go `error`: `Nil` is the nil error, `Err(msg)` an error whose
      `Error()` text is `msg`. */
  datatype Error = Nil | Err(msg: string)

  /** The part of `authorizer.Attributes` the authorizers here read:
      `GetUserName()` and `GetNamespace()`. */
  datatype Attributes = Attributes(userName: string, namespace: string)
}
