/** Values shared by the browser client and the HTTP server. */
module Common {

  /** A value that may be absent: JavaScript's `undefined`/`null` for a field
      of a request body, `null` for an optional piece of client state. */
  datatype Option<+T> = None | Some(value: T) {

    /** The value if present, otherwise `default`. */
    function GetOr(default: T): T
    {
      match this
      case Some(v) => v
      case None => default
    }
  }

  /** A user record as the server's user list holds it and as the login
      endpoint hands it to the client. */
  datatype User = User(id: string, nombre: string, email: string)

  /** JavaScript truthiness of an optional string field: a missing field and
      the empty string are both falsy. */
  predicate Falsy(s: Option<string>)
  {
    s.None? || s.value == ""
  }

  /** `s.endsWith(suffix)` */
  predicate EndsWith(s: string, suffix: string)
  {
    |suffix| <= |s| && s[|s| - |suffix|..] == suffix
  }
}
