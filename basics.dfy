/** Values shared by the handlers: optional request fields, JavaScript truthiness
    of such a field, and the place where an awaited call throws. */
module Basics {

  datatype Option<T> = None | Some(value: T)

  /** A request-body or query field that is absent (`undefined`) or a string is
      truthy in JavaScript exactly when it is present and not the empty string. */
  predicate Truthy(f: Option<string>)
  {
    f.Some? && f.value != ""
  }

  /** Which awaited call of a handler (if any) throws, and the `message` of the
      error it throws. `S` enumerates the calls a handler makes. */
  datatype Fault<S> = NoFault | Throws(at: S, message: string)

  predicate ThrowsAt<S(==)>(f: Fault<S>, s: S)
  {
    f.Throws? && f.at == s
  }
}
