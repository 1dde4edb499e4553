/** Result types shared by the whole model. */
module Wrappers {

  datatype Option<+T> = None | Some(value: T)

  /** A C# exception or a JavaScript error response, with what caused it. */
  datatype Result<+T, +E> = Ok(value: T) | Err(error: E)

  /** JavaScript's `s || null`. */
  function NullIfEmpty(s: Option<string>): Option<string> {
    if s == Some("") then None else s
  }

  /** JavaScript's `s || default`. */
  function OrElse(s: Option<string>, default: string): string {
    if s.Some? && s.value != "" then s.value else default
  }
}
