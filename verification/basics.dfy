/** Small failure-carrying datatypes shared by the other modules. */
module Basics {

  /** A value that may be absent: a regular-expression search that found nothing. */
  datatype Option<+T> = None | Some(value: T)

  /** Either a value or the error the converter would raise instead. */
  datatype Result<+T, +E> = Success(value: T) | Failure(error: E)

  /** `t` occurs in `s` at position `i`. */
  predicate LitAt(s: string, i: nat, t: string)
  {
    i + |t| <= |s| && s[i..i + |t|] == t
  }

  /** Concatenation of a sequence of strings, Python's `''.join(parts)`. */
  function Concat(parts: seq<string>): string
  {
    if parts == [] then "" else parts[0] + Concat(parts[1..])
  }
}
