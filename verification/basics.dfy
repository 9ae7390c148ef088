/** Small shared datatypes: optional values, results, and the JavaScript
    truthiness test the server applies to ids taken from a request body. */
module Basics {

  /** A value that may be absent (`undefined`/`null` in the source). */
  datatype Option<+T> = None | Some(value: T)

  /** Either a value or one of the handler's error answers. */
  datatype Result<+T, +E> = Ok(value: T) | Err(error: E)

  /** `!!id` for an id read from a JSON body or a session: a missing id and
      the number 0 are both falsy. */
  predicate Truthy(id: Option<int>) {
    id.Some? && id.value != 0
  }

  /** `w` occurs in `s` starting at position `i`. */
  predicate OccursAt(s: string, w: string, i: int) {
    0 <= i && i + |w| <= |s| && s[i..i + |w|] == w
  }

  /** `w` is a substring of `s` (what a test's `toMatch(/w/)` checks). */
  predicate Contains(s: string, w: string) {
    exists i | 0 <= i <= |s| :: OccursAt(s, w, i)
  }
}
