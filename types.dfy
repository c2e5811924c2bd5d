/** Types shared by the quiz backend model: optional values and the difficulty level. */
module Types {

  /** A value that may be missing: JavaScript's `null` (or `undefined`). */
  datatype Option<T> = None | Some(value: T)

  /** A difficulty level of the quiz, 1 (easiest) to 10 (hardest). */
  type Difficulty = d: int | 1 <= d <= 10 witness 1

  /** JavaScript truthiness of an optional string: null and "" are both falsy. */
  predicate Truthy(s: Option<string>) {
    s.Some? && s.value != ""
  }
}
