/** What every other module may use. */
module Basics {

  datatype Option<T> = None | Some(value: T)

  /** No entry appears twice. */
  predicate Distinct(s: seq<string>) {
    forall i, j | 0 <= i < j < |s| :: s[i] != s[j]
  }
}
