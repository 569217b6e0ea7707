/** Definitions several of the models share. */
module Common {

  datatype Option<T> = None | Some(value: T)

  /** No number occurs twice. */
  predicate Distinct(s: seq<nat>) {
    forall i, j | 0 <= i < j < |s| :: s[i] != s[j]
  }
}
