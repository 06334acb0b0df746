/** What several modules share. */
module Basics {

  datatype Option<+T> = None | Some(value: T)

  /** How one call out of the service goes: through, lost before it took effect,
      or done but reported as failed. */
  datatype Fault = Fine | Before | After

  predicate Distinct<T(==)>(s: seq<T>) {
    forall i, j :: 0 <= i < j < |s| ==> s[i] != s[j]
  }
}
