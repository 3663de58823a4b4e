/** What several modules say of lists. */
module Sequences {
  /** Nothing in the list is there twice. */
  ghost predicate Distinct<T>(xs: seq<T>) {
    forall i, j :: 0 <= i < j < |xs| ==> xs[i] != xs[j]
  }
}
