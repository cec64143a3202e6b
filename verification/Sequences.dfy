/** What more than one module says about sequences. */
module Sequences {

  ghost predicate Distinct<T>(xs: seq<T>) {
    forall i, k :: 0 <= i < k < |xs| ==> xs[i] != xs[k]
  }
}
