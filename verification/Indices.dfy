/**
 Lists of rule indices.
 */
module Indices {
  predicate Within(values: seq<nat>, n: nat) {
    forall i :: 0 <= i < |values| ==> values[i] < n
  }

  predicate NoRepeats(values: seq<nat>) {
    forall i, j :: 0 <= i < j < |values| ==> values[i] != values[j]
  }
}
