/** What several modules use. */
module Common {

  datatype Option<T> = None | Some(value: T)

  predicate Distinct(xs: seq<nat>) {
    forall i, j :: 0 <= i < j < |xs| ==> xs[i] != xs[j]
  }

  function Min(a: nat, b: nat): nat { if a <= b then a else b }
}
