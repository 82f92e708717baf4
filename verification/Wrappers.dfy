/** What several components share: optional values, and the orders a set or a map is iterated in. */
module Wrappers {

  datatype Option<+T> = None | Some(value: T)

  function ToSeq<T>(o: Option<T>): seq<T> {
    match o
    case Some(x) => [x]
    case None => []
  }

  /** An order in which a set, or the keys of a map, may be iterated. */
  ghost predicate Enumerates(order: seq<string>, keys: set<string>) {
    && (forall x :: x in order <==> x in keys)
    && (forall i, j :: 0 <= i < j < |order| ==> order[i] != order[j])
  }
}
