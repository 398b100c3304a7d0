/** Dictionary iteration order. A Python dictionary hands out its entries in an
    order the program does not control; the model takes that order as a
    parameter, a listing of the keys, and proves that results do not depend
    on it. */
module Listings {

  predicate Distinct(s: seq<string>) {
    forall i, j :: 0 <= i < j < |s| ==> s[i] != s[j]
  }

  /** `s` lists every element of `keys` exactly once and nothing else. */
  predicate IsListing(s: seq<string>, keys: set<string>) {
    && Distinct(s)
    && (forall i :: 0 <= i < |s| ==> s[i] in keys)
    && (forall x :: x in keys ==> x in s)
  }

  /** The elements a sequence lists. */
  function Elems(s: seq<string>): (r: set<string>)
    ensures forall x :: x in r <==> x in s
  {
    set x | x in s
  }
}
