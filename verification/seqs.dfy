/** Facts about sequences shared by the text and byte models. */
module Sequences {

  /** Concatenation regroups: `a + (b + c)` is `(a + b) + c`. */
  lemma Regroup<T>(a: seq<T>, b: seq<T>, c: seq<T>)
    ensures a + (b + c) == (a + b) + c
  {
  }
}
