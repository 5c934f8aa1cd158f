/**
 Facts about concatenation that the list-building functions rely on when they recurse on
 the head or on the last element of a list.
 */
module Seqs {

  /** The head of `a + b` is that of `a`, and its tail is the tail of `a` followed by `b`. */
  lemma TailOfConcat<T>(a: seq<T>, b: seq<T>)
    requires |a| > 0
    ensures (a + b)[0] == a[0] && (a + b)[1..] == a[1..] + b
  {
  }

  /** The last element of `a + b` is that of `b`, and what precedes it is `a` and the rest of `b`. */
  lemma InitOfConcat<T>(a: seq<T>, b: seq<T>)
    requires |b| > 0
    ensures (a + b)[|a + b| - 1] == b[|b| - 1] && (a + b)[..|a + b| - 1] == a + b[..|b| - 1]
  {
  }

  lemma ConcatAssociates<T>(x: seq<T>, y: seq<T>, z: seq<T>)
    ensures x + (y + z) == (x + y) + z
  {
  }
}
