/** Two facts about sequence concatenation, stated once so that proofs about
    list filters can rewrite with them instead of comparing sequences element
    by element. */
module Seqs {
  /** A non-empty sequence is its first element followed by the rest. */
  lemma SplitFirst<T>(a: seq<T>, b: seq<T>)
    requires a != []
    ensures a == [a[0]] + a[1..] && a + b == [a[0]] + (a[1..] + b)
  {
  }

  lemma Associative<T>(x: seq<T>, y: seq<T>, z: seq<T>)
    ensures x + (y + z) == (x + y) + z
  {
  }
}
