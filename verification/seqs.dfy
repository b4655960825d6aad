/** Facts about sequences the other modules share. */
module Seqs {

  /** Concatenation is associative; stated once so that proofs can cite it instead of
      rediscovering it. */
  lemma AppendAssociative<T>(a: seq<T>, b: seq<T>, c: seq<T>)
    ensures a + b + c == a + (b + c)
  {
  }
}
