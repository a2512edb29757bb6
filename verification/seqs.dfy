/** Small facts about sequences, kept apart so that their proofs run in a small context. */
module Seqs {

  /** The two sides of a single separator element. */
  lemma {:induction false} AroundSeparator<T>(a: seq<T>, c: T, b: seq<T>)
    ensures (a + [c] + b)[..|a|] == a
    ensures (a + [c] + b)[|a|] == c
    ensures (a + [c] + b)[|a| + 1..] == b
  {
  }
}
