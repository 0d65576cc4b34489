/** Small facts about sequences that the proofs call explicitly. */
module Sequences {
  /** Regrouping a concatenation, stated once so that loop proofs need not rediscover it. */
  lemma AppendAssoc<T>(a: seq<T>, b: seq<T>, c: seq<T>)
    ensures a + (b + c) == (a + b) + c
  {
  }
}
