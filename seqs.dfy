/** Facts about sequences that the proofs call by name, so that the solver
    does not have to rediscover them inside a large context. */
module Seqs {
  lemma ConcatAssoc<T>(a: seq<T>, b: seq<T>, c: seq<T>)
    ensures a + b + c == a + (b + c)
  {
  }

  /** A sequence is a prefix of itself extended four times, and the length
      adds up. */
  lemma PrefixOfAppends<T>(s: seq<T>, a: seq<T>, b: seq<T>, c: seq<T>, d: seq<T>)
    ensures s <= s + a + b + c + d
    ensures |s + a + b + c + d| == |s| + |a| + |b| + |c| + |d|
  {
    assert (s + a + b + c + d)[..|s|] == s;
  }
}
