/** Two facts about concatenation, kept apart so that proofs need not rediscover them. */
module Seqs {

  lemma SplitFirst<A>(a: seq<A>, n: nat, r: seq<A>)
    requires n <= |a|
    ensures a == a[..n] + a[n..] && a + r == a[..n] + (a[n..] + r)
  {
  }

  lemma Associative<A>(a: seq<A>, b: seq<A>, c: seq<A>)
    ensures a + (b + c) == a + b + c
  {
  }
}
