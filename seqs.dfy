/** Facts about sequences and their multisets, shared by the permutation
    proofs of both reductions. */
module Seqs {

  /** Taking out the element at `k` removes one occurrence of it. */
  lemma RemoveAt<T>(ys: seq<T>, k: nat)
    requires k < |ys|
    ensures ys == ys[..k] + [ys[k]] + ys[k + 1..]
    ensures multiset(ys[..k] + ys[k + 1..]) == multiset(ys) - multiset{ys[k]}
  {
  }

  /** An element of the multiset of `ys` sits at some index, and removing it
      leaves a sequence with the multiset of `xs` less its last element. */
  lemma RemoveLast<T>(xs: seq<T>, ys: seq<T>) returns (k: nat)
    requires xs != [] && multiset(xs) == multiset(ys)
    ensures k < |ys| && ys[k] == xs[|xs| - 1]
    ensures ys == ys[..k] + [ys[k]] + ys[k + 1..]
    ensures multiset(ys[..k] + ys[k + 1..]) == multiset(xs[..|xs| - 1])
  {
    var x := xs[|xs| - 1];
    assert xs == xs[..|xs| - 1] + [x];
    assert multiset(xs) == multiset(xs[..|xs| - 1]) + multiset{x};
    assert x in multiset(ys);
    k :| 0 <= k < |ys| && ys[k] == x;
    RemoveAt(ys, k);
  }
}
