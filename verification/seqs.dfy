/** Sequence helpers shared by the solutions. */
module Seqs {
  /** `iter().rev()`: the elements back to front. */
  function Reverse<T>(s: seq<T>): (r: seq<T>)
    ensures |r| == |s|
    ensures forall i :: 0 <= i < |s| ==> r[i] == s[|s| - 1 - i]
  {
    if |s| == 0 then [] else Reverse(s[1..]) + [s[0]]
  }

  /** Two non-empty sequences with the same head and the same tail are equal. */
  lemma SameHeadAndTail<T>(a: seq<T>, b: seq<T>)
    requires |a| > 0 && |b| > 0 && a[0] == b[0] && a[1..] == b[1..]
    ensures a == b
  {
    assert a == [a[0]] + a[1..];
    assert b == [b[0]] + b[1..];
  }

  /** Dropping the head drops one occurrence of it from the multiset. */
  lemma TailMultiset<T>(s: seq<T>)
    requires |s| > 0
    ensures multiset(s[1..]) == multiset(s) - multiset{s[0]}
  {
    assert s == [s[0]] + s[1..];
  }

  /** In a permutation of `a`, some position holds the head of `a`, and taking
      it out leaves a permutation of the tail of `a`. */
  lemma HeadPosition<T>(a: seq<T>, b: seq<T>) returns (j: nat)
    requires |a| > 0 && multiset(a) == multiset(b)
    ensures j < |b| && b[j] == a[0]
    ensures multiset(a[1..]) == multiset(b[..j] + b[j + 1..])
  {
    assert a[0] in multiset(b);
    j :| 0 <= j < |b| && b[j] == a[0];
    TailMultiset(a);
    assert b == b[..j] + [b[j]] + b[j + 1..];
  }

  /** A sequence and its tail end in the same element. */
  lemma LastOfTail<T>(a: seq<T>, b: seq<T>)
    requires |a| > 1 && a[1..] == b
    ensures a[|a| - 1] == b[|b| - 1]
  {
  }
}
