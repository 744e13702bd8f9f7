/** Permutations of index ranges: what `random.shuffle` leaves behind.

    The model never draws random numbers. Wherever the program shuffles a
    list in place, the caller supplies the permutation instead, and every
    property is proved for all permutations. */
module Permutations {

  /** `p` lists each of 0, 1, ..., n-1 exactly once. */
  predicate IsPermutation(p: seq<int>, n: nat) {
    && |p| == n
    && (forall i :: 0 <= i < n ==> 0 <= p[i] < n)
    && (forall i, j :: 0 <= i < j < n ==> p[i] != p[j])
  }

  /** The values listed by `p`, as a set. */
  function ValueSet(p: seq<int>): set<int> {
    set i | 0 <= i < |p| :: p[i]
  }

  /** The set {0, 1, ..., n-1}. */
  function Below(n: nat): (r: set<int>)
    ensures forall k :: k in r <==> 0 <= k < n
    ensures |r| == n
  {
    if n == 0 then {} else Below(n - 1) + {n - 1}
  }

  lemma {:induction false} DistinctValueSetCard(p: seq<int>)
    requires forall i, j :: 0 <= i < j < |p| ==> p[i] != p[j]
    ensures |ValueSet(p)| == |p|
  {
    if |p| > 0 {
      var q := p[..|p| - 1];
      DistinctValueSetCard(q);
      assert ValueSet(p) == ValueSet(q) + {p[|p| - 1]};
    }
  }

  lemma SubsetCard(a: set<int>, b: set<int>)
    requires a <= b
    ensures |a| <= |b|
  {
    assert b == a + (b - a);
  }

  /** Pigeonhole: n distinct values below n take every value below n. */
  lemma Covers(p: seq<int>, n: nat, v: int)
    requires IsPermutation(p, n)
    requires 0 <= v < n
    ensures v in p
  {
    DistinctValueSetCard(p);
    if v !in ValueSet(p) {
      SubsetCard(ValueSet(p), Below(n) - {v});
      assert false;
    }
  }

  /** The position at which `v` occurs in `p` (its first one). */
  function IndexOf(p: seq<int>, v: int): (i: nat)
    requires v in p
    ensures i < |p| && p[i] == v
    ensures forall j :: 0 <= j < i ==> p[j] != v
  {
    if p[0] == v then 0 else 1 + IndexOf(p[1..], v)
  }

  /** The inverse of the permutation `p` at `v`: the only index that `p` sends to `v`. */
  function Inverse(p: seq<int>, n: nat, v: int): (i: nat)
    requires IsPermutation(p, n)
    requires 0 <= v < n
    ensures i < n && p[i] == v
    ensures forall j :: 0 <= j < n && p[j] == v ==> j == i
  {
    Covers(p, n, v);
    IndexOf(p, v)
  }

  /** `s` rearranged by `p`: entry i of the result is entry p[i] of `s`.
      This stands for `random.shuffle(s)` with the outcome chosen by the caller. */
  function Shuffled<T>(s: seq<T>, p: seq<int>): (t: seq<T>)
    requires IsPermutation(p, |s|)
    ensures |t| == |s|
    ensures forall i :: 0 <= i < |s| ==> t[i] == s[p[i]]
  {
    seq(|s|, i requires 0 <= i < |s| => s[p[i]])
  }

  /** Shuffling only rearranges: the result holds the same elements, each as often. */
  lemma {:induction false} ShuffledMultiset<T>(s: seq<T>, p: seq<int>)
    requires IsPermutation(p, |s|)
    ensures |Shuffled(s, p)| == |s|
    ensures multiset(Shuffled(s, p)) == multiset(s)
    decreases |s|
  {
    var n := |s|;
    if n > 0 {
      var k := Inverse(p, n, n - 1);
      var p' := p[..k] + p[k + 1..];
      DropLastValue(p, n, k);
      var s' := s[..n - 1];
      ShuffledMultiset(s', p');
      var t := Shuffled(s, p);
      DropLastShuffled(s, p, k);
      SplitMultiset(t, k);
      SplitMultiset(s, n - 1);
    }
  }

  lemma SplitMultiset<T>(t: seq<T>, k: nat)
    requires k < |t|
    ensures multiset(t) == multiset(t[..k] + t[k + 1..]) + multiset{t[k]}
  {
    assert t == t[..k] + [t[k]] + t[k + 1..];
  }

  /** Removing the entry n-1 from a permutation of n leaves a permutation of n-1. */
  lemma DropLastValue(p: seq<int>, n: nat, k: nat)
    requires IsPermutation(p, n)
    requires k < n && p[k] == n - 1
    ensures IsPermutation(p[..k] + p[k + 1..], n - 1)
  {
    var p' := p[..k] + p[k + 1..];
    assert forall i :: 0 <= i < n - 1 ==> p'[i] == if i < k then p[i] else p[i + 1];
  }

  lemma DropLastShuffled<T>(s: seq<T>, p: seq<int>, k: nat)
    requires IsPermutation(p, |s|)
    requires k < |s| && p[k] == |s| - 1
    requires IsPermutation(p[..k] + p[k + 1..], |s| - 1)
    ensures Shuffled(s[..|s| - 1], p[..k] + p[k + 1..]) == Shuffled(s, p)[..k] + Shuffled(s, p)[k + 1..]
    ensures Shuffled(s, p)[k] == s[|s| - 1]
  {
    var p' := p[..k] + p[k + 1..];
    assert forall i :: 0 <= i < |s| - 1 ==> p'[i] == if i < k then p[i] else p[i + 1];
  }
}
