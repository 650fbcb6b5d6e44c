/** Facts about sequences that several modules use. */
module Seqs {

  ghost predicate NoDuplicates<T>(s: seq<T>) {
    forall i, j :: 0 <= i < j < |s| ==> s[i] != s[j]
  }

  /** No element of a duplicate-free sequence is on both sides of a cut. */
  lemma SplitApart<T>(s: seq<T>, k: nat)
    requires NoDuplicates(s) && k <= |s|
    ensures forall t :: t in s[k..] <==> t in s && t !in s[..k]
  {
    assert s == s[..k] + s[k..];
    forall i, j | 0 <= i < k && 0 <= j < |s| - k ensures s[..k][i] != s[k..][j] {
      assert s[..k][i] == s[i] && s[k..][j] == s[k + j];
    }
  }

  /** The sequence without its i-th element. */
  function RemoveAt<T>(s: seq<T>, i: nat): (r: seq<T>)
    requires i < |s|
    ensures |r| == |s| - 1
  {
    s[..i] + s[i + 1..]
  }

  lemma RemoveAtMultiset<T>(s: seq<T>, i: nat)
    requires i < |s|
    ensures multiset(RemoveAt(s, i)) == multiset(s) - multiset{s[i]}
  {
    assert s == s[..i] + [s[i]] + s[i + 1..];
  }

  lemma RemoveAtLast<T>(s: seq<T>, i: nat)
    requires i < |s|
    ensures var init := s[..|s| - 1];
      RemoveAt(s, i) == if i == |init| then init else RemoveAt(init, i) + [s[|s| - 1]]
  {
  }

  /** Any element of a non-empty set: the order of a Go map range is not fixed either. */
  method Pick<T(==)>(s: set<T>) returns (x: T)
    requires s != {}
    ensures x in s
  {
    x :| x in s;
  }
}
