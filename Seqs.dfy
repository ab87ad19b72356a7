/** Sequence helpers: pandas' `unique()` (distinct values in order of first appearance). */
module Seqs {

  ghost predicate Distinct<T>(s: seq<T>) {
    forall i, j :: 0 <= i < j < |s| ==> s[i] != s[j]
  }

  /** The position of the first occurrence of `x` in `s`. */
  function FirstIndex<T(==)>(s: seq<T>, x: T): (k: nat)
    requires x in s
    ensures k < |s| && s[k] == x && x !in s[..k]
  {
    if s[0] == x then 0 else
    assert s == [s[0]] + s[1..];
    var k := FirstIndex(s[1..], x);
    assert s[..k + 1] == [s[0]] + s[1..][..k];
    k + 1
  }

  /** The distinct elements of `s`, each kept at its first occurrence. */
  function Unique<T(==,!new)>(s: seq<T>): (u: seq<T>)
    ensures Distinct(u)
    ensures forall x :: x in u <==> x in s
    ensures |u| <= |s|
  {
    if |s| == 0 then [] else
    var u := Unique(s[..|s| - 1]);
    assert s == s[..|s| - 1] + [s[|s| - 1]];
    if s[|s| - 1] in u then u else u + [s[|s| - 1]]
  }

  lemma FirstIndexOfPrefix<T>(s: seq<T>, n: nat, x: T)
    requires n <= |s| && x in s[..n]
    ensures FirstIndex(s[..n], x) == FirstIndex(s, x)
  {
    var k, k' := FirstIndex(s[..n], x), FirstIndex(s, x);
    assert s[k] == x;
    assert forall i :: 0 <= i < k' ==> s[..k'][i] == s[i];
    assert forall i :: 0 <= i < k ==> s[..n][..k][i] == s[i];
  }

  /** An element first seen at the last position has its first occurrence there. */
  lemma FirstIndexOfNewcomer<T>(s: seq<T>)
    requires |s| > 0 && s[|s| - 1] !in s[..|s| - 1]
    ensures FirstIndex(s, s[|s| - 1]) == |s| - 1
  {
    var n := |s| - 1;
    assert forall i :: 0 <= i < n ==> s[..n][i] == s[i];
  }

  /** `Unique` keeps the order of first appearance: earlier in the result means seen earlier in the input. */
  lemma {:induction false} UniqueKeepsFirstSeenOrder<T(!new)>(s: seq<T>, i: nat, j: nat)
    requires i < j < |Unique(s)|
    ensures Unique(s)[i] in s && Unique(s)[j] in s
    ensures FirstIndex(s, Unique(s)[i]) < FirstIndex(s, Unique(s)[j])
  {
    var n := |s| - 1;
    var p := s[..n];
    var u := Unique(p);
    assert s == p + [s[n]];
    if s[n] in u || j < |u| {
      assert Unique(s)[i] == u[i] && Unique(s)[j] == u[j];
      UniqueKeepsFirstSeenOrder(p, i, j);
      FirstIndexOfPrefix(s, n, u[i]);
      FirstIndexOfPrefix(s, n, u[j]);
    } else {
      assert Unique(s)[j] == s[n] && Unique(s)[i] == u[i];
      assert s[n] !in p;
      FirstIndexOfPrefix(s, n, u[i]);
      FirstIndexOfNewcomer(s);
    }
  }
}
