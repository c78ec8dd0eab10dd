/** Putting one element into a sequence and taking one out. */
module Sequences {

  function Splice<T>(a: seq<T>, k: nat, x: T): (b: seq<T>)
    requires k <= |a|
    ensures |b| == |a| + 1
    ensures forall j :: 0 <= j < |b| ==> b[j] == if j < k then a[j] else if j == k then x else a[j - 1]
  {
    a[..k] + [x] + a[k..]
  }

  function Without<T>(a: seq<T>, k: nat): (b: seq<T>)
    requires k < |a|
    ensures |b| == |a| - 1
    ensures forall j :: 0 <= j < |b| ==> b[j] == if j < k then a[j] else a[j + 1]
  {
    a[..k] + a[k + 1..]
  }

  /** seq s with the element at k replaced by the elements of r. */
  function Replace<T>(s: seq<T>, k: nat, r: seq<T>): seq<T>
    requires k < |s|
  {
    s[..k] + r + s[k + 1..]
  }

  lemma SpliceMiddle<T>(a: seq<T>, b: seq<T>, c: seq<T>, i: nat, x: T)
    requires i <= |b|
    ensures Splice(a + b + c, |a| + i, x) == a + Splice(b, i, x) + c
  {
  }

  lemma WithoutMiddle<T>(a: seq<T>, b: seq<T>, c: seq<T>, i: nat)
    requires i < |b|
    ensures Without(a + b + c, |a| + i) == a + Without(b, i) + c
    ensures (a + b + c)[|a| + i] == b[i]
  {
  }

  lemma ConcatAssociates<T>(a: seq<T>, b: seq<T>, c: seq<T>)
    ensures a + (b + c) == a + b + c
  {
  }

  lemma WithoutSplice<T>(a: seq<T>, k: nat, x: T)
    requires k <= |a|
    ensures Without(Splice(a, k, x), k) == a
  {
  }

  lemma SpliceMembers<T>(a: seq<T>, k: nat, x: T, y: T)
    requires k <= |a|
    ensures y in Splice(a, k, x) <==> y == x || y in a
  {
  }

  lemma WithoutAppend<T>(a: seq<T>, k: nat, b: seq<T>)
    requires k < |a|
    ensures Without(a + b, k) == Without(a, k) + b
  {
  }

  lemma SpliceAppend<T>(a: seq<T>, k: nat, x: T, b: seq<T>)
    requires k <= |a|
    ensures Splice(a + b, k, x) == Splice(a, k, x) + b
  {
  }

  lemma WithoutMembers<T>(a: seq<T>, k: nat, y: T)
    requires k < |a|
    ensures y in Without(a, k) ==> y in a
    ensures y in a && y != a[k] ==> y in Without(a, k)
  {
  }

  ghost predicate Distinct<T>(a: seq<T>) {
    forall j, k :: 0 <= j < k < |a| ==> a[j] != a[k]
  }

  lemma DistinctAt<T>(a: seq<T>, k: nat)
    requires Distinct(a) && k < |a|
    ensures forall j {:trigger a[j]} :: 0 <= j < |a| && j != k ==> a[j] != a[k]
  {
  }

  lemma SpliceDistinct<T>(a: seq<T>, k: nat, x: T)
    requires Distinct(a) && k <= |a| && x !in a
    ensures Distinct(Splice(a, k, x))
  {
  }

  lemma WithoutDistinct<T>(a: seq<T>, k: nat)
    requires Distinct(a) && k < |a|
    ensures Distinct(Without(a, k)) && a[k] !in Without(a, k)
  {
  }
}
