/** Strictly ascending lists of row indices, and the library operations used on them. */
module SortedLists {

  predicate Sorted(s: seq<nat>) {
    forall i, j :: 0 <= i < j < |s| ==> s[i] < s[j]
  }

  ghost predicate SameElements(a: seq<nat>, b: seq<nat>) {
    forall x: nat :: x in a <==> x in b
  }

  function LowerBound(s: seq<nat>, v: nat): (k: nat)
    requires Sorted(s)
    ensures k <= |s|
    ensures forall j :: 0 <= j < k ==> s[j] < v
    ensures forall j :: k <= j < |s| ==> s[j] >= v
  {
    if s == [] || s[0] >= v then 0 else 1 + LowerBound(s[1..], v)
  }

  function InsertSorted(s: seq<nat>, v: nat): (r: seq<nat>)
    requires Sorted(s)
    ensures Sorted(r)
    ensures forall x: nat :: x in r <==> x in s || x == v
  {
    var k := LowerBound(s, v);
    if k < |s| && s[k] == v then s
    else
      var r := s[..k] + [v] + s[k..];
      assert forall x: nat :: x in s ==> x in s[..k] || x in s[k..];
      r
  }

  function EraseSorted(s: seq<nat>, v: nat): (r: seq<nat>)
    requires Sorted(s)
    ensures Sorted(r)
    ensures forall x: nat :: x in r <==> x in s && x != v
  {
    var k := LowerBound(s, v);
    if k < |s| && s[k] == v then
      var r := s[..k] + s[k + 1..];
      assert forall x: nat :: x in s ==> x in s[..k] || x == v || x in s[k + 1..];
      r
    else s
  }

  lemma FirstIsLeast(a: seq<nat>)
    requires Sorted(a) && a != []
    ensures forall x: nat :: x in a[1..] ==> a[0] < x
  {
  }

  function Intersection(a: seq<nat>, b: seq<nat>): (r: seq<nat>)
    requires Sorted(a)
    ensures Sorted(r) && |r| <= |a|
    ensures forall x: nat :: x in r <==> x in a && x in b
  {
    if a == [] then []
    else
      var rest := Intersection(a[1..], b);
      FirstIsLeast(a);
      assert forall j :: 0 <= j < |rest| ==> rest[j] in rest;
      if a[0] in b then [a[0]] + rest else rest
  }

  function Union(a: seq<nat>, b: seq<nat>): (r: seq<nat>)
    requires Sorted(a)
    ensures Sorted(r)
    ensures forall x: nat :: x in r <==> x in a || x in b
  {
    if b == [] then a else InsertSorted(Union(a, b[1..]), b[0])
  }

  function SortedUnique(s: seq<nat>): (r: seq<nat>)
    ensures Sorted(r) && SameElements(r, s)
  {
    Union([], s)
  }

  lemma EmptyHasNone(s: seq<nat>)
    ensures s == [] <==> forall x: nat :: x !in s
  {
    assert s != [] ==> s[0] in s;
  }

  /** An ascending list is determined by its elements. */
  lemma {:induction false} SortedIsUnique(a: seq<nat>, b: seq<nat>)
    requires Sorted(a) && Sorted(b) && SameElements(a, b)
    ensures a == b
  {
    EmptyHasNone(a);
    EmptyHasNone(b);
    if a != [] {
      assert a[0] in b && b[0] in a;
      assert a[0] == b[0];
      forall x: nat ensures x in a[1..] <==> x in b[1..] {
        assert x in a[1..] <==> x in a && x != a[0];
        assert x in b[1..] <==> x in b && x != b[0];
      }
      SortedIsUnique(a[1..], b[1..]);
    }
  }
}
