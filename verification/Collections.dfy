/** An optional value, and lists without repetition. */
module Collections {

  datatype Option<+T> = None | Some(value: T)

  predicate Distinct<T(==)>(s: seq<T>) {
    forall i, j :: 0 <= i < j < |s| ==> s[i] != s[j]
  }

  function SetOf<T>(s: seq<T>): set<T> {
    set x | x in s
  }

  /** The first occurrence of x. */
  function IndexOf<T(==)>(s: seq<T>, x: T): (i: nat)
    requires x in s
    ensures i < |s| && s[i] == x && forall k :: 0 <= k < i ==> s[k] != x
  {
    if s[0] == x then 0 else 1 + IndexOf(s[1..], x)
  }

  /** A finite set can be listed. */
  lemma {:induction false} ListOf<T>(xs: set<T>) returns (s: seq<T>)
    ensures Distinct(s) && |s| == |xs| && SetOf(s) == xs
  {
    s := [];
    if xs == {} {
    } else {
      var x :| x in xs;
      var rest := ListOf(xs - {x});
      assert forall k :: 0 <= k < |rest| ==> rest[k] in SetOf(rest);
      s := [x] + rest;
      assert SetOf(s) == {x} + SetOf(rest);
    }
  }

  lemma {:induction false} DistinctSize<T>(s: seq<T>)
    requires Distinct(s)
    ensures |SetOf(s)| == |s|
  {
    if s == [] {
    } else {
      DistinctSize(s[1..]);
      assert s[0] !in s[1..];
      assert SetOf(s) == {s[0]} + SetOf(s[1..]);
    }
  }

  lemma SubsetSize<T>(a: set<T>, b: set<T>)
    requires a <= b
    ensures |a| <= |b| && |b - a| == |b| - |a| && (a != b ==> |a| < |b|)
  {
    assert b == a + (b - a);
    assert b - a == {} ==> a == b;
  }
}
