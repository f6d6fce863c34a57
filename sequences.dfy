/** The array operations removeFromLibrary is built from: Array.prototype.indexOf
    (strict equality, so object identity for books) and the filter that keeps
    every element whose first index differs from the removed position. */
module Sequences {

  /** Array.prototype.indexOf: the first index holding x, or -1 when x is absent. */
  function IndexOf<T(==)>(s: seq<T>, x: T): (r: int)
    ensures -1 <= r < |s|
    ensures r == -1 <==> x !in s
    ensures 0 <= r ==> s[r] == x && forall j :: 0 <= j < r ==> s[j] != x
  {
    if s == [] then -1
    else if s[0] == x then 0
    else
      var k := IndexOf(s[1..], x);
      if k == -1 then -1 else k + 1
  }

  /** No element occurs twice. */
  predicate Distinct<T(==)>(s: seq<T>) {
    forall j, k :: 0 <= j < k < |s| ==> s[j] != s[k]
  }

  /** The filter callback of removeFromLibrary applied to the elements of part:
      keeps, in order, those whose first index in whole is not i. */
  function KeepNotFirstAt<T(==)>(whole: seq<T>, part: seq<T>, i: int): (r: seq<T>)
    ensures |r| <= |part|
    ensures forall k :: 0 <= k < |r| ==> r[k] in part && IndexOf(whole, r[k]) != i
    ensures forall k :: 0 <= k < |part| && IndexOf(whole, part[k]) != i ==> part[k] in r
  {
    if part == [] then []
    else if IndexOf(whole, part[0]) != i then [part[0]] + KeepNotFirstAt(whole, part[1..], i)
    else KeepNotFirstAt(whole, part[1..], i)
  }

  /** The new array removeFromLibrary(i) builds from s: exactly the elements
      whose first index is not i. */
  function Removed<T(==)>(s: seq<T>, i: int): (r: seq<T>)
    ensures |r| <= |s|
    ensures forall k :: 0 <= k < |r| ==> r[k] in s && IndexOf(s, r[k]) != i
    ensures forall k :: 0 <= k < |s| && IndexOf(s, s[k]) != i ==> s[k] in r
  {
    KeepNotFirstAt(s, s, i)
  }

  /** Reference definition: s with every copy of v taken out, the rest in order. */
  function Without<T(==)>(s: seq<T>, v: T): (r: seq<T>)
    ensures |r| == |s| - multiset(s)[v]
    ensures forall k :: 0 <= k < |r| ==> r[k] in s && r[k] != v
    ensures forall k :: 0 <= k < |s| && s[k] != v ==> s[k] in r
  {
    if s == [] then []
    else
      assert s == [s[0]] + s[1..];
      if s[0] == v then Without(s[1..], v) else [s[0]] + Without(s[1..], v)
  }

  lemma {:induction false} WithoutAbsent<T>(s: seq<T>, v: T)
    requires v !in s
    ensures Without(s, v) == s
  {
    if s != [] {
      WithoutAbsent(s[1..], v);
    }
  }

  lemma {:induction false} KeepAllWhenNoneFirstAt<T>(whole: seq<T>, part: seq<T>, i: int)
    requires forall x :: x in part ==> IndexOf(whole, x) != i
    ensures KeepNotFirstAt(whole, part, i) == part
  {
    if part != [] {
      KeepAllWhenNoneFirstAt(whole, part[1..], i);
    }
  }

  lemma {:induction false} KeepIsWithout<T>(whole: seq<T>, part: seq<T>, i: int, v: T)
    requires forall x :: x in part ==> (IndexOf(whole, x) == i <==> x == v)
    ensures KeepNotFirstAt(whole, part, i) == Without(part, v)
  {
    if part != [] {
      KeepIsWithout(whole, part[1..], i, v);
    }
  }

  /** What removeFromLibrary(i) really does: when position i holds the first
      occurrence of its element, every copy of that element goes; otherwise
      (i out of range, or s[i] also occurring earlier) nothing changes. */
  lemma RemovedCharacterised<T>(s: seq<T>, i: int)
    ensures Removed(s, i) == if 0 <= i < |s| && IndexOf(s, s[i]) == i then Without(s, s[i]) else s
  {
    if 0 <= i < |s| && IndexOf(s, s[i]) == i {
      KeepIsWithout(s, s, i, s[i]);
    } else {
      KeepAllWhenNoneFirstAt(s, s, i);
    }
  }

  /** An index outside [0, |s|) removes nothing. */
  lemma RemovedOutOfRange<T>(s: seq<T>, i: int)
    requires i < 0 || |s| <= i
    ensures Removed(s, i) == s
  {
    RemovedCharacterised(s, i);
  }

  lemma WithoutCons<T>(s: seq<T>, v: T)
    requires s != [] && s[0] != v
    ensures Without(s, v) == [s[0]] + Without(s[1..], v)
  {
  }

  lemma SliceAround<T>(s: seq<T>, i: int)
    requires 0 < i < |s|
    ensures [s[0]] + s[1..][..i - 1] == s[..i] && s[1..][i..] == s[i + 1..]
  {
  }

  /** Taking out a value that occurs only at position i deletes that position. */
  lemma {:induction false} WithoutSingle<T>(s: seq<T>, i: int)
    requires 0 <= i < |s| && s[i] !in s[..i] && s[i] !in s[i + 1..]
    ensures Without(s, s[i]) == s[..i] + s[i + 1..]
  {
    var t, v := s[1..], s[i];
    if i == 0 {
      assert s[1..] == t;
      WithoutAbsent(t, v);
    } else {
      assert s[0] == s[..i][0];
      assert t[i - 1] == v;
      assert t[..i - 1] == s[..i][1..];
      assert t[i..] == s[i + 1..];
      WithoutSingle(t, i - 1);
      WithoutCons(s, v);
      SliceAround(s, i);
      var left, right := t[..i - 1], t[i..];
      assert [s[0]] + (left + right) == ([s[0]] + left) + right;
    }
  }

  /** Removing the element at i from a sequence without duplicates. */
  lemma WithoutDistinct<T>(s: seq<T>, i: int)
    requires Distinct(s) && 0 <= i < |s|
    ensures Without(s, s[i]) == s[..i] + s[i + 1..]
  {
    assert s[i] !in s[..i] && s[i] !in s[i + 1..] by {
      forall j | 0 <= j < |s| && j != i ensures s[j] != s[i] {
      }
    }
    WithoutSingle(s, i);
  }

  /** With all elements distinct, removal at a valid index deletes exactly that
      position, so the length drops by one. */
  lemma RemovedDistinct<T>(s: seq<T>, i: int)
    requires Distinct(s) && 0 <= i < |s|
    ensures Removed(s, i) == s[..i] + s[i + 1..]
    ensures |Removed(s, i)| == |s| - 1
  {
    assert IndexOf(s, s[i]) == i;
    RemovedCharacterised(s, i);
    WithoutDistinct(s, i);
  }

  /** A card's remove button carries the first index of its book, so clicking
      the button of the card at position k takes out every copy of s[k]. */
  lemma RemovedByCard<T>(s: seq<T>, k: int)
    requires 0 <= k < |s|
    ensures Removed(s, IndexOf(s, s[k])) == Without(s, s[k])
  {
    var i := IndexOf(s, s[k]);
    assert s[i] == s[k];
    assert IndexOf(s, s[i]) == i;
    RemovedCharacterised(s, i);
  }

  lemma {:induction false} WithoutKeepsDistinct<T>(s: seq<T>, v: T)
    requires Distinct(s)
    ensures Distinct(Without(s, v))
  {
    if s != [] {
      var t := s[1..];
      assert Distinct(t);
      WithoutKeepsDistinct(t, v);
      if s[0] != v {
        assert s[0] !in t;
      }
    }
  }

  /** Removal never introduces a duplicate. */
  lemma RemovedKeepsDistinct<T>(s: seq<T>, i: int)
    requires Distinct(s)
    ensures Distinct(Removed(s, i))
  {
    RemovedCharacterised(s, i);
    if 0 <= i < |s| && IndexOf(s, s[i]) == i {
      WithoutKeepsDistinct(s, s[i]);
    }
  }
}
