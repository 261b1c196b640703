/** List operations of java.util.ArrayList that the renderer and the texture binder rely on. */
module Seqs {
  /** No element occurs twice. */
  predicate Distinct<T(==)>(s: seq<T>) {
    forall i, j :: 0 <= i < j < |s| ==> s[i] != s[j]
  }

  /** Position of the first occurrence of x. */
  function IndexOf<T(==)>(s: seq<T>, x: T): (k: nat)
    requires x in s
    ensures k < |s| && s[k] == x && x !in s[..k]
  {
    if s[0] == x then 0
    else
      var k := IndexOf(s[1..], x) + 1;
      assert s[..k] == [s[0]] + s[1..][..k - 1];
      k
  }

  /** ArrayList.remove(Object): drops the first occurrence of x, if there is one. */
  function RemoveFirst<T(==)>(s: seq<T>, x: T): seq<T> {
    if s == [] then []
    else if s[0] == x then s[1..]
    else [s[0]] + RemoveFirst(s[1..], x)
  }

  /** Dropping index k + 1 of a list is keeping its head and dropping index k of its tail. */
  lemma DropAfterHead<T>(s: seq<T>, k: nat)
    requires k + 1 < |s|
    ensures [s[0]] + (s[1..][..k] + s[1..][k + 1..]) == s[..k + 1] + s[k + 2..]
  {
    assert s[..k + 1] == [s[0]] + s[1..][..k];
    assert s[k + 2..] == s[1..][k + 1..];
  }

  /** Without x the list is unchanged; otherwise exactly the element at the first index of x is gone. */
  lemma {:induction false} RemoveFirstAt<T>(s: seq<T>, x: T)
    ensures x !in s ==> RemoveFirst(s, x) == s
    ensures x in s ==> RemoveFirst(s, x) == s[..IndexOf(s, x)] + s[IndexOf(s, x) + 1..]
  {
    if s != [] && s[0] != x {
      var rest := s[1..];
      assert RemoveFirst(s, x) == [s[0]] + RemoveFirst(rest, x);
      assert s == [s[0]] + rest;
      if x in rest {
        var k := IndexOf(rest, x);
        assert IndexOf(s, x) == k + 1;
        assert RemoveFirst(rest, x) == rest[..k] + rest[k + 1..] by { RemoveFirstAt(rest, x); }
        DropAfterHead(s, k);
      } else {
        assert RemoveFirst(rest, x) == rest by { RemoveFirstAt(rest, x); }
      }
    }
  }

  /** The tail of a list without repetitions has none, and does not hold the head. */
  lemma DistinctTail<T>(s: seq<T>)
    requires Distinct(s) && s != []
    ensures Distinct(s[1..]) && s[0] !in s[1..]
  {
    forall i, j | 0 <= i < j < |s[1..]| ensures s[1..][i] != s[1..][j] {
      assert s[1..][i] == s[i + 1] && s[1..][j] == s[j + 1];
    }
  }

  /** Putting a new element in front of a list without repetitions makes none. */
  lemma DistinctCons<T>(h: T, t: seq<T>)
    requires Distinct(t) && h !in t
    ensures Distinct([h] + t)
  {
    var r := [h] + t;
    forall i, j | 0 <= i < j < |r| ensures r[i] != r[j] {
      assert r[j] == t[j - 1];
      if i > 0 {
        assert r[i] == t[i - 1];
      }
    }
  }

  /** Removal takes exactly one copy of x out of the multiset of elements, and none when x is absent. */
  lemma RemoveFirstMultiset<T>(s: seq<T>, x: T)
    ensures multiset(RemoveFirst(s, x)) == multiset(s) - multiset{x}
  {
    RemoveFirstAt(s, x);
    if x in s {
      var k := IndexOf(s, x);
      var a, b := s[..k], s[k + 1..];
      assert s == a + [x] + b;
      assert multiset(s) == multiset(a) + multiset{x} + multiset(b);
      assert multiset(RemoveFirst(s, x)) == multiset(a) + multiset(b);
    } else {
      assert multiset(s)[x] == 0;
      assert multiset(s) - multiset{x} == multiset(s);
    }
  }

  /** Removing from a list without repetitions leaves no occurrence and nothing new. */
  lemma RemoveFirstDistinct<T>(s: seq<T>, x: T)
    requires Distinct(s)
    ensures Distinct(RemoveFirst(s, x))
    ensures x !in RemoveFirst(s, x)
    ensures forall y :: y in RemoveFirst(s, x) ==> y in s
  {
    RemoveFirstAt(s, x);
    if x in s {
      var k := IndexOf(s, x);
      var r := RemoveFirst(s, x);
      forall i | 0 <= i < |r| ensures r[i] == (if i < k then s[i] else s[i + 1]) { }
      forall i, j | 0 <= i < j < |r| ensures r[i] != r[j] { }
      forall i | 0 <= i < |r| ensures r[i] != x { }
    }
  }
}
