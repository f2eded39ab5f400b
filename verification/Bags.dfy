/** Facts about sequences and the bags of their elements. */
module Bags {

  /** An element that stands in two places occurs at least twice. */
  lemma OccursTwice<T>(s: seq<T>, i: nat, j: nat)
    requires i < |s| && j < |s| && i != j
    ensures s[i] == s[j] ==> multiset(s)[s[i]] >= 2
  {
    var lo, hi := if i < j then i else j, if i < j then j else i;
    assert s == s[..hi] + s[hi..];
    assert s[..hi][lo] in multiset(s[..hi]) && s[hi..][0] in multiset(s[hi..]);
  }

  /** And the other way round. */
  lemma TwoPlaces<T>(s: seq<T>, x: T) returns (i: nat, j: nat)
    requires multiset(s)[x] >= 2
    ensures i < j < |s| && s[i] == x && s[j] == x
  {
    assert x in s;
    i :| i < |s| && s[i] == x;
    var rest := s[..i] + s[i + 1..];
    assert s == s[..i] + [s[i]] + s[i + 1..];
    assert x in multiset(rest);
    var k :| 0 <= k < |rest| && rest[k] == x;
    j := if k < i then k else k + 1;
    assert s[j] == x;
    if j < i {
      i, j := j, i;
    }
  }

  /** Two places of a sequence have two places in each permutation of it. */
  lemma PlacesBack<T>(a: seq<T>, b: seq<T>, j: nat, k: nat) returns (i: nat, l: nat)
    requires multiset(a) == multiset(b) && j < k < |b|
    ensures i < |a| && l < |a| && i != l && a[i] == b[j] && a[l] == b[k]
  {
    if b[j] == b[k] {
      OccursTwice(b, j, k);
      i, l := TwoPlaces(a, b[j]);
    } else {
      assert b[j] in multiset(a) && b[k] in multiset(a);
      i :| i < |a| && a[i] == b[j];
      l :| l < |a| && a[l] == b[k];
    }
  }

  function MapSeq<T, U>(f: T -> U, s: seq<T>): seq<U> {
    seq(|s|, i requires 0 <= i < |s| => f(s[i]))
  }

  lemma {:induction false} MapRemove<T, U>(f: T -> U, s: seq<T>, i: nat)
    requires i < |s|
    ensures multiset(MapSeq(f, s)) == multiset(MapSeq(f, s[..i] + s[i + 1..])) + multiset{f(s[i])}
    ensures multiset(s) == multiset(s[..i] + s[i + 1..]) + multiset{s[i]}
  {
    var m := MapSeq(f, s);
    assert s == s[..i] + [s[i]] + s[i + 1..];
    assert m == m[..i] + [m[i]] + m[i + 1..];
    assert MapSeq(f, s[..i] + s[i + 1..]) == m[..i] + m[i + 1..];
  }

  /** Mapping a permutation gives a permutation. */
  lemma {:induction false} MapPermutes<T, U>(f: T -> U, a: seq<T>, b: seq<T>)
    requires multiset(a) == multiset(b)
    ensures multiset(MapSeq(f, a)) == multiset(MapSeq(f, b))
    decreases |a|
  {
    if a == [] {
      assert |multiset(b)| == |b| == 0;
    } else {
      assert a[0] in multiset(b);
      var j: nat :| j < |b| && b[j] == a[0];
      MapRemove(f, a, 0);
      MapRemove(f, b, j);
      assert a[..0] + a[1..] == a[1..];
      assert multiset(a[1..]) == multiset(a) - multiset{a[0]};
      assert multiset(b[..j] + b[j + 1..]) == multiset(b) - multiset{a[0]};
      MapPermutes(f, a[1..], b[..j] + b[j + 1..]);
    }
  }

  lemma Cancel<T>(a: multiset<T>, b: multiset<T>, x: T)
    requires a + multiset{x} == b + multiset{x}
    ensures a == b
  {
    assert a == a + multiset{x} - multiset{x};
    assert b == b + multiset{x} - multiset{x};
  }

  lemma SameRest<T, U>(f: T -> U, a: seq<T>, b: seq<T>, j: nat)
    requires multiset(MapSeq(f, a)) == multiset(MapSeq(f, b))
    requires j < |a| && b != [] && f(a[j]) == f(b[0])
    ensures multiset(MapSeq(f, a[..j] + a[j + 1..])) == multiset(MapSeq(f, b[1..]))
  {
    MapRemove(f, a, j);
    MapRemove(f, b, 0);
    assert b[..0] + b[1..] == b[1..];
    Cancel(multiset(MapSeq(f, a[..j] + a[j + 1..])), multiset(MapSeq(f, b[1..])), f(b[0]));
  }

  /** Two sequences have the same images, each equally often, exactly if a permutation of
      the one has the images of the other in its order. */
  lemma {:induction false} MapPairs<T, U>(f: T -> U, a: seq<T>, b: seq<T>) returns (order: seq<T>)
    requires multiset(MapSeq(f, a)) == multiset(MapSeq(f, b))
    ensures multiset(order) == multiset(a) && MapSeq(f, order) == MapSeq(f, b)
    decreases |b|
  {
    assert |multiset(MapSeq(f, a))| == |a| && |multiset(MapSeq(f, b))| == |b|;
    if b == [] {
      return [];
    }
    assert MapSeq(f, b)[0] in multiset(MapSeq(f, a));
    var j: nat :| j < |a| && MapSeq(f, a)[j] == f(b[0]);
    SameRest(f, a, b, j);
    var rest := MapPairs(f, a[..j] + a[j + 1..], b[1..]);
    MapRemove(f, a, j);
    order := [a[j]] + rest;
    assert MapSeq(f, order) == [f(a[j])] + MapSeq(f, rest);
    assert MapSeq(f, b) == [f(b[0])] + MapSeq(f, b[1..]);
  }
}
