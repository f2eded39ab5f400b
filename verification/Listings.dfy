/** Sorted listings of sets of strings. */
module Listings {
  import opened Text

  /** The members of a set in order. */
  ghost function Listing(s: set<string>): (r: seq<string>)
    ensures SortedStrings(r) && multiset(r) == multiset(s)
  {
    if s == {} then []
    else
      var x :| x in s;
      InsertStringSorted(Listing(s - {x}), x);
      assert multiset(s) == multiset(s - {x}) + multiset{x};
      InsertString(Listing(s - {x}), x)
  }

  lemma ListingMembers(s: set<string>)
    ensures forall x :: x in Listing(s) <==> x in s
    ensures |Listing(s)| == |s|
  {
    assert forall x :: x in Listing(s) <==> x in multiset(Listing(s));
    assert forall x :: x in multiset(s) <==> x in s;
    assert |multiset(Listing(s))| == |Listing(s)|;
    assert |multiset(s)| == |s|;
  }

  lemma ListingOne(x: string)
    ensures Listing({x}) == [x]
  {
    ListingMembers({x});
    var list := Listing({x});
    assert list[0] in list;
  }

  /** `setValues` and `sortedKeys`: members in any order, then sorted. */
  method SortedList(s: set<string>) returns (r: seq<string>)
    ensures r == Listing(s)
  {
    var list: seq<string> := [];
    var todo := s;
    while todo != {}
      invariant todo <= s && multiset(list) + multiset(todo) == multiset(s)
      decreases |todo|
    {
      var x :| x in todo;
      list := list + [x];
      assert multiset(todo) == multiset(todo - {x}) + multiset{x};
      todo := todo - {x};
    }
    SortStringsSorted(list);
    r := SortStrings(list);
    SortedUnique(r, Listing(s));
  }

  function Filter(list: seq<string>, drop: set<string>): (r: seq<string>)
    ensures forall x :: x in r <==> x in list && x !in drop
  {
    if list == [] then []
    else
      var before := Filter(list[..|list| - 1], drop);
      if list[|list| - 1] in drop then before else before + [list[|list| - 1]]
  }

  lemma {:induction false} FilterSorted(list: seq<string>, drop: set<string>)
    requires SortedStrings(list)
    ensures SortedStrings(Filter(list, drop))
  {
    if list != [] {
      var init, last := list[..|list| - 1], list[|list| - 1];
      FilterSorted(init, drop);
      forall i | 0 <= i < |Filter(init, drop)| ensures !Less(last, Filter(init, drop)[i]) {
        assert Filter(init, drop)[i] in init;
      }
    }
  }

  lemma {:induction false} FilterBag(list: seq<string>, drop: set<string>, x: string)
    ensures multiset(Filter(list, drop))[x] == if x in drop then 0 else multiset(list)[x]
  {
    if list != [] {
      assert list == list[..|list| - 1] + [list[|list| - 1]];
      FilterBag(list[..|list| - 1], drop, x);
    }
  }

  /** Two sets that agree outside some members have the same listing outside them. */
  lemma FilteredListing(a: set<string>, b: set<string>, drop: set<string>)
    requires a - drop == b - drop
    ensures Filter(Listing(a), drop) == Filter(Listing(b), drop)
  {
    FilterSorted(Listing(a), drop);
    FilterSorted(Listing(b), drop);
    forall x ensures multiset(Filter(Listing(a), drop))[x] == multiset(Filter(Listing(b), drop))[x] {
      FilterBag(Listing(a), drop, x);
      FilterBag(Listing(b), drop, x);
      assert x in a - drop <==> x in b - drop;
    }
    SortedUnique(Filter(Listing(a), drop), Filter(Listing(b), drop));
  }
}
