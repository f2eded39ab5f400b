/** Merging and ranking of counter maps for a snapshot. */
module Ranking {
  import opened HeavyHitters
  import Text

  datatype Item = Item(name: string, queries: nat, blocked: nat)

  /** The order of a ranked list: more queries first, then by name. */
  predicate Above(a: Item, b: Item) {
    a.queries > b.queries || (a.queries == b.queries && Text.Less(a.name, b.name))
  }

  ghost predicate Sorted(items: seq<Item>) {
    forall i, j {:trigger Above(items[i], items[j])} :: 0 <= i < j < |items| ==> Above(items[i], items[j])
  }

  function ItemFor(values: Counts, blocked: Counts, name: string): Item
    requires name in values
  {
    Item(name, values[name], Count(blocked, name))
  }

  ghost predicate Listed(items: seq<Item>, name: string) {
    exists i :: 0 <= i < |items| && items[i].name == name
  }

  /** A correct answer of `rank`: sorted, drawn from the map, as long as the limit
      allows, and above everything it leaves out. */
  ghost predicate IsRanking(values: Counts, blocked: Counts, limit: nat, items: seq<Item>) {
    && |items| == (if |values| <= limit then |values| else limit)
    && Sorted(items)
    && (forall i :: 0 <= i < |items| ==> items[i].name in values && items[i] == ItemFor(values, blocked, items[i].name))
    && (forall x, i :: x in values && !Listed(items, x) && 0 <= i < |items| ==>
          Above(items[i], ItemFor(values, blocked, x)))
    && (|values| <= limit ==> forall x {:trigger Listed(items, x)} :: x in values ==> Listed(items, x))
  }

  lemma AboveTransitive(a: Item, b: Item, c: Item)
    requires Above(a, b) && Above(b, c)
    ensures Above(a, c)
  {
    if a.queries == b.queries == c.queries {
      Text.LessTransitive(a.name, b.name, c.name);
    }
  }

  lemma AboveTotal(a: Item, b: Item)
    requires a.name != b.name
    ensures Above(a, b) != Above(b, a)
  {
    Text.LessTotal(a.name, b.name);
  }

  function Insert(items: seq<Item>, item: Item): (r: seq<Item>)
    ensures multiset(r) == multiset(items) + multiset{item}
    ensures |r| == |items| + 1
  {
    if items == [] || Above(item, items[0]) then [item] + items
    else
      assert items == [items[0]] + items[1..];
      [items[0]] + Insert(items[1..], item)
  }

  lemma {:induction false} InsertMembers(items: seq<Item>, item: Item, x: Item)
    ensures x in Insert(items, item) <==> x in items || x == item
  {
    assert x in Insert(items, item) <==> x in multiset(Insert(items, item));
  }

  lemma {:induction false} InsertSorted(items: seq<Item>, item: Item)
    requires Sorted(items)
    requires forall i :: 0 <= i < |items| ==> items[i].name != item.name
    ensures Sorted(Insert(items, item))
  {
    var r := Insert(items, item);
    if items == [] {
    } else if Above(item, items[0]) {
      forall j | 1 <= j < |items| ensures Above(item, items[j]) {
        AboveTransitive(item, items[0], items[j]);
      }
    } else {
      var rest := items[1..];
      InsertSorted(rest, item);
      AboveTotal(item, items[0]);
      var tail := Insert(rest, item);
      forall j | 0 <= j < |tail| ensures Above(items[0], tail[j]) {
        InsertMembers(rest, item, tail[j]);
        assert tail[j] in tail;
      }
    }
  }

  function Merged(target: Counts, source: Counts): Counts {
    map x | x in target.Keys + source.Keys :: Count(target, x) + Count(source, x)
  }

  lemma MergedStep(target: Counts, source: Counts, name: string)
    requires name in source
    ensures Merged(target[name := Count(target, name) + source[name]], source - {name}) == Merged(target, source)
  {
    var next, rest := target[name := Count(target, name) + source[name]], source - {name};
    assert next.Keys + rest.Keys == target.Keys + source.Keys;
  }

  method MergeCounts(target: Counts, source: Counts) returns (result: Counts)
    ensures result == Merged(target, source)
  {
    result := target;
    var pending := source;
    while pending != map[]
      invariant Merged(result, pending) == Merged(target, source)
      decreases |pending|
    {
      var name :| name in pending;
      MergedStep(result, pending, name);
      result := result[name := Count(result, name) + pending[name]];
      pending := pending - {name};
    }
    assert Merged(result, map[]) == result;
  }

  /** The items of `keys`, in order. */
  ghost predicate Ranks(items: seq<Item>, values: Counts, blocked: Counts, keys: set<string>) {
    && keys <= values.Keys
    && |items| == |keys|
    && Sorted(items)
    && (forall i :: 0 <= i < |items| ==> items[i].name in keys && items[i] == ItemFor(values, blocked, items[i].name))
    && (forall x {:trigger Listed(items, x)} :: x in keys ==> Listed(items, x))
  }

  lemma InsertRanks(items: seq<Item>, values: Counts, blocked: Counts, keys: set<string>, name: string)
    requires Ranks(items, values, blocked, keys) && name in values && name !in keys
    ensures Ranks(Insert(items, ItemFor(values, blocked, name)), values, blocked, keys + {name})
  {
    var item := ItemFor(values, blocked, name);
    var r := Insert(items, item);
    InsertSorted(items, item);
    forall i | 0 <= i < |r| ensures r[i].name in keys + {name} && r[i] == ItemFor(values, blocked, r[i].name) {
      InsertMembers(items, item, r[i]);
      assert r[i] in r;
    }
    forall x | x in keys + {name} ensures Listed(r, x) {
      var it := ItemFor(values, blocked, x);
      if x in keys {
        assert Listed(items, x);
        var i :| 0 <= i < |items| && items[i].name == x;
        assert items[i] == it;
      }
      InsertMembers(items, item, it);
      var j :| 0 <= j < |r| && r[j] == it;
    }
  }

  lemma TakeRanking(all: seq<Item>, values: Counts, blocked: Counts, limit: nat)
    requires Ranks(all, values, blocked, values.Keys)
    ensures IsRanking(values, blocked, limit, if |all| > limit then all[..limit] else all)
  {
    var items := if |all| > limit then all[..limit] else all;
    forall x, i | x in values && !Listed(items, x) && 0 <= i < |items|
      ensures Above(items[i], ItemFor(values, blocked, x))
    {
      assert Listed(all, x);
      var j :| 0 <= j < |all| && all[j].name == x;
      assert forall i :: 0 <= i < |items| ==> items[i] == all[i];
    }
  }

  method Rank(values: Counts, blocked: Counts, limit: nat) returns (items: seq<Item>)
    ensures IsRanking(values, blocked, limit, items)
  {
    items := [];
    var done := {};
    while done != values.Keys
      invariant Ranks(items, values, blocked, done)
      decreases values.Keys - done
    {
      assert !(values.Keys <= done);
      var name :| name in values.Keys && name !in done;
      InsertRanks(items, values, blocked, done, name);
      items := Insert(items, ItemFor(values, blocked, name));
      done := done + {name};
    }
    TakeRanking(items, values, blocked, limit);
    if |items| > limit {
      items := items[..limit];
    }
  }

  /** A ranking is unique, so it does not depend on the order in which the map is
      walked. */
  lemma RankingUnique(values: Counts, blocked: Counts, limit: nat, a: seq<Item>, b: seq<Item>)
    requires IsRanking(values, blocked, limit, a) && IsRanking(values, blocked, limit, b)
    ensures a == b
  {
    forall k: nat | k < |a| && SameUpTo(a, b, k) ensures a[k] == b[k] {
      NextSame(values, blocked, limit, a, b, k);
    }
    SamePrefix(a, b, |a|);
  }

  ghost predicate SameUpTo(a: seq<Item>, b: seq<Item>, n: nat) {
    n <= |a| && n <= |b| && forall i :: 0 <= i < n ==> a[i] == b[i]
  }

  lemma {:induction false} SamePrefix(a: seq<Item>, b: seq<Item>, n: nat)
    requires n <= |a| == |b|
    requires forall k: nat {:trigger SameUpTo(a, b, k)} :: k < |a| && SameUpTo(a, b, k) ==> a[k] == b[k]
    ensures SameUpTo(a, b, n)
  {
    if n > 0 {
      SamePrefix(a, b, n - 1);
    }
  }

  lemma NextSame(values: Counts, blocked: Counts, limit: nat, a: seq<Item>, b: seq<Item>, k: nat)
    requires IsRanking(values, blocked, limit, a) && IsRanking(values, blocked, limit, b)
    requires k < |a| && forall i :: 0 <= i < k ==> a[i] == b[i]
    ensures a[k] == b[k]
  {
    NextNotAbove(values, blocked, limit, a, b, k);
    NextNotAbove(values, blocked, limit, b, a, k);
    if a[k].name != b[k].name {
      AboveTotal(a[k], b[k]);
    }
  }

  /** With equal prefixes, the next item of one ranking is never above that of
      another. */
  lemma NextNotAbove(values: Counts, blocked: Counts, limit: nat, a: seq<Item>, b: seq<Item>, k: nat)
    requires IsRanking(values, blocked, limit, a) && IsRanking(values, blocked, limit, b)
    requires k < |a| && forall i :: 0 <= i < k ==> a[i] == b[i]
    ensures a[k].name != b[k].name ==> Above(b[k], a[k])
  {
    var x := a[k].name;
    if Listed(b, x) {
      var j :| 0 <= j < |b| && b[j].name == x;
      if j < k {
        assert Above(a[j], a[k]);
        Text.LessTotal(x, x);
      }
    }
  }
}
