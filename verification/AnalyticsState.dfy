/** The persisted form of the analytics state. */
module AnalyticsState {
  import opened HeavyHitters
  import opened Ranking
  import opened Buckets
  import opened Sets
  import opened QueryAnalytics
  import Text

  const STATE_VERSION: nat := 1

  datatype Persisted = Persisted(version: nat, buckets: seq<Bucket>, recent: seq<Observation>)

  /** A map cut down to its highest-ranked entries. */
  ghost predicate IsTrim(values: Counts, limit: nat, r: Counts) {
    && r.Keys <= values.Keys
    && (forall x :: x in r ==> r[x] == values[x])
    && |r| == (if |values| <= limit then |values| else limit)
    && (forall x, y :: x in r && y in values && y !in r ==> Above(Item(x, values[x], 0), Item(y, values[y], 0)))
  }

  lemma TrimWithinLimit(values: Counts, limit: nat, r: Counts)
    requires IsTrim(values, limit, r) && |values| <= limit
    ensures r == values
  {
    var dropped := values.Keys - r.Keys;
    assert values.Keys == r.Keys + dropped;
    assert |dropped| == 0;
  }

  method TrimCounts(values: Counts, limit: nat) returns (r: Counts)
    ensures IsTrim(values, limit, r)
  {
    if |values| <= limit {
      return values;
    }
    var items := Rank(values, map[], limit);
    r := map[];
    for i := 0 to |items|
      invariant forall x :: x in r <==> Listed(items[..i], x)
      invariant r.Keys <= values.Keys && forall x :: x in r ==> r[x] == values[x]
      invariant |r| == i
    {
      forall x ensures Listed(items[..i + 1], x) <==> Listed(items[..i], x) || x == items[i].name {
        ListedStep(items, i, x);
      }
      NotYetListed(values, limit, items, i);
      r := r[items[i].name := items[i].queries];
    }
    assert items[..|items|] == items;
    forall x, y | x in r && y in values && y !in r ensures Above(Item(x, values[x], 0), Item(y, values[y], 0)) {
      var i :| 0 <= i < |items| && items[i].name == x;
      assert !Listed(items, y);
      assert Above(items[i], ItemFor(values, map[], y));
    }
  }

  lemma ListedStep(items: seq<Item>, i: nat, x: string)
    requires i < |items|
    ensures Listed(items[..i + 1], x) <==> Listed(items[..i], x) || x == items[i].name
  {
    if Listed(items[..i + 1], x) {
      var j :| 0 <= j < i + 1 && items[..i + 1][j].name == x;
      assert j < i ==> items[..i][j].name == x;
    }
    if Listed(items[..i], x) {
      var j :| 0 <= j < i && items[..i][j].name == x;
      assert items[..i + 1][j].name == x;
    }
    assert items[..i + 1][i] == items[i];
  }

  lemma NotYetListed(values: Counts, limit: nat, items: seq<Item>, i: nat)
    requires IsRanking(values, map[], limit, items) && i < |items|
    ensures !Listed(items[..i], items[i].name)
  {
    if Listed(items[..i], items[i].name) {
      var j :| 0 <= j < i && items[..i][j].name == items[i].name;
      assert Above(items[j], items[i]);
      AboveIrreflexive(items[i]);
    }
  }

  lemma AboveIrreflexive(a: Item)
    ensures !Above(a, a)
  {
    Text.LessTotal(a.name, a.name);
  }

  /** A persisted bucket that loading drops. */
  predicate Skipped(b: Bucket, now: int, retention: int) {
    b.start == 0 || b.start > now + BUCKET_WIDTH || !(b.start + BUCKET_WIDTH > now - retention)
  }

  /** The buckets of a persisted list, before their maps are trimmed; for equal
      starts the last one wins. */
  function Loaded(list: seq<Bucket>, now: int, retention: int): map<int, Bucket> {
    if list == [] then map[]
    else
      var before, b := Loaded(list[..|list| - 1], now, retention), list[|list| - 1];
      if Skipped(b, now, retention) then before else before[Truncate(b.start) := b.(start := Truncate(b.start))]
  }

  ghost predicate TrimOf(b: Bucket, r: Bucket, config: Config) {
    && r == b.(tally := r.tally)
    && forall kind: Kind :: IsTrim(b.tally.Of(kind), LoadedLimit(kind, config), r.tally.Of(kind))
  }

  ghost predicate TrimsOf(all: map<int, Bucket>, r: map<int, Bucket>, config: Config) {
    r.Keys == all.Keys && forall s :: s in r ==> TrimOf(all[s], r[s], config)
  }

  lemma TrimWithinLimits(b: Bucket, r: Bucket, config: Config)
    requires TrimOf(b, r, config)
    ensures WithinLimits(r, config)
    ensures WithinLimits(b, config) ==> r == b
  {
    if WithinLimits(b, config) {
      forall kind: Kind ensures r.tally.Of(kind) == b.tally.Of(kind) {
        TrimWithinLimit(b.tally.Of(kind), LoadedLimit(kind, config), r.tally.Of(kind));
      }
      SameTally(b.tally, r.tally);
    }
  }

  lemma SameTally(t: Tally, u: Tally)
    requires forall kind: Kind :: t.Of(kind) == u.Of(kind)
    ensures t == u
  {
    assert t.Of(Domains) == u.Of(Domains) && t.Of(BlockedDomains) == u.Of(BlockedDomains);
    assert t.Of(Clients) == u.Of(Clients) && t.Of(BlockedClients) == u.Of(BlockedClients) && t.Of(Types) == u.Of(Types);
  }

  method TrimBucket(b: Bucket, config: Config) returns (r: Bucket)
    ensures TrimOf(b, r, config)
  {
    var domains := TrimCounts(b.tally.domains, config.maxDomains);
    var blockedDomains := TrimCounts(b.tally.blockedDomains, config.maxDomains);
    var clients := TrimCounts(b.tally.clients, config.maxClients);
    var blockedClients := TrimCounts(b.tally.blockedClients, config.maxClients);
    var types := TrimCounts(b.tally.types, LOADED_TYPE_LIMIT);
    r := b.(tally := Tally(domains, blockedDomains, clients, blockedClients, types));
  }

  lemma {:induction false} LoadedFiled(list: seq<Bucket>, now: int, retention: int, s: int)
    requires s in Loaded(list, now, retention)
    ensures Loaded(list, now, retention)[s].start == s && s % BUCKET_WIDTH == 0 && s <= now + BUCKET_WIDTH
  {
    var n := |list| - 1;
    if Skipped(list[n], now, retention) || s != Truncate(list[n].start) {
      LoadedFiled(list[..n], now, retention, s);
    }
  }

  /** A list of the buckets of a map, in order of their starts. */
  ghost predicate Lists(list: seq<Bucket>, buckets: map<int, Bucket>) {
    && (forall i, j :: 0 <= i < j < |list| ==> list[i].start < list[j].start)
    && (forall i :: 0 <= i < |list| ==> list[i].start in buckets && list[i] == buckets[list[i].start])
    && (forall s :: s in buckets ==> exists i :: 0 <= i < |list| && list[i].start == s)
  }

  lemma {:induction false} LoadedPrefix(list: seq<Bucket>, n: nat, now: int, retention: int)
    requires n <= |list|
    requires forall i :: 0 <= i < |list| ==> !Skipped(list[i], now, retention) && list[i].start % BUCKET_WIDTH == 0
    requires forall i, j :: 0 <= i < j < |list| ==> list[i].start < list[j].start
    ensures forall i :: 0 <= i < n ==> list[i].start in Loaded(list[..n], now, retention) &&
                                       Loaded(list[..n], now, retention)[list[i].start] == list[i]
    ensures forall s :: s in Loaded(list[..n], now, retention) ==> exists i :: 0 <= i < n && list[i].start == s
  {
    if n > 0 {
      LoadedPrefix(list, n - 1, now, retention);
      assert list[..n][..n - 1] == list[..n - 1];
      assert list[n - 1].start == Truncate(list[n - 1].start);
    }
  }

  /** Saving pruned buckets and loading them again gives the same buckets. */
  lemma LoadSaved(list: seq<Bucket>, buckets: map<int, Bucket>, now: int, config: Config)
    requires WellFiled(buckets, now, config) && buckets == Pruned(buckets, now, config.retention)
    requires Lists(list, buckets) && now > config.retention + BUCKET_WIDTH
    ensures Loaded(list, now, config.retention) == buckets
  {
    LoadedPrefix(list, |list|, now, config.retention);
    assert list[..|list|] == list;
    var loaded := Loaded(list, now, config.retention);
    forall s ensures s in loaded <==> s in buckets {
      if s in buckets {
        var i :| 0 <= i < |list| && list[i].start == s;
      }
    }
    forall s | s in loaded ensures loaded[s] == buckets[s] {
      var i :| 0 <= i < |list| && list[i].start == s;
    }
  }

  function InsertStart(starts: seq<int>, s: int): (r: seq<int>)
    ensures forall x :: x in r <==> x in starts || x == s
  {
    if starts == [] || s < starts[0] then [s] + starts
    else
      assert starts == [starts[0]] + starts[1..];
      [starts[0]] + InsertStart(starts[1..], s)
  }

  ghost predicate Increasing(starts: seq<int>) {
    forall i, j :: 0 <= i < j < |starts| ==> starts[i] < starts[j]
  }

  lemma {:induction false} InsertIncreasing(starts: seq<int>, s: int)
    requires Increasing(starts) && s !in starts
    ensures Increasing(InsertStart(starts, s))
  {
    if starts != [] && s >= starts[0] {
      InsertIncreasing(starts[1..], s);
      var tail := InsertStart(starts[1..], s);
      forall j | 0 <= j < |tail| ensures starts[0] < tail[j] {
        assert tail[j] in tail;
        assert starts[0] in starts;
      }
    }
  }

  /** The keys of a map of buckets in increasing order. */
  method SortedStarts(buckets: map<int, Bucket>) returns (starts: seq<int>)
    ensures Increasing(starts)
    ensures forall s :: s in starts <==> s in buckets
  {
    starts := [];
    var pending := buckets.Keys;
    while pending != {}
      invariant pending <= buckets.Keys
      invariant Increasing(starts)
      invariant forall s :: s in starts <==> s in buckets && s !in pending
      decreases |pending|
    {
      Inhabited(pending);
      var key :| key in pending;
      InsertIncreasing(starts, key);
      starts := InsertStart(starts, key);
      pending := pending - {key};
    }
  }

  method ListBuckets(buckets: map<int, Bucket>) returns (list: seq<Bucket>)
    requires forall s :: s in buckets ==> buckets[s].start == s
    ensures Lists(list, buckets)
  {
    var starts := SortedStarts(buckets);
    list := [];
    for i := 0 to |starts|
      invariant |list| == i
      invariant forall j :: 0 <= j < i ==> starts[j] in buckets && list[j] == buckets[starts[j]]
    {
      assert starts[i] in starts;
      list := list + [buckets[starts[i]]];
    }
    forall s | s in buckets ensures exists i :: 0 <= i < |list| && list[i].start == s {
      assert s in starts;
      var i :| 0 <= i < |starts| && starts[i] == s;
      assert list[i].start == s;
    }
  }

  /** The bucket loop of `Load`. */
  method LoadBuckets(list: seq<Bucket>, now: int, config: Config) returns (r: map<int, Bucket>)
    ensures TrimsOf(Loaded(list, now, config.retention), r, config)
    ensures WellFiled(r, now, config)
  {
    r := map[];
    for i := 0 to |list|
      invariant TrimsOf(Loaded(list[..i], now, config.retention), r, config)
    {
      assert list[..i + 1][..i] == list[..i];
      var b := list[i];
      if b.start == 0 || b.start > now + BUCKET_WIDTH || !(b.start + BUCKET_WIDTH > now - config.retention) {
        continue;
      }
      var trimmed := TrimBucket(b.(start := Truncate(b.start)), config);
      r := r[trimmed.start := trimmed];
    }
    assert list[..|list|] == list;
    forall s | s in r
      ensures r[s].start == s && s % BUCKET_WIDTH == 0 && s <= now + BUCKET_WIDTH && WithinLimits(r[s], config)
    {
      LoadedFiled(list, now, config.retention, s);
      TrimWithinLimits(Loaded(list, now, config.retention)[s], r[s], config);
    }
  }

  lemma TrimsWithinLimits(all: map<int, Bucket>, r: map<int, Bucket>, config: Config)
    requires TrimsOf(all, r, config)
    requires forall s :: s in all ==> WithinLimits(all[s], config)
    ensures r == all
  {
    forall s | s in r ensures r[s] == all[s] {
      TrimWithinLimits(all[s], r[s], config);
    }
  }

  /** The recent events that loading keeps. */
  function InRetention(events: seq<Observation>, now: int, retention: int): seq<Observation> {
    if events == [] then []
    else
      var last := events[|events| - 1];
      InRetention(events[..|events| - 1], now, retention) + if now - retention < last.time <= now then [last] else []
  }

  lemma InRetentionStep(events: seq<Observation>, n: nat, now: int, retention: int)
    requires n < |events|
    ensures InRetention(events[..n + 1], now, retention) ==
            InRetention(events[..n], now, retention) +
            if now - retention < events[n].time <= now then [events[n]] else []
  {
    assert events[..n + 1][..n] == events[..n];
  }

  lemma {:induction false} InRetentionSize(events: seq<Observation>, now: int, retention: int)
    ensures |InRetention(events, now, retention)| <= |events|
  {
    if events != [] {
      InRetentionSize(events[..|events| - 1], now, retention);
    }
  }
}
