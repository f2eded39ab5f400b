/** Merging the buckets of a time window: what the merged counters and the ranked
    lists say about the observations in that window. */
module Windows {
  import opened HeavyHitters
  import opened Sets
  import opened Ranking
  import opened Buckets

  /** A bucket that pruning keeps. */
  predicate Live(start: int, now: int, retention: int) {
    start + BUCKET_WIDTH > now - retention
  }

  /** A bucket that a snapshot of the last `duration` includes. */
  predicate InWindow(start: int, now: int, duration: int) {
    start + BUCKET_WIDTH > now - duration && start <= now
  }

  /** The observations of a log that fall in the given buckets. */
  ghost function Within(log: seq<Observation>, starts: set<int>): seq<Observation> {
    if log == [] then []
    else
      var before, last := Within(log[..|log| - 1], starts), log[|log| - 1];
      if Truncate(last.time) in starts then before + [last] else before
  }

  /** The observations that a snapshot taken at `now` is about. */
  ghost function WindowLog(log: seq<Observation>, now: int, duration: int, retention: int): seq<Observation> {
    if log == [] then []
    else
      var before, last := WindowLog(log[..|log| - 1], now, duration, retention), log[|log| - 1];
      var start := Truncate(last.time);
      if Live(start, now, retention) && InWindow(start, now, duration) then before + [last] else before
  }

  lemma {:induction false} WindowLogWithin(
    log: seq<Observation>, starts: set<int>, now: int, duration: int, retention: int)
    requires forall o :: o in log ==>
        (Truncate(o.time) in starts <==>
            Live(Truncate(o.time), now, retention) && InWindow(Truncate(o.time), now, duration))
    ensures Within(log, starts) == WindowLog(log, now, duration, retention)
  {
    if log != [] {
      assert log[|log| - 1] in log;
      WindowLogWithin(log[..|log| - 1], starts, now, duration, retention);
    }
  }

  lemma StreamAppend(kind: Kind, log: seq<Observation>, o: Observation)
    ensures multiset(Stream(kind, log + [o])) ==
            multiset(Stream(kind, log)) + if Feeds(kind, o) then multiset{Key(kind, o)} else multiset{}
  {
    assert (log + [o])[..|log|] == log;
  }

  lemma StreamWithin(kind: Kind, log: seq<Observation>, starts: set<int>)
    requires log != []
    ensures multiset(Stream(kind, Within(log, starts))) ==
            multiset(Stream(kind, Within(log[..|log| - 1], starts))) +
            (var o := log[|log| - 1];
             if Truncate(o.time) in starts && Feeds(kind, o) then multiset{Key(kind, o)} else multiset{})
  {
    StreamAppend(kind, Within(log[..|log| - 1], starts), log[|log| - 1]);
  }

  lemma {:induction false} WithinSplit(kind: Kind, log: seq<Observation>, starts: set<int>, s: int)
    requires s !in starts
    ensures multiset(Stream(kind, Within(log, starts + {s}))) ==
            multiset(Stream(kind, Within(log, starts))) + multiset(Stream(kind, Within(log, {s})))
  {
    if log != [] {
      WithinSplit(kind, log[..|log| - 1], starts, s);
      StreamWithin(kind, log, starts + {s});
      StreamWithin(kind, log, starts);
      StreamWithin(kind, log, {s});
    }
  }

  lemma StreamLength(kind: Kind, log: seq<Observation>, starts: set<int>, s: int)
    requires s !in starts
    ensures |Stream(kind, Within(log, starts + {s}))| ==
            |Stream(kind, Within(log, starts))| + |Stream(kind, Within(log, {s}))|
  {
    WithinSplit(kind, log, starts, s);
    assert |multiset(Stream(kind, Within(log, starts + {s})))| ==
           |multiset(Stream(kind, Within(log, starts)))| + |multiset(Stream(kind, Within(log, {s})))|;
  }

  lemma {:induction false} WithinLength(log: seq<Observation>, starts: set<int>, s: int)
    requires s !in starts
    ensures |Within(log, starts + {s})| == |Within(log, starts)| + |Within(log, {s})|
  {
    if log != [] {
      WithinLength(log[..|log| - 1], starts, s);
    }
  }

  lemma {:induction false} WithinNone(log: seq<Observation>)
    ensures Within(log, {}) == []
  {
    if log != [] {
      WithinNone(log[..|log| - 1]);
    }
  }

  /** Division, by repeated subtraction. */
  function Quotient(n: nat, d: nat): nat
    requires d > 0
  {
    if n < d then 0 else 1 + Quotient(n - d, d)
  }

  lemma {:induction false} QuotientIsFloor(n: nat, d: nat)
    requires d > 0
    ensures d * Quotient(n, d) <= n < d * (Quotient(n, d) + 1)
  {
    if n >= d {
      QuotientIsFloor(n - d, d);
      Distribute(d, Quotient(n - d, d));
      Distribute(d, Quotient(n, d));
    }
  }

  /** It is the built-in division, for which the solver has no induction. */
  lemma QuotientIsDivision(n: nat, d: nat)
    requires d > 0
    ensures Quotient(n, d) == n / d
  {
    QuotientIsFloor(n, d);
    QuotientLargest(n, d, n / d);
    QuotientBound(Quotient(n, d), d, n);
  }

  lemma QuotientLargest(n: nat, d: nat, q: nat)
    requires d > 0 && d * q <= n
    ensures q <= Quotient(n, d)
  {
    QuotientIsFloor(n, d);
    if q > Quotient(n, d) {
      Monotone(d, Quotient(n, d) + 1, q);
    }
  }

  /** At most N / (limit + 1) of the calls overflowed. */
  lemma OverflowBound(stream: seq<string>, limit: nat)
    ensures Overflowed(stream, limit) <= Quotient(|stream|, limit + 1)
  {
    Accounting(stream, limit);
    QuotientLargest(|stream|, limit + 1, Overflowed(stream, limit));
  }

  /** The observations a bucket's own counter may miss. */
  ghost function BucketShortfall(kind: Kind, log: seq<Observation>, start: int, config: Config): nat {
    Quotient(|Stream(kind, Within(log, {start}))|, Limit(kind, config) + 1)
  }

  /** The same over a set of buckets. */
  ghost function Shortfall(kind: Kind, log: seq<Observation>, starts: set<int>, config: Config): nat {
    if starts == {} then 0
    else
      Inhabited(starts);
      var s :| s in starts;
      BucketShortfall(kind, log, s, config) + Shortfall(kind, log, starts - {s}, config)
  }

  lemma {:induction false} ShortfallSplit(kind: Kind, log: seq<Observation>, starts: set<int>, s: int, config: Config)
    requires s in starts
    ensures Shortfall(kind, log, starts, config) ==
            BucketShortfall(kind, log, s, config) + Shortfall(kind, log, starts - {s}, config)
    decreases |starts|
  {
    var t :| t in starts && Shortfall(kind, log, starts, config) ==
        BucketShortfall(kind, log, t, config) + Shortfall(kind, log, starts - {t}, config);
    if t != s {
      ShortfallSplit(kind, log, starts - {t}, s, config);
      ShortfallSplit(kind, log, starts - {s}, t, config);
      assert starts - {t} - {s} == starts - {s} - {t};
    }
  }

  /** However the window is cut into buckets, it misses at most N / (limit + 1). */
  lemma ShortfallBound(kind: Kind, log: seq<Observation>, starts: set<int>, config: Config)
    ensures Shortfall(kind, log, starts, config) <= |Stream(kind, Within(log, starts))| / (Limit(kind, config) + 1)
  {
    ShortfallProduct(kind, log, starts, config);
    QuotientBound(Shortfall(kind, log, starts, config), Limit(kind, config) + 1, |Stream(kind, Within(log, starts))|);
  }

  lemma {:induction false} ShortfallProduct(kind: Kind, log: seq<Observation>, starts: set<int>, config: Config)
    ensures (Limit(kind, config) + 1) * Shortfall(kind, log, starts, config) <= |Stream(kind, Within(log, starts))|
    decreases |starts|
  {
    if starts != {} {
      Inhabited(starts);
      var s :| s in starts;
      ShortfallProduct(kind, log, starts - {s}, config);
      ShortfallProductStep(kind, log, starts - {s}, s, config);
      assert starts - {s} + {s} == starts;
    }
  }

  lemma ShortfallProductStep(kind: Kind, log: seq<Observation>, rest: set<int>, s: int, config: Config)
    requires s !in rest
    requires (Limit(kind, config) + 1) * Shortfall(kind, log, rest, config) <= |Stream(kind, Within(log, rest))|
    ensures var all := rest + {s};
            (Limit(kind, config) + 1) * Shortfall(kind, log, all, config) <= |Stream(kind, Within(log, all))|
  {
    var d, n, total := Limit(kind, config) + 1, |Stream(kind, Within(log, {s}))|, Shortfall(kind, log, rest, config);
    ShortfallSplit(kind, log, rest + {s}, s, config);
    assert rest + {s} - {s} == rest;
    StreamLength(kind, log, rest, s);
    QuotientIsFloor(n, d);
    ProductSum(d, Quotient(n, d), total);
  }

  lemma ProductSum(d: nat, a: nat, b: nat)
    ensures d * (a + b) == d * a + d * b
  {
  }

  /** The counters never exceed the true counts and miss at most `e` of them. */
  ghost predicate Approximates(counts: Counts, kind: Kind, log: seq<Observation>, e: nat) {
    forall x :: Count(counts, x) <= TrueCount(kind, log, x) <= Count(counts, x) + e
  }

  lemma SketchApproximates(counts: Counts, kind: Kind, log: seq<Observation>, config: Config)
    requires counts == Sketch(Stream(kind, log), Limit(kind, config))
    ensures Positive(counts)
    ensures Approximates(counts, kind, log, Quotient(|Stream(kind, log)|, Limit(kind, config) + 1))
    ensures !Lossy(kind, log, config) ==> Approximates(counts, kind, log, 0)
  {
    var stream, limit := Stream(kind, log), Limit(kind, config);
    SketchSize(stream, limit);
    OverflowBound(stream, limit);
    forall x ensures Count(counts, x) <= TrueCount(kind, log, x) <= Count(counts, x) + Overflowed(stream, limit) {
      CounterBounds(stream, limit, x);
    }
  }

  lemma ApproximatesSum(
    a: Counts, b: Counts, kind: Kind, la: seq<Observation>, lb: seq<Observation>, log: seq<Observation>, ea: nat,
    eb: nat)
    requires Approximates(a, kind, la, ea) && Approximates(b, kind, lb, eb)
    requires multiset(Stream(kind, log)) == multiset(Stream(kind, la)) + multiset(Stream(kind, lb))
    ensures Approximates(Merged(a, b), kind, log, ea + eb)
  {
    forall x ensures Count(Merged(a, b), x) <= TrueCount(kind, log, x) <= Count(Merged(a, b), x) + ea + eb {
      assert Count(Merged(a, b), x) == Count(a, x) + Count(b, x);
    }
  }

  /** The merged counters of one kind over a set of buckets. */
  ghost predicate Merges(
    counts: Counts, kind: Kind, truncated: bool, log: seq<Observation>, starts: set<int>, config: Config)
  {
    && Positive(counts)
    && Approximates(counts, kind, Within(log, starts), Shortfall(kind, log, starts, config))
    && (!truncated ==> Approximates(counts, kind, Within(log, starts), 0))
  }

  lemma MergesNone(kind: Kind, log: seq<Observation>, config: Config)
    ensures Merges(map[], kind, false, log, {}, config)
  {
    WithinNone(log);
  }

  lemma NothingLost(b: Bucket, log: seq<Observation>, kind: Kind, config: Config)
    requires Summarizes(b, log, config) && !b.Truncated()
    ensures !Lossy(kind, log, config)
  {
  }

  lemma MergedPositive(a: Counts, b: Counts)
    requires Positive(a) && Positive(b)
    ensures Positive(Merged(a, b))
  {
  }

  lemma ShortfallAdd(kind: Kind, log: seq<Observation>, starts: set<int>, s: int, config: Config)
    requires s !in starts
    ensures Shortfall(kind, log, starts + {s}, config) ==
            Shortfall(kind, log, starts, config) + BucketShortfall(kind, log, s, config)
  {
    ShortfallSplit(kind, log, starts + {s}, s, config);
    assert starts + {s} - {s} == starts;
  }

  lemma MergesBound(
    counts: Counts, added: Counts, kind: Kind, log: seq<Observation>, starts: set<int>, s: int, e: nat, e': nat)
    requires s !in starts
    requires Approximates(counts, kind, Within(log, starts), e) && Approximates(added, kind, Within(log, {s}), e')
    ensures Approximates(Merged(counts, added), kind, Within(log, starts + {s}), e + e')
  {
    WithinSplit(kind, log, starts, s);
    ApproximatesSum(counts, added, kind, Within(log, starts), Within(log, {s}), Within(log, starts + {s}), e, e');
  }

  /** What the counters of a bucket say about its own observations. */
  lemma BucketApproximates(b: Bucket, log: seq<Observation>, s: int, kind: Kind, config: Config)
    requires Summarizes(b, Within(log, {s}), config)
    ensures Positive(b.tally.Of(kind))
    ensures Approximates(b.tally.Of(kind), kind, Within(log, {s}), BucketShortfall(kind, log, s, config))
    ensures !b.Truncated() ==> Approximates(b.tally.Of(kind), kind, Within(log, {s}), 0)
  {
    SketchApproximates(b.tally.Of(kind), kind, Within(log, {s}), config);
    if !b.Truncated() {
      NothingLost(b, Within(log, {s}), kind, config);
    }
  }

  lemma MergesAdded(
    counts: Counts, added: Counts, exact: bool, kind: Kind, truncated: bool, log: seq<Observation>, starts: set<int>,
    s: int, config: Config)
    requires s !in starts && Merges(counts, kind, truncated, log, starts, config) && Positive(added)
    requires Approximates(added, kind, Within(log, {s}), BucketShortfall(kind, log, s, config))
    requires exact ==> Approximates(added, kind, Within(log, {s}), 0)
    ensures Merges(Merged(counts, added), kind, truncated || !exact, log, starts + {s}, config)
  {
    var lost, lost' := Shortfall(kind, log, starts, config), BucketShortfall(kind, log, s, config);
    MergedPositive(counts, added);
    ShortfallAdd(kind, log, starts, s, config);
    MergesBound(counts, added, kind, log, starts, s, lost, lost');
    if !truncated && exact {
      MergesBound(counts, added, kind, log, starts, s, 0, 0);
    }
  }

  lemma MergesStep(
    counts: Counts, kind: Kind, truncated: bool, b: Bucket, log: seq<Observation>, starts: set<int>, s: int,
    config: Config)
    requires s !in starts && Summarizes(b, Within(log, {s}), config)
    requires Merges(counts, kind, truncated, log, starts, config)
    ensures Merges(Merged(counts, b.tally.Of(kind)), kind, truncated || b.Truncated(), log, starts + {s}, config)
  {
    BucketApproximates(b, log, s, kind, config);
    MergesAdded(counts, b.tally.Of(kind), !b.Truncated(), kind, truncated, log, starts, s, config);
  }

  /** What a ranked list of a snapshot tells: listed names carry their counts up to
      the error `e`, and a name that is not listed cannot have been seen more often
      than the last listed one, up to the same error. */
  ghost predicate Reports(items: seq<Item>, kind: Kind, log: seq<Observation>, limit: nat, e: nat)
    requires limit > 0
  {
    && |items| <= limit
    && Sorted(items)
    && (forall i :: 0 <= i < |items| ==>
          items[i].queries <= TrueCount(kind, log, items[i].name) <= items[i].queries + e)
    && (forall x :: !Listed(items, x) ==>
          TrueCount(kind, log, x) <= e + if |items| < limit then 0 else items[limit - 1].queries)
  }

  lemma RankingReports(
    items: seq<Item>, counts: Counts, blocked: Counts, kind: Kind, log: seq<Observation>, limit: nat, e: nat)
    requires limit > 0
    requires IsRanking(counts, blocked, limit, items)
    requires Approximates(counts, kind, log, e)
    ensures Reports(items, kind, log, limit, e)
  {
    forall i | 0 <= i < |items|
      ensures items[i].queries <= TrueCount(kind, log, items[i].name) <= items[i].queries + e
    {
      assert items[i].queries == Count(counts, items[i].name);
    }
    forall x | !Listed(items, x)
      ensures TrueCount(kind, log, x) <= e + if |items| < limit then 0 else items[limit - 1].queries
    {
      assert TrueCount(kind, log, x) <= Count(counts, x) + e;
      if x in counts {
        assert |items| == limit;
        assert Above(items[limit - 1], ItemFor(counts, blocked, x));
      }
    }
  }

  ghost function Distinct(kind: Kind, log: seq<Observation>): set<string> {
    set x | x in Stream(kind, log)
  }

  /** Every name that is counted was seen; without truncation, every name seen is
      counted. */
  lemma CountedNames(counts: Counts, kind: Kind, log: seq<Observation>, e: nat)
    requires Positive(counts) && Approximates(counts, kind, log, e)
    ensures counts.Keys <= Distinct(kind, log)
    ensures |counts| <= |Distinct(kind, log)|
    ensures e == 0 ==> |counts| == |Distinct(kind, log)|
  {
    forall x | x in counts ensures x in Stream(kind, log) {
      assert Count(counts, x) <= TrueCount(kind, log, x);
    }
    SubsetSize(counts.Keys, Distinct(kind, log));
    if e == 0 {
      forall x | x in Distinct(kind, log) ensures x in counts {
        assert x in multiset(Stream(kind, log));
        assert TrueCount(kind, log, x) <= Count(counts, x);
      }
      assert counts.Keys == Distinct(kind, log);
    }
  }
}
