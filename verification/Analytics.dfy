/** The query analytics: configuration, recording, pruning and snapshots. */
module QueryAnalytics {
  import opened HeavyHitters
  import opened Ranking
  import opened Buckets
  import opened Windows
  import opened Sets
  import opened Options
  import Text

  /** What `NewAnalytics` accepts once defaults are filled in. */
  predicate ValidConfig(c: Config) {
    && HOUR <= c.retention <= 31 * 24 * HOUR
    && 16 <= c.maxDomains <= 10000
    && 8 <= c.maxClients <= 4096
    && 1 <= c.recentQueries <= 10000
  }

  /** The capacity check of `NewAnalytics`. */
  predicate WithinBudget(c: Config)
    requires ValidConfig(c)
  {
    c.maxDomains * BudgetedBuckets(c) <= 2_000_000 && c.maxClients * BudgetedBuckets(c) <= 500_000
  }

  /** A configuration as it is given; zero values and an empty mode are not set. */
  datatype Settings = Settings(mode: string, retention: int, maxDomains: int, maxClients: int, recentQueries: int)

  function ModeOf(mode: string): Option<Mode> {
    var name := Text.ToLower(Text.TrimSpace(mode));
    if name == "" || name == "aggregate" then Some(Aggregate)
    else if name == "statistics" then Some(Statistics)
    else if name == "detailed" then Some(Detailed)
    else None
  }

  function OrSet(n: int, default: nat): int {
    if n == 0 then default else n
  }

  /** The settings with the defaults filled in; None for a mode that does not exist or a
      negative number. */
  function Filled(s: Settings): Option<Config> {
    var domains, clients, recent := OrSet(s.maxDomains, 512), OrSet(s.maxClients, 128), OrSet(s.recentQueries, 1000);
    if ModeOf(s.mode).None? || domains < 0 || clients < 0 || recent < 0 then None
    else Some(Config(ModeOf(s.mode).value, OrSet(s.retention, 7 * 24 * HOUR), domains, clients, recent))
  }

  /** The checks of `NewAnalytics`: settings are accepted exactly if, with the defaults
      filled in, they are in range and within the capacity. */
  method Configure(s: Settings) returns (r: Option<Config>)
    ensures r.Some? <==> Filled(s).Some? && ValidConfig(Filled(s).value) && WithinBudget(Filled(s).value)
    ensures r.Some? ==> r == Filled(s)
  {
    var mode := ModeOf(s.mode);
    if mode.None? {
      return None;
    }
    var retention := OrSet(s.retention, 7 * 24 * HOUR);
    if retention < HOUR || retention > 31 * 24 * HOUR {
      return None;
    }
    var domains, clients, recent := OrSet(s.maxDomains, 512), OrSet(s.maxClients, 128), OrSet(s.recentQueries, 1000);
    if domains < 16 || domains > 10000 || clients < 8 || clients > 4096 || recent < 1 || recent > 10000 {
      return None;
    }
    var buckets := retention / BUCKET_WIDTH + 1;
    if domains * buckets > 2_000_000 || clients * buckets > 500_000 {
      return None;
    }
    return Some(Config(mode.value, retention, domains, clients, recent));
  }

  /** Settings that are left out are filled in, and what is filled in is accepted. */
  lemma DefaultsAccepted(s: Settings)
    requires s == Settings("", 0, 0, 0, 0)
    ensures Filled(s) == Some(Config(Aggregate, 168 * HOUR, 512, 128, 1000))
    ensures ValidConfig(Filled(s).value) && WithinBudget(Filled(s).value)
  {
  }

  /** The number of buckets that the capacity check counts on. */
  function BudgetedBuckets(c: Config): nat
    requires c.retention >= 0
  {
    c.retention / BUCKET_WIDTH + 1
  }

  /** The number of buckets that can really remain after pruning. */
  function MaxBuckets(c: Config): nat
    requires c.retention >= 0
  {
    (c.retention + BUCKET_WIDTH - 1) / BUCKET_WIDTH + 2
  }

  function OrDefault(s: string, default: string): string {
    if s == "" then default else s
  }

  /** The observation as it is counted, or None if it is ignored. */
  function Normalize(o: Observation, now: int, retention: int): Option<Observation> {
    var time := if o.time == 0 then now else o.time;
    var domain := Text.ToLower(Text.TrimSuffix(Text.TrimSpace(o.domain), "."));
    if !(time + BUCKET_WIDTH > now - retention) || time > now + BUCKET_WIDTH || domain == "" then None
    else Some(Observation(time, domain, OrDefault(Text.TrimSpace(o.client), "unknown"),
                          OrDefault(Text.TrimSpace(o.rrtype), "OTHER"),
                          OrDefault(Text.TrimSpace(o.protocol), "UNKNOWN"), o.blocked))
  }

  function Pruned(buckets: map<int, Bucket>, now: int, retention: int): map<int, Bucket> {
    map s | s in buckets && Live(buckets[s].start, now, retention) :: buckets[s]
  }

  function LoadedLimit(kind: Kind, config: Config): nat {
    if kind == Types then LOADED_TYPE_LIMIT else Limit(kind, config)
  }

  ghost predicate WithinLimits(b: Bucket, config: Config) {
    forall kind: Kind :: |b.tally.Of(kind)| <= LoadedLimit(kind, config)
  }

  /** Buckets are filed under their own start, and none starts too far ahead. */
  ghost predicate WellFiled(buckets: map<int, Bucket>, clock: int, config: Config) {
    forall s :: s in buckets ==>
      && buckets[s].start == s
      && s % BUCKET_WIDTH == 0
      && s <= clock + BUCKET_WIDTH
      && WithinLimits(buckets[s], config)
  }

  /** Every live bucket summarizes exactly the observations of the log that fall
      in it, and no live observation is missing. */
  ghost predicate FaithfulTo(buckets: map<int, Bucket>, log: seq<Observation>, clock: int, config: Config) {
    && (forall s :: s in buckets && Live(s, clock, config.retention) ==>
         Summarizes(buckets[s], Within(log, {s}), config))
    && (forall o :: o in log && Live(Truncate(o.time), clock, config.retention) ==> Truncate(o.time) in buckets)
  }

  // ---------------------------------------------------------------- pruning

  lemma PrunedStep(buckets: map<int, Bucket>, now: int, retention: int, key: int)
    requires key in buckets && !Live(buckets[key].start, now, retention)
    ensures Pruned(buckets - {key}, now, retention) == Pruned(buckets, now, retention)
  {
  }

  /** The loop of `pruneLocked`. */
  method DropExpired(buckets: map<int, Bucket>, now: int, retention: int) returns (r: map<int, Bucket>)
    ensures r == Pruned(buckets, now, retention)
  {
    r := buckets;
    var pending := buckets.Keys;
    while pending != {}
      invariant Pruned(r, now, retention) == Pruned(buckets, now, retention)
      invariant forall s :: s in r && s !in pending ==> Live(r[s].start, now, retention)
      invariant pending <= r.Keys
      decreases |pending|
    {
      Inhabited(pending);
      var key :| key in pending;
      pending := pending - {key};
      if !Live(r[key].start, now, retention) {
        PrunedStep(r, now, retention, key);
        r := r - {key};
      }
    }
    assert forall s :: s in r ==> Live(r[s].start, now, retention);
    assert Pruned(r, now, retention).Keys == r.Keys;
  }

  lemma {:induction false} PruneFaithful(
    buckets: map<int, Bucket>, log: seq<Observation>, clock: int, now: int, config: Config)
    requires WellFiled(buckets, clock, config) && clock <= now
    ensures WellFiled(buckets, now, config)
    ensures WellFiled(Pruned(buckets, now, config.retention), now, config)
    ensures FaithfulTo(buckets, log, clock, config) ==>
              FaithfulTo(buckets, log, now, config) &&
              FaithfulTo(Pruned(buckets, now, config.retention), log, now, config)
  {
  }

  lemma SameMultiple(s: int, t: int)
    requires s % BUCKET_WIDTH == 0 && t % BUCKET_WIDTH == 0 && s - BUCKET_WIDTH < t < s + BUCKET_WIDTH
    ensures s == t
  {
  }

  lemma OneMultiple(starts: set<int>, low: int)
    requires forall s :: s in starts ==> s % BUCKET_WIDTH == 0 && low < s <= low + BUCKET_WIDTH
    ensures |starts| <= 1
  {
    if starts != {} {
      Inhabited(starts);
      var s :| s in starts;
      forall t | t in starts ensures t == s {
        SameMultiple(s, t);
      }
      assert starts == {s};
    }
  }

  /** A set of multiples of the bucket width in an interval of n widths has at most
      n elements. */
  lemma {:induction false} MultiplesBound(starts: set<int>, low: int, n: nat)
    requires forall s :: s in starts ==> s % BUCKET_WIDTH == 0 && low < s <= low + n * BUCKET_WIDTH
    ensures |starts| <= n
    decreases n
  {
    if n > 0 {
      var middle := low + (n - 1) * BUCKET_WIDTH;
      var top := set s | s in starts && s > middle;
      var rest := starts - top;
      MultiplesBound(rest, low, n - 1);
      OneMultiple(top, middle);
      assert starts == rest + top;
    } else if starts != {} {
      Inhabited(starts);
    }
  }

  /** At most MaxBuckets survive pruning. */
  lemma BucketBound(buckets: map<int, Bucket>, now: int, config: Config)
    requires ValidConfig(config) && WellFiled(buckets, now, config)
    ensures |Pruned(buckets, now, config.retention)| <= MaxBuckets(config)
  {
    var kept := Pruned(buckets, now, config.retention);
    MultiplesBound(kept.Keys, now - config.retention - BUCKET_WIDTH, MaxBuckets(config));
  }

  /** All counters of one kind in some buckets. */
  ghost function Counters(buckets: map<int, Bucket>, starts: set<int>, kind: Kind): nat
    requires starts <= buckets.Keys
  {
    if starts == {} then 0
    else
      Inhabited(starts);
      var s :| s in starts;
      |buckets[s].tally.Of(kind)| + Counters(buckets, starts - {s}, kind)
  }

  lemma {:induction false} CountersBound(buckets: map<int, Bucket>, starts: set<int>, kind: Kind, limit: nat)
    requires starts <= buckets.Keys && forall s :: s in starts ==> |buckets[s].tally.Of(kind)| <= limit
    ensures Counters(buckets, starts, kind) <= limit * |starts|
    decreases |starts|
  {
    if starts != {} {
      Inhabited(starts);
      var s :| s in starts && Counters(buckets, starts, kind) ==
          |buckets[s].tally.Of(kind)| + Counters(buckets, starts - {s}, kind);
      CountersBound(buckets, starts - {s}, kind, limit);
      OneMore(limit, |starts|);
    }
  }

  lemma OneMore(limit: nat, n: nat)
    requires n > 0
    ensures limit * n == limit + limit * (n - 1)
  {
  }

  /** There are at most `limit` counters of each kind for each of n buckets. */
  ghost predicate CountersWithin(buckets: map<int, Bucket>, n: nat, config: Config) {
    forall kind: Kind :: Counters(buckets, buckets.Keys, kind) <= Capacity(kind, config, n)
  }

  /** The limit of a kind, n times. */
  ghost function Capacity(kind: Kind, config: Config, n: nat): nat {
    if n == 0 then 0 else LoadedLimit(kind, config) + Capacity(kind, config, n - 1)
  }

  lemma {:induction false} CapacityIs(kind: Kind, config: Config, n: nat)
    ensures Capacity(kind, config, n) == LoadedLimit(kind, config) * n
  {
    if n > 0 {
      CapacityIs(kind, config, n - 1);
      OneMore(LoadedLimit(kind, config), n);
    }
  }

  /** The memory that the counters take is bounded by the configuration. */
  lemma TotalCounters(buckets: map<int, Bucket>, clock: int, n: nat, config: Config)
    requires WellFiled(buckets, clock, config) && |buckets| <= n
    ensures CountersWithin(buckets, n, config)
  {
    forall kind: Kind ensures Counters(buckets, buckets.Keys, kind) <= Capacity(kind, config, n) {
      CapacityIs(kind, config, n);
      CountersBound(buckets, buckets.Keys, kind, LoadedLimit(kind, config));
      ProductMonotone(LoadedLimit(kind, config), |buckets|, n);
    }
  }

  lemma ProductMonotone(limit: nat, a: nat, b: nat)
    requires a <= b
    ensures limit * a <= limit * b
  {
  }

  // -------------------------------------------------------------- recording

  lemma IncrementedSize(m: Counts, key: string, limit: nat)
    ensures |Incremented(m, key, limit)| <= if |m| <= limit then limit else |m|
  {
    if Overflows(m, key, limit) {
      LoweredSize(m);
    } else {
      assert key in m ==> m[key := Count(m, key) + 1].Keys == m.Keys;
    }
  }

  lemma AddedWithinLimits(b: Bucket, o: Observation, config: Config)
    requires WithinLimits(b, config)
    ensures WithinLimits(Added(b, o, config), config)
  {
    forall kind: Kind ensures |Added(b, o, config).tally.Of(kind)| <= LoadedLimit(kind, config) {
      AddedTally(b, o, config, kind);
      IncrementedSize(b.tally.Of(kind), Key(kind, o), Limit(kind, config));
    }
  }

  lemma WithinAppend(log: seq<Observation>, o: Observation, s: int)
    ensures Within(log + [o], {s}) == if Truncate(o.time) == s then Within(log, {s}) + [o] else Within(log, {s})
  {
    assert (log + [o])[..|log|] == log;
  }

  lemma {:induction false} WithinAbsent(log: seq<Observation>, s: int)
    requires forall o :: o in log ==> Truncate(o.time) != s
    ensures Within(log, {s}) == []
  {
    if log != [] {
      assert log[|log| - 1] in log;
      WithinAbsent(log[..|log| - 1], s);
    }
  }

  function BucketAt(buckets: map<int, Bucket>, s: int): Bucket {
    if s in buckets then buckets[s] else EmptyBucket(s)
  }

  /** The buckets after an accepted observation, from pruned ones. */
  function Counted(buckets: map<int, Bucket>, o: Observation, config: Config): map<int, Bucket> {
    var s := Truncate(o.time);
    buckets[s := Added(BucketAt(buckets, s), o, config)]
  }

  lemma CountedSize(buckets: map<int, Bucket>, o: Observation, config: Config)
    ensures |Counted(buckets, o, config)| <= |buckets| + 1
  {
    var s := Truncate(o.time);
    if s in buckets {
      assert Counted(buckets, o, config).Keys == buckets.Keys + {s};
      SameElements(Counted(buckets, o, config).Keys, buckets.Keys);
    }
  }

  lemma CountedFaithful(buckets: map<int, Bucket>, log: seq<Observation>, o: Observation, now: int, config: Config)
    requires FaithfulTo(buckets, log, now, config)
    ensures FaithfulTo(Counted(buckets, o, config), log + [o], now, config)
  {
    var s, after := Truncate(o.time), Counted(buckets, o, config);
    forall t | t in after && Live(t, now, config.retention)
      ensures Summarizes(after[t], Within(log + [o], {t}), config)
    {
      WithinAppend(log, o, t);
      if t == s {
        if s !in buckets {
          WithinAbsent(log, s);
          EmptySummary(s, config);
        }
        SummaryStep(BucketAt(buckets, s), Within(log, {s}), o, config);
      }
    }
  }

  lemma CountedFiled(buckets: map<int, Bucket>, o: Observation, now: int, config: Config)
    requires WellFiled(buckets, now, config) && o.time <= now + BUCKET_WIDTH
    ensures WellFiled(Counted(buckets, o, config), now, config)
  {
    var s := Truncate(o.time);
    AddedWithinLimits(BucketAt(buckets, s), o, config);
  }

  method CountInto(buckets: map<int, Bucket>, o: Observation, config: Config) returns (r: map<int, Bucket>)
    ensures r == Counted(buckets, o, config)
  {
    var start := Truncate(o.time);
    var bucket := if start in buckets then buckets[start] else EmptyBucket(start);
    var counted := CountQuery(bucket, o, config);
    if o.blocked {
      counted := CountBlocked(counted, o, config);
    }
    r := buckets[start := counted];
  }

  lemma CountedKeeps(buckets: map<int, Bucket>, o: Observation, now: int, config: Config, n: nat)
    requires WellFiled(buckets, now, config) && o.time <= now + BUCKET_WIDTH && |buckets| <= n
    ensures WellFiled(Counted(buckets, o, config), now, config) && |Counted(buckets, o, config)| <= n + 1
    ensures CountersWithin(Counted(buckets, o, config), n + 1, config)
  {
    CountedFiled(buckets, o, now, config);
    CountedSize(buckets, o, config);
    TotalCounters(Counted(buckets, o, config), now, n + 1, config);
  }

  /** The buckets with an observation counted in its own one. */
  method CountObservation(
    buckets: map<int, Bucket>, o: Observation, ghost now: int, config: Config, ghost log: seq<Observation>,
    ghost n: nat)
    returns (r: map<int, Bucket>)
    requires WellFiled(buckets, now, config) && o.time <= now + BUCKET_WIDTH && |buckets| <= n
    ensures r == Counted(buckets, o, config)
    ensures WellFiled(r, now, config) && |r| <= n + 1 && CountersWithin(r, n + 1, config)
    ensures FaithfulTo(buckets, log, now, config) ==> FaithfulTo(r, log + [o], now, config)
  {
    CountedKeeps(buckets, o, now, config, n);
    if FaithfulTo(buckets, log, now, config) {
      CountedFaithful(buckets, log, o, now, config);
    }
    r := CountInto(buckets, o, config);
  }

  // -------------------------------------------------------------- snapshots

  datatype Snapshot = Snapshot(
    queries: nat, blocked: nat, trackedDomains: nat, trackedClients: nat, truncated: bool,
    topDomains: seq<Item>, topBlockedDomains: seq<Item>, topClients: seq<Item>, queryTypes: seq<Item>,
    recent: seq<Observation>)

  function EmptySnapshot(): Snapshot {
    Snapshot(0, 0, 0, 0, false, [], [], [], [], [])
  }

  function RangeDuration(name: string): Option<int> {
    match name
    case "1h" => Some(HOUR)
    case "" => Some(6 * HOUR)
    case "6h" => Some(6 * HOUR)
    case "24h" => Some(24 * HOUR)
    case "7d" => Some(7 * 24 * HOUR)
    case _ => None
  }

  datatype Window = Window(queries: nat, blocked: nat, tally: Tally, truncated: bool)

  /** What the merged window says about the given buckets of a log. */
  ghost predicate Gathers(w: Window, log: seq<Observation>, starts: set<int>, config: Config) {
    && w.queries == |Within(log, starts)|
    && w.blocked == BlockedCount(Within(log, starts))
    && (forall kind: Kind :: Merges(w.tally.Of(kind), kind, w.truncated, log, starts, config))
  }

  method MergeBucket(w: Window, b: Bucket) returns (r: Window)
    ensures r.queries == w.queries + b.queries && r.blocked == w.blocked + b.blocked
    ensures forall kind: Kind :: r.tally.Of(kind) == Merged(w.tally.Of(kind), b.tally.Of(kind))
    ensures r.truncated == (w.truncated || b.Truncated())
  {
    var domains := MergeCounts(w.tally.domains, b.tally.domains);
    var blockedDomains := MergeCounts(w.tally.blockedDomains, b.tally.blockedDomains);
    var clients := MergeCounts(w.tally.clients, b.tally.clients);
    var blockedClients := MergeCounts(w.tally.blockedClients, b.tally.blockedClients);
    var types := MergeCounts(w.tally.types, b.tally.types);
    r := Window(w.queries + b.queries, w.blocked + b.blocked,
        Tally(domains, blockedDomains, clients, blockedClients, types),
                w.truncated || b.domainsTruncated || b.clientsTruncated || b.typesTruncated);
  }

  lemma GathersNone(w: Window, log: seq<Observation>, config: Config)
    requires w == Window(0, 0, Tally(map[], map[], map[], map[], map[]), false)
    ensures Gathers(w, log, {}, config)
  {
    WithinNone(log);
    forall kind: Kind ensures Merges(w.tally.Of(kind), kind, false, log, {}, config) {
      MergesNone(kind, log, config);
    }
  }

  lemma GathersStep(w: Window, b: Bucket, r: Window, log: seq<Observation>, starts: set<int>, s: int, config: Config)
    requires Gathers(w, log, starts, config) && s !in starts && Summarizes(b, Within(log, {s}), config)
    requires r.queries == w.queries + b.queries && r.blocked == w.blocked + b.blocked
    requires forall kind: Kind :: r.tally.Of(kind) == Merged(w.tally.Of(kind), b.tally.Of(kind))
    requires r.truncated == (w.truncated || b.Truncated())
    ensures Gathers(r, log, starts + {s}, config)
  {
    WithinLength(log, starts, s);
    StreamLength(BlockedDomains, log, starts, s);
    forall kind: Kind ensures Merges(r.tally.Of(kind), kind, r.truncated, log, starts + {s}, config) {
      MergesStep(w.tally.Of(kind), kind, w.truncated, b, log, starts, s, config);
    }
  }

  /** The buckets that a window selects. */
  ghost function Selected(buckets: map<int, Bucket>, now: int, duration: int): set<int> {
    set s | s in buckets && InWindow(s, now, duration)
  }

  /** One of some buckets has lost counts. */
  ghost predicate AnyTruncated(buckets: map<int, Bucket>, starts: set<int>) {
    exists s :: s in starts && s in buckets && buckets[s].Truncated()
  }

  lemma TruncatedNext(buckets: map<int, Bucket>, starts: set<int>, s: int)
    requires s in buckets
    ensures AnyTruncated(buckets, starts + {s}) <==> AnyTruncated(buckets, starts) || buckets[s].Truncated()
  {
    if buckets[s].Truncated() {
      assert s in starts + {s};
    }
    if t :| t in starts && t in buckets && buckets[t].Truncated() {
      assert t in starts + {s};
    }
  }

  /** The merging loop of `Snapshot`. */
  method Gather(
    buckets: map<int, Bucket>, now: int, duration: int, ghost log: seq<Observation>, config: Config)
    returns (w: Window)
    requires WellFiled(buckets, now, config)
    ensures (forall s :: s in buckets ==> Summarizes(buckets[s], Within(log, {s}), config)) ==>
              Gathers(w, log, Selected(buckets, now, duration), config)
    ensures w.truncated <==> AnyTruncated(buckets, Selected(buckets, now, duration))
  {
    w := Window(0, 0, Tally(map[], map[], map[], map[], map[]), false);
    GathersNone(w, log, config);
    ghost var faithful := forall s :: s in buckets ==> Summarizes(buckets[s], Within(log, {s}), config);
    var pending := buckets.Keys;
    ghost var starts := {};
    while pending != {}
      invariant pending <= buckets.Keys
      invariant forall s :: s in starts <==> s in buckets && s !in pending && InWindow(s, now, duration)
      invariant faithful ==> Gathers(w, log, starts, config)
      invariant w.truncated <==> AnyTruncated(buckets, starts)
      decreases |pending|
    {
      Inhabited(pending);
      var key :| key in pending;
      pending := pending - {key};
      var bucket := buckets[key];
      if !(bucket.start + BUCKET_WIDTH > now - duration) || bucket.start > now {
        continue;
      }
      var merged := MergeBucket(w, bucket);
      if faithful {
        GathersStep(w, bucket, merged, log, starts, key, config);
      }
      TruncatedNext(buckets, starts, key);
      w := merged;
      starts := starts + {key};
    }
    assert forall s :: s in starts <==> s in buckets && InWindow(s, now, duration);
    SameElements(starts, Selected(buckets, now, duration));
  }

  /** The lists of a snapshot, from the merged window. */
  method Summarize(w: Window, limit: nat, recent: seq<Observation>) returns (r: Snapshot)
    ensures RanksOf(r, w.tally, limit)
    ensures r.queries == w.queries && r.blocked == w.blocked && r.truncated == w.truncated && r.recent == recent
  {
    var topDomains := Rank(w.tally.domains, w.tally.blockedDomains, limit);
    var topBlocked := Rank(w.tally.blockedDomains, w.tally.blockedDomains, limit);
    var topClients := Rank(w.tally.clients, w.tally.blockedClients, limit);
    var types := Rank(w.tally.types, map[], limit);
    r := Snapshot(w.queries, w.blocked, |w.tally.domains|, |w.tally.clients|, w.truncated,
                  topDomains, topBlocked, topClients, types, recent);
  }

  /** The error of a snapshot: for each kind of counter, the sum over the selected
      buckets of N / (limit + 1). */
  ghost function SnapshotError(log: seq<Observation>, starts: set<int>, config: Config): Kind -> nat {
    kind => Shortfall(kind, log, starts, config)
  }

  /** A snapshot tells the truth about the observations of its window: counts are
      right up to the Misra-Gries error of the selected buckets, and exact unless it
      says it is truncated. */
  ghost predicate Truthful(
    r: Snapshot, log: seq<Observation>, buckets: map<int, Bucket>, now: int, duration: int, limit: nat,
    config: Config)
    requires limit > 0
  {
    var window := WindowLog(log, now, duration, config.retention);
    && Describes(r, window, limit, SnapshotError(log, Selected(buckets, now, duration), config))
    && (!r.truncated ==> Describes(r, window, limit, NoError()))
  }

  ghost function NoError(): Kind -> nat {
    (kind: Kind) => 0
  }

  /** The windowed snapshot bound. */
  lemma SnapshotBound(
    r: Snapshot, w: Window, log: seq<Observation>, buckets: map<int, Bucket>, now: int, duration: int, limit: nat,
    config: Config)
    requires limit > 0 && RanksOf(r, w.tally, limit)
    requires r.queries == w.queries && r.blocked == w.blocked && r.truncated == w.truncated
    requires Gathers(w, log, Selected(buckets, now, duration), config)
    requires Within(log, Selected(buckets, now, duration)) == WindowLog(log, now, duration, config.retention)
    ensures Truthful(r, log, buckets, now, duration, limit, config)
  {
    var starts := Selected(buckets, now, duration);
    RanksDescribe(r, w.tally, Within(log, starts), limit, SnapshotError(log, starts, config));
    if !r.truncated {
      RanksDescribe(r, w.tally, Within(log, starts), limit, NoError());
    }
  }

  /** A snapshot of pruned buckets. */
  method WindowSnapshot(
    buckets: map<int, Bucket>, now: int, duration: int, limit: nat, recent: seq<Observation>, config: Config,
    ghost log: seq<Observation>)
    returns (r: Snapshot)
    requires limit > 0 && WellFiled(buckets, now, config) && buckets == Pruned(buckets, now, config.retention)
    ensures FaithfulTo(buckets, log, now, config) ==> Truthful(r, log, buckets, now, duration, limit, config)
    ensures r.truncated <==> AnyTruncated(buckets, Selected(buckets, now, duration))
    ensures r.recent == recent
  {
    var window := Gather(buckets, now, duration, log, config);
    r := Summarize(window, limit, recent);
    if FaithfulTo(buckets, log, now, config) {
      SelectedWindow(buckets, log, now, duration, config);
      SnapshotBound(r, window, log, buckets, now, duration, limit, config);
    }
  }

  /** A faithful set of buckets selects exactly the observations of the window. */
  lemma SelectedWindow(buckets: map<int, Bucket>, log: seq<Observation>, now: int, duration: int, config: Config)
    requires WellFiled(buckets, now, config) && FaithfulTo(buckets, log, now, config)
    requires buckets == Pruned(buckets, now, config.retention)
    ensures Within(log, Selected(buckets, now, duration)) == WindowLog(log, now, duration, config.retention)
    ensures forall s :: s in buckets ==> Summarizes(buckets[s], Within(log, {s}), config)
  {
    var starts := Selected(buckets, now, duration);
    assert forall s :: s in buckets ==> Live(s, now, config.retention);
    forall o | o in log
      ensures Truncate(o.time) in starts <==>
              Live(Truncate(o.time), now, config.retention) && InWindow(Truncate(o.time), now, duration)
    {
    }
    WindowLogWithin(log, starts, now, duration, config.retention);
  }

  /** Everything a snapshot promises about the observations `log` of its window,
      when the counters of a kind may miss at most `e(kind)` of them. */
  ghost predicate Describes(r: Snapshot, log: seq<Observation>, limit: nat, e: Kind -> nat)
    requires limit > 0
  {
    && r.queries == |log|
    && r.blocked == BlockedCount(log)
    && Reports(r.topDomains, Domains, log, limit, e(Domains))
    && Reports(r.topBlockedDomains, BlockedDomains, log, limit, e(BlockedDomains))
    && Reports(r.topClients, Clients, log, limit, e(Clients))
    && Reports(r.queryTypes, Types, log, limit, e(Types))
    && BlockedShown(r.topDomains, BlockedDomains, log, e(BlockedDomains))
    && BlockedShown(r.topBlockedDomains, BlockedDomains, log, e(BlockedDomains))
    && BlockedShown(r.topClients, BlockedClients, log, e(BlockedClients))
    && r.trackedDomains <= |Distinct(Domains, log)|
    && r.trackedClients <= |Distinct(Clients, log)|
    && (e(Domains) == 0 ==> r.trackedDomains == |Distinct(Domains, log)|)
    && (e(Clients) == 0 ==> r.trackedClients == |Distinct(Clients, log)|)
  }

  ghost predicate BlockedShown(items: seq<Item>, kind: Kind, log: seq<Observation>, e: nat) {
    forall i :: 0 <= i < |items| ==> items[i].blocked <= TrueCount(kind, log, items[i].name) <= items[i].blocked + e
  }

  lemma RankedBlocked(
    items: seq<Item>, counts: Counts, blocked: Counts, limit: nat, kind: Kind, log: seq<Observation>, e: nat)
    requires IsRanking(counts, blocked, limit, items) && Approximates(blocked, kind, log, e)
    ensures BlockedShown(items, kind, log, e)
  {
    forall i | 0 <= i < |items|
      ensures items[i].blocked <= TrueCount(kind, log, items[i].name) <= items[i].blocked + e
    {
      assert items[i].blocked == Count(blocked, items[i].name);
    }
  }

  /** The ranked lists of a snapshot were made from these counters. */
  ghost predicate RanksOf(r: Snapshot, t: Tally, limit: nat) {
    && IsRanking(t.domains, t.blockedDomains, limit, r.topDomains)
    && IsRanking(t.blockedDomains, t.blockedDomains, limit, r.topBlockedDomains)
    && IsRanking(t.clients, t.blockedClients, limit, r.topClients)
    && IsRanking(t.types, map[], limit, r.queryTypes)
    && r.trackedDomains == |t.domains|
    && r.trackedClients == |t.clients|
  }

  lemma RanksDescribe(r: Snapshot, t: Tally, log: seq<Observation>, limit: nat, e: Kind -> nat)
    requires limit > 0 && RanksOf(r, t, limit)
    requires r.queries == |log| && r.blocked == BlockedCount(log)
    requires forall kind: Kind :: Positive(t.Of(kind)) && Approximates(t.Of(kind), kind, log, e(kind))
    ensures Describes(r, log, limit, e)
  {
    assert t.Of(Domains) == t.domains && t.Of(BlockedDomains) == t.blockedDomains;
    assert t.Of(Clients) == t.clients && t.Of(BlockedClients) == t.blockedClients && t.Of(Types) == t.types;
    RankingReports(r.topDomains, t.domains, t.blockedDomains, Domains, log, limit, e(Domains));
    RankingReports(r.topBlockedDomains, t.blockedDomains, t.blockedDomains, BlockedDomains, log, limit,
        e(BlockedDomains));
    RankingReports(r.topClients, t.clients, t.blockedClients, Clients, log, limit, e(Clients));
    RankingReports(r.queryTypes, t.types, map[], Types, log, limit, e(Types));
    RankedBlocked(r.topDomains, t.domains, t.blockedDomains, limit, BlockedDomains, log, e(BlockedDomains));
    RankedBlocked(r.topBlockedDomains, t.blockedDomains, t.blockedDomains, limit, BlockedDomains, log,
        e(BlockedDomains));
    RankedBlocked(r.topClients, t.clients, t.blockedClients, limit, BlockedClients, log, e(BlockedClients));
    CountedNames(t.domains, Domains, log, e(Domains));
    CountedNames(t.clients, Clients, log, e(Clients));
  }

  /** The events of the window, newest first. */
  function NewestFirst(events: seq<Observation>, start: int, now: int): seq<Observation> {
    if events == [] then []
    else
      var last := events[|events| - 1];
      (if start < last.time <= now then [last] else []) + NewestFirst(events[..|events| - 1], start, now)
  }

  function First<T>(s: seq<T>, n: nat): seq<T> {
    if |s| <= n then s else s[..n]
  }

  lemma NewestStep(events: seq<Observation>, n: nat, start: int, now: int, r: seq<Observation>)
    requires n < |events|
    ensures r + NewestFirst(events[..n + 1], start, now) ==
            (if start < events[n].time <= now then r + [events[n]] else r) + NewestFirst(events[..n], start, now)
  {
    assert events[..n + 1][..n] == events[..n];
  }

  lemma FirstOf(r: seq<Observation>, rest: seq<Observation>, limit: nat)
    requires |r| == limit || (|r| < limit && rest == [])
    ensures First(r + rest, limit) == r
  {
  }

  method RecentInWindow(events: seq<Observation>, start: int, now: int, limit: nat) returns (r: seq<Observation>)
    ensures r == First(NewestFirst(events, start, now), limit)
  {
    r := [];
    var index := |events|;
    assert events[..index] == events;
    ghost var all := NewestFirst(events, start, now);
    assert all == r + all;
    while index > 0 && |r| < limit
      invariant 0 <= index <= |events| && |r| <= limit
      invariant all == r + NewestFirst(events[..index], start, now)
    {
      index := index - 1;
      NewestStep(events, index, start, now, r);
      if events[index].time > start && events[index].time <= now {
        r := r + [events[index]];
      }
    }
    FirstOf(r, NewestFirst(events[..index], start, now), limit);
  }
}
