/** What a snapshot tells, by the fields of the observations alone: how often a domain,
    a client or a type occurs, and which of the queries were blocked. */
module SnapshotMeaning {
  import opened Sets
  import opened HeavyHitters
  import opened Ranking
  import opened Buckets
  import opened Windows
  import opened QueryAnalytics
  import opened Options
  import Text

  /** How many observations of a log satisfy a condition. */
  ghost function Times(log: seq<Observation>, p: Observation -> bool): nat {
    if log == [] then 0 else Times(log[..|log| - 1], p) + if p(log[|log| - 1]) then 1 else 0
  }

  ghost function AnyOne(): Observation -> bool { (o: Observation) => true }

  ghost function Blocked(): Observation -> bool { (o: Observation) => o.blocked }

  ghost function OfDomain(x: string): Observation -> bool { (o: Observation) => o.domain == x }

  ghost function BlockedOfDomain(x: string): Observation -> bool { (o: Observation) => o.blocked && o.domain == x }

  ghost function OfClient(x: string): Observation -> bool { (o: Observation) => o.client == x }

  ghost function BlockedOfClient(x: string): Observation -> bool { (o: Observation) => o.blocked && o.client == x }

  ghost function OfType(x: string): Observation -> bool { (o: Observation) => o.rrtype == x }

  lemma {:induction false} TimesAll(log: seq<Observation>)
    ensures Times(log, AnyOne()) == |log|
  {
    if log != [] {
      TimesAll(log[..|log| - 1]);
    }
  }

  lemma {:induction false} TrueCountOf(kind: Kind, log: seq<Observation>, x: string, p: Observation -> bool)
    requires forall o :: p(o) <==> Feeds(kind, o) && Key(kind, o) == x
    ensures TrueCount(kind, log, x) == Times(log, p)
  {
    if log != [] {
      var before, last := log[..|log| - 1], log[|log| - 1];
      TrueCountOf(kind, before, x, p);
      assert log == before + [last];
      StreamAppend(kind, before, last);
    }
  }

  ghost function OfKind(kind: Kind, x: string): Observation -> bool {
    match kind
    case Domains => OfDomain(x)
    case BlockedDomains => BlockedOfDomain(x)
    case Clients => OfClient(x)
    case BlockedClients => BlockedOfClient(x)
    case Types => OfType(x)
  }

  lemma TrueCountAt(kind: Kind, log: seq<Observation>, x: string)
    ensures TrueCount(kind, log, x) == Times(log, OfKind(kind, x))
  {
    TrueCountOf(kind, log, x, OfKind(kind, x));
  }

  /** The true counts of a log, for each kind of counter. */
  lemma TrueCounts(log: seq<Observation>, x: string)
    ensures TrueCount(Domains, log, x) == Times(log, OfDomain(x))
    ensures TrueCount(BlockedDomains, log, x) == Times(log, BlockedOfDomain(x))
    ensures TrueCount(Clients, log, x) == Times(log, OfClient(x))
    ensures TrueCount(BlockedClients, log, x) == Times(log, BlockedOfClient(x))
    ensures TrueCount(Types, log, x) == Times(log, OfType(x))
  {
    TrueCountAt(Domains, log, x);
    TrueCountAt(BlockedDomains, log, x);
    TrueCountAt(Clients, log, x);
    TrueCountAt(BlockedClients, log, x);
    TrueCountAt(Types, log, x);
  }

  /** How many observations feed each kind of counter. */
  lemma {:induction false} StreamSizes(log: seq<Observation>)
    ensures |Stream(Domains, log)| == |Stream(Clients, log)| == |Stream(Types, log)| == |log|
    ensures |Stream(BlockedDomains, log)| == |Stream(BlockedClients, log)| == Times(log, Blocked())
  {
    if log != [] {
      StreamSizes(log[..|log| - 1]);
    }
  }

  ghost function DomainsIn(log: seq<Observation>): set<string> {
    set o | o in log :: o.domain
  }

  ghost function ClientsIn(log: seq<Observation>): set<string> {
    set o | o in log :: o.client
  }

  lemma {:induction false} NamesIn(log: seq<Observation>, x: string)
    ensures x in Stream(Domains, log) <==> x in DomainsIn(log)
    ensures x in Stream(Clients, log) <==> x in ClientsIn(log)
  {
    if log != [] {
      var before, last := log[..|log| - 1], log[|log| - 1];
      NamesIn(before, x);
      assert log == before + [last];
      assert x in DomainsIn(log) <==> x in DomainsIn(before) || x == last.domain;
      assert x in ClientsIn(log) <==> x in ClientsIn(before) || x == last.client;
    }
  }

  ghost function TypesIn(log: seq<Observation>): set<string> {
    set o | o in log :: o.rrtype
  }

  /** More names than the counters of a bucket have room for. */
  ghost predicate ManyNames(log: seq<Observation>, config: Config) {
    |DomainsIn(log)| > config.maxDomains || |ClientsIn(log)| > config.maxClients || |TypesIn(log)| > 64
  }

  lemma {:induction false} StreamNames(kind: Kind, log: seq<Observation>, x: string)
    requires x in Stream(kind, log)
    ensures match kind
            case Domains | BlockedDomains => x in DomainsIn(log)
            case Clients | BlockedClients => x in ClientsIn(log)
            case Types => x in TypesIn(log)
  {
    var before, last := log[..|log| - 1], log[|log| - 1];
    assert last in log && forall o :: o in before ==> o in log;
    if x in Stream(kind, before) {
      StreamNames(kind, before, x);
    }
  }

  lemma LossyMany(kind: Kind, log: seq<Observation>, config: Config)
    requires Lossy(kind, log, config)
    ensures ManyNames(log, config)
  {
    OverflowNeedsMany(Stream(kind, log), Limit(kind, config));
    var all := match kind case Domains | BlockedDomains => DomainsIn(log)
                          case Clients | BlockedClients => ClientsIn(log)
                          case Types => TypesIn(log);
    forall x | x in Names(Stream(kind, log)) ensures x in all {
      StreamNames(kind, log, x);
    }
    SubsetSize(Names(Stream(kind, log)), all);
  }

  lemma {:induction false} WithinPart(log: seq<Observation>, a: set<int>, b: set<int>, o: Observation)
    requires a <= b && o in Within(log, a)
    ensures o in Within(log, b)
  {
    var before := log[..|log| - 1];
    if o in Within(before, a) {
      WithinPart(before, a, b, o);
    }
  }

  lemma ManyMore(part: seq<Observation>, log: seq<Observation>, config: Config)
    requires ManyNames(part, config) && forall o :: o in part ==> o in log
    ensures ManyNames(log, config)
  {
    SubsetSize(DomainsIn(part), DomainsIn(log));
    SubsetSize(ClientsIn(part), ClientsIn(log));
    SubsetSize(TypesIn(part), TypesIn(log));
  }

  /** Only a window with many names is truncated. */
  lemma TruncatedMany(buckets: map<int, Bucket>, log: seq<Observation>, starts: set<int>, config: Config)
    requires forall s :: s in buckets ==> Summarizes(buckets[s], Within(log, {s}), config)
    requires AnyTruncated(buckets, starts)
    ensures ManyNames(Within(log, starts), config)
  {
    var s :| s in starts && s in buckets && buckets[s].Truncated();
    var part := Within(log, {s});
    var kind :| Lossy(kind, part, config);
    LossyMany(kind, part, config);
    forall o | o in part ensures o in Within(log, starts) {
      WithinPart(log, {s}, starts, o);
    }
    ManyMore(part, Within(log, starts), config);
  }

  lemma DistinctNames(log: seq<Observation>)
    ensures Distinct(Domains, log) == DomainsIn(log) && Distinct(Clients, log) == ClientsIn(log)
  {
    forall x ensures x in Distinct(Domains, log) <==> x in DomainsIn(log) {
      NamesIn(log, x);
    }
    forall x ensures x in Distinct(Clients, log) <==> x in ClientsIn(log) {
      NamesIn(log, x);
    }
  }

  /** A ranked list about names that really occurred `count` times: listed counts are at
      most `e` too low, and a name that is not listed occurred at most `e` more often than
      the last listed one. */
  ghost predicate ListTells(items: seq<Item>, count: string -> nat, limit: nat, e: nat)
    requires limit > 0
  {
    && |items| <= limit
    && (forall i, j {:trigger items[i], items[j]} :: 0 <= i < j < |items| ==>
          || items[i].queries > items[j].queries
          || (items[i].queries == items[j].queries && Text.Less(items[i].name, items[j].name)))
    && (forall i :: 0 <= i < |items| ==> items[i].queries <= count(items[i].name) <= items[i].queries + e)
    && (forall x :: (forall i :: 0 <= i < |items| ==> items[i].name != x) ==>
          count(x) <= e + if |items| < limit then 0 else items[limit - 1].queries)
  }

  /** The blocked counts beside the names. */
  ghost predicate BlockedTells(items: seq<Item>, count: string -> nat, e: nat) {
    forall i :: 0 <= i < |items| ==> items[i].blocked <= count(items[i].name) <= items[i].blocked + e
  }

  /** How much a snapshot may miss of each kind. */
  datatype Errors = Errors(domains: nat, blockedDomains: nat, clients: nat, blockedClients: nat, types: nat)

  /** A snapshot about the observations of a window. */
  ghost predicate Tells(r: Snapshot, log: seq<Observation>, limit: nat, e: Errors)
    requires limit > 0
  {
    && r.queries == |log|
    && r.blocked == Times(log, Blocked())
    && ListTells(r.topDomains, x => Times(log, OfDomain(x)), limit, e.domains)
    && BlockedTells(r.topDomains, x => Times(log, BlockedOfDomain(x)), e.blockedDomains)
    && ListTells(r.topBlockedDomains, x => Times(log, BlockedOfDomain(x)), limit, e.blockedDomains)
    && BlockedTells(r.topBlockedDomains, x => Times(log, BlockedOfDomain(x)), e.blockedDomains)
    && ListTells(r.topClients, x => Times(log, OfClient(x)), limit, e.clients)
    && BlockedTells(r.topClients, x => Times(log, BlockedOfClient(x)), e.blockedClients)
    && ListTells(r.queryTypes, x => Times(log, OfType(x)), limit, e.types)
    && r.trackedDomains <= |DomainsIn(log)| && (e.domains == 0 ==> r.trackedDomains == |DomainsIn(log)|)
    && r.trackedClients <= |ClientsIn(log)| && (e.clients == 0 ==> r.trackedClients == |ClientsIn(log)|)
  }

  lemma ReportsTell(
    items: seq<Item>, kind: Kind, log: seq<Observation>, limit: nat, e: nat, bound: nat, count: string -> nat)
    requires limit > 0 && e <= bound && Reports(items, kind, log, limit, e)
    requires forall x :: TrueCount(kind, log, x) == count(x)
    ensures ListTells(items, count, limit, bound)
  {
    forall x | forall i :: 0 <= i < |items| ==> items[i].name != x
      ensures count(x) <= bound + if |items| < limit then 0 else items[limit - 1].queries
    {
      assert !Listed(items, x);
      assert TrueCount(kind, log, x) == count(x);
    }
    forall i, j | 0 <= i < j < |items|
      ensures || items[i].queries > items[j].queries
              || (items[i].queries == items[j].queries && Text.Less(items[i].name, items[j].name))
    {
      assert Above(items[i], items[j]);
    }
  }

  lemma BlockedShownTells(
    items: seq<Item>, kind: Kind, log: seq<Observation>, e: nat, bound: nat, count: string -> nat)
    requires e <= bound && BlockedShown(items, kind, log, e)
    requires forall x :: TrueCount(kind, log, x) == count(x)
    ensures BlockedTells(items, count, bound)
  {
    forall i | 0 <= i < |items| ensures items[i].blocked <= count(items[i].name) <= items[i].blocked + bound {
      assert TrueCount(kind, log, items[i].name) == count(items[i].name);
    }
  }

  /** A description by kinds of counters says so by fields. */
  lemma DescribesTells(r: Snapshot, log: seq<Observation>, limit: nat, e: Kind -> nat, bound: Errors)
    requires limit > 0 && Describes(r, log, limit, e)
    requires e(Domains) <= bound.domains && e(BlockedDomains) <= bound.blockedDomains
    requires e(Clients) <= bound.clients && e(BlockedClients) <= bound.blockedClients && e(Types) <= bound.types
    ensures Tells(r, log, limit, bound)
  {
    forall x
      ensures TrueCount(Domains, log, x) == Times(log, OfDomain(x))
      ensures TrueCount(BlockedDomains, log, x) == Times(log, BlockedOfDomain(x))
      ensures TrueCount(Clients, log, x) == Times(log, OfClient(x))
      ensures TrueCount(BlockedClients, log, x) == Times(log, BlockedOfClient(x))
      ensures TrueCount(Types, log, x) == Times(log, OfType(x))
    {
      TrueCounts(log, x);
    }
    StreamSizes(log);
    ReportsTell(r.topDomains, Domains, log, limit, e(Domains), bound.domains, x => Times(log, OfDomain(x)));
    ReportsTell(r.topBlockedDomains, BlockedDomains, log, limit, e(BlockedDomains), bound.blockedDomains,
        x => Times(log, BlockedOfDomain(x)));
    ReportsTell(r.topClients, Clients, log, limit, e(Clients), bound.clients, x => Times(log, OfClient(x)));
    ReportsTell(r.queryTypes, Types, log, limit, e(Types), bound.types, x => Times(log, OfType(x)));
    BlockedShownTells(r.topDomains, BlockedDomains, log, e(BlockedDomains), bound.blockedDomains,
        x => Times(log, BlockedOfDomain(x)));
    BlockedShownTells(r.topBlockedDomains, BlockedDomains, log, e(BlockedDomains), bound.blockedDomains,
        x => Times(log, BlockedOfDomain(x)));
    BlockedShownTells(r.topClients, BlockedClients, log, e(BlockedClients), bound.blockedClients,
        x => Times(log, BlockedOfClient(x)));
    DistinctNames(log);
  }

  /** The errors of a window of observations: at most one in every limit + 1. */
  ghost function WindowErrors(log: seq<Observation>, config: Config): Errors {
    var n, b := |log|, Times(log, Blocked());
    Errors(Share(n, config.maxDomains), Share(b, config.maxDomains), Share(n, config.maxClients),
           Share(b, config.maxClients), Share(n, 64))
  }

  ghost function Share(n: nat, limit: nat): nat {
    n / (limit + 1)
  }

  const EXACT: Errors := Errors(0, 0, 0, 0, 0)

  /** What a snapshot tells about its window: of n queries it misses at most
      n / (limit + 1) of any name, and none if it does not say that it is truncated, as
      it never does unless the window has more names than fit. */
  ghost predicate TellsWindow(
    r: Snapshot, log: seq<Observation>, now: int, duration: int, limit: nat, config: Config)
    requires limit > 0
  {
    var window := WindowLog(log, now, duration, config.retention);
    && Tells(r, window, limit, if r.truncated then WindowErrors(window, config) else EXACT)
    && (r.truncated ==> ManyNames(window, config))
  }

  /** A truthful snapshot of pruned, faithful buckets, by fields. */
  lemma TruthfulTells(
    r: Snapshot, log: seq<Observation>, buckets: map<int, Bucket>, now: int, duration: int, limit: nat, config: Config)
    requires limit > 0 && Truthful(r, log, buckets, now, duration, limit, config)
    requires WellFiled(buckets, now, config) && FaithfulTo(buckets, log, now, config)
    requires buckets == Pruned(buckets, now, config.retention)
    requires r.truncated ==> AnyTruncated(buckets, Selected(buckets, now, duration))
    ensures TellsWindow(r, log, now, duration, limit, config)
  {
    var window, starts := WindowLog(log, now, duration, config.retention), Selected(buckets, now, duration);
    SelectedWindow(buckets, log, now, duration, config);
    if r.truncated {
      TruncatedMany(buckets, log, starts, config);
      ErrorsBounded(log, starts, config);
      DescribesTells(r, window, limit, SnapshotError(log, starts, config), WindowErrors(window, config));
    } else {
      DescribesTells(r, window, limit, NoError(), EXACT);
    }
  }

  lemma ErrorsBounded(log: seq<Observation>, starts: set<int>, config: Config)
    ensures var e, bound := SnapshotError(log, starts, config), WindowErrors(Within(log, starts), config);
            && e(Domains) <= bound.domains && e(BlockedDomains) <= bound.blockedDomains
            && e(Clients) <= bound.clients && e(BlockedClients) <= bound.blockedClients && e(Types) <= bound.types
  {
    var window := Within(log, starts);
    StreamSizes(window);
    ErrorBounded(Domains, log, starts, config, |window|, config.maxDomains);
    ErrorBounded(BlockedDomains, log, starts, config, Times(window, Blocked()), config.maxDomains);
    ErrorBounded(Clients, log, starts, config, |window|, config.maxClients);
    ErrorBounded(BlockedClients, log, starts, config, Times(window, Blocked()), config.maxClients);
    ErrorBounded(Types, log, starts, config, |window|, 64);
  }

  lemma ErrorBounded(kind: Kind, log: seq<Observation>, starts: set<int>, config: Config, n: nat, limit: nat)
    requires |Stream(kind, Within(log, starts))| == n && Limit(kind, config) == limit
    ensures SnapshotError(log, starts, config)(kind) <= Share(n, limit)
  {
    ShortfallBound(kind, log, starts, config);
  }

  // -------------------------------------------------------------- the window

  ghost function Both(p: Observation -> bool, q: Observation -> bool): Observation -> bool {
    (o: Observation) => p(o) && q(o)
  }

  /** Seen in the last `duration`. */
  ghost function Recently(now: int, duration: int): Observation -> bool {
    (o: Observation) => now - duration < o.time <= now
  }

  /** The same, give or take the width of a bucket. */
  ghost function Roughly(now: int, duration: int): Observation -> bool {
    (o: Observation) => now - duration - BUCKET_WIDTH < o.time < now + BUCKET_WIDTH
  }

  lemma BucketTime(time: int)
    ensures Truncate(time) <= time < Truncate(time) + BUCKET_WIDTH && Truncate(time) % BUCKET_WIDTH == 0
  {
    assert Truncate(time) == time / BUCKET_WIDTH * BUCKET_WIDTH;
  }

  /** Whether a window has an observation: certainly if it is recent, and only if it is
      roughly recent. */
  lemma BucketWindow(o: Observation, now: int, duration: int, retention: int)
    requires duration <= retention
    ensures var start := Truncate(o.time); var counted := Live(start, now, retention) && InWindow(start, now, duration);
            (Recently(now, duration)(o) ==> counted) && (counted ==> Roughly(now, duration)(o))
  {
    BucketTime(o.time);
  }

  lemma TimesNext(log: seq<Observation>, o: Observation, p: Observation -> bool)
    ensures Times(log + [o], p) == Times(log, p) + if p(o) then 1 else 0
  {
    assert (log + [o])[..|log|] == log;
  }

  /** A window within the retention holds every observation of the last `duration`, and
      none that is off by the width of a bucket or more. */
  lemma {:induction false} WindowBetween(
    log: seq<Observation>, now: int, duration: int, retention: int, p: Observation -> bool)
    requires duration <= retention
    ensures Times(log, Both(p, Recently(now, duration))) <= Times(WindowLog(log, now, duration, retention), p)
    ensures Times(WindowLog(log, now, duration, retention), p) <= Times(log, Both(p, Roughly(now, duration)))
  {
    if log != [] {
      var before, last := log[..|log| - 1], log[|log| - 1];
      WindowBetween(before, now, duration, retention, p);
      BucketWindow(last, now, duration, retention);
      TimesNext(WindowLog(before, now, duration, retention), last, p);
    }
  }

  // ------------------------------------------------------------ recent queries

  /** A list of recent queries shows events at these places: newest first, all in the
      window, at most `limit`, and none left out that is newer than the oldest shown. */
  ghost predicate RecentAt(
    shown: seq<Observation>, events: seq<Observation>, start: int, now: int, limit: nat, places: seq<nat>)
  {
    && |places| == |shown| <= limit
    && (forall i :: 0 <= i < |places| ==>
          places[i] < |events| && shown[i] == events[places[i]] && start < events[places[i]].time <= now)
    && (forall i, j :: 0 <= i < j < |places| ==> places[i] > places[j])
    && (forall p: nat :: p < |events| && start < events[p].time <= now ==>
          p in places || (|places| == limit && forall i :: 0 <= i < |places| ==> p < places[i]))
  }

  ghost predicate ShowsRecent(shown: seq<Observation>, events: seq<Observation>, start: int, now: int, limit: nat) {
    exists places :: RecentAt(shown, events, start, now, limit, places)
  }

  /** The places of the events of the window, newest first. */
  ghost function RecentPlaces(events: seq<Observation>, start: int, now: int): seq<nat> {
    if events == [] then []
    else
      var n := |events| - 1;
      (if start < events[n].time <= now then [n] else []) + RecentPlaces(events[..n], start, now)
  }

  lemma {:induction false} RecentMembers(events: seq<Observation>, start: int, now: int, p: nat)
    ensures p in RecentPlaces(events, start, now) <==> p < |events| && start < events[p].time <= now
  {
    if events != [] {
      var n := |events| - 1;
      RecentMembers(events[..n], start, now, p);
      assert p < n ==> events[..n][p] == events[p];
    }
  }

  lemma {:induction false} RecentEvents(events: seq<Observation>, start: int, now: int)
    ensures var places, shown := RecentPlaces(events, start, now), NewestFirst(events, start, now);
            && |places| == |shown|
            && (forall i :: 0 <= i < |places| ==> places[i] < |events| && shown[i] == events[places[i]])
            && (forall i, j :: 0 <= i < j < |places| ==> places[i] > places[j])
  {
    if events != [] {
      var n := |events| - 1;
      RecentEvents(events[..n], start, now);
      var rest := RecentPlaces(events[..n], start, now);
      forall i | 0 <= i < |rest| ensures rest[i] < n && events[..n][rest[i]] == events[rest[i]] {
      }
    }
  }

  /** The first of descending places are the largest. */
  lemma FirstLargest(places: seq<nat>, limit: nat, p: nat)
    requires p in places && forall i, j :: 0 <= i < j < |places| ==> places[i] > places[j]
    ensures var kept := First(places, limit);
            p in kept || (|kept| == limit && forall i :: 0 <= i < |kept| ==> p < kept[i])
  {
    var k :| 0 <= k < |places| && places[k] == p;
    if k < |First(places, limit)| {
      assert First(places, limit)[k] == p;
    }
  }

  /** A list with its places, cut at the limit. */
  lemma FirstShown(
    all: seq<Observation>, places: seq<nat>, events: seq<Observation>, start: int, now: int, limit: nat)
    requires |places| == |all|
    requires forall i :: 0 <= i < |places| ==> places[i] < |events| && all[i] == events[places[i]]
    requires forall i, j :: 0 <= i < j < |places| ==> places[i] > places[j]
    requires forall p: nat :: p in places <==> p < |events| && start < events[p].time <= now
    ensures RecentAt(First(all, limit), events, start, now, limit, First(places, limit))
  {
    var kept := First(places, limit);
    forall i | 0 <= i < |kept|
      ensures kept[i] < |events| && First(all, limit)[i] == events[kept[i]] && start < events[kept[i]].time <= now
    {
      assert kept[i] == places[i] && places[i] in places;
    }
    forall p: nat | p < |events| && start < events[p].time <= now
      ensures p in kept || (|kept| == limit && forall i :: 0 <= i < |kept| ==> p < kept[i])
    {
      FirstLargest(places, limit, p);
    }
  }

  lemma RecentTells(shown: seq<Observation>, events: seq<Observation>, start: int, now: int, limit: nat)
    requires shown == First(NewestFirst(events, start, now), limit)
    ensures ShowsRecent(shown, events, start, now, limit)
  {
    var places := RecentPlaces(events, start, now);
    RecentEvents(events, start, now);
    forall p: nat ensures p in places <==> p < |events| && start < events[p].time <= now {
      RecentMembers(events, start, now, p);
    }
    FirstShown(NewestFirst(events, start, now), places, events, start, now, limit);
    assert RecentAt(shown, events, start, now, limit, First(places, limit));
  }

  /** An observation that is counted, by its fields. */
  lemma NormalizedFields(o: Observation, now: int, retention: int)
    ensures var time := if o.time == 0 then now else o.time;
            var domain := Text.ToLower(Text.TrimSuffix(Text.TrimSpace(o.domain), "."));
            match Normalize(o, now, retention)
            case None => time <= now - retention - BUCKET_WIDTH || time > now + BUCKET_WIDTH || domain == ""
            case Some(n) =>
              && now - retention - BUCKET_WIDTH < n.time == time <= now + BUCKET_WIDTH
              && n.domain == domain != "" && (forall i :: 0 <= i < |n.domain| ==> !('A' <= n.domain[i] <= 'Z'))
              && n.client == (if Text.TrimSpace(o.client) == "" then "unknown" else Text.TrimSpace(o.client))
              && n.rrtype == (if Text.TrimSpace(o.rrtype) == "" then "OTHER" else Text.TrimSpace(o.rrtype))
              && n.protocol == (if Text.TrimSpace(o.protocol) == "" then "UNKNOWN" else Text.TrimSpace(o.protocol))
              && n.blocked == o.blocked
  {
  }
}
