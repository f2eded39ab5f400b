/** Time buckets of the query analytics and what they say about the
    observations that went into them. */
module Buckets {
  import opened HeavyHitters

  /** Five minutes, in nanoseconds. */
  const BUCKET_WIDTH: int := 300_000_000_000
  const HOUR: int := 12 * BUCKET_WIDTH
  const TYPE_LIMIT: nat := 64
  const LOADED_TYPE_LIMIT: nat := 256

  datatype Mode = Aggregate | Statistics | Detailed

  datatype Config = Config(mode: Mode, retention: int, maxDomains: nat, maxClients: nat, recentQueries: nat)

  /** Times count nanoseconds from Go's zero time. */
  datatype Observation = Observation(
    time: int, domain: string, client: string, rrtype: string, protocol: string, blocked: bool)

  /** The counter maps of a bucket, and of a snapshot being merged. */
  datatype Tally = Tally(
    domains: Counts, blockedDomains: Counts, clients: Counts, blockedClients: Counts, types: Counts)
  {
    function Of(kind: Kind): Counts {
      match kind
      case Domains => domains
      case BlockedDomains => blockedDomains
      case Clients => clients
      case BlockedClients => blockedClients
      case Types => types
    }
  }

  datatype Kind = Domains | BlockedDomains | Clients | BlockedClients | Types

  datatype Bucket = Bucket(
    start: int, queries: nat, blocked: nat, tally: Tally,
    domainsTruncated: bool, clientsTruncated: bool, typesTruncated: bool)
  {
    predicate Truncated() {
      domainsTruncated || clientsTruncated || typesTruncated
    }
  }

  function Truncate(time: int): int {
    time - time % BUCKET_WIDTH
  }

  function Limit(kind: Kind, config: Config): nat {
    match kind
    case Domains | BlockedDomains => config.maxDomains
    case Clients | BlockedClients => config.maxClients
    case Types => TYPE_LIMIT
  }

  /** Whether an observation adds to a counter map, and under which key. */
  predicate Feeds(kind: Kind, o: Observation) {
    (kind.BlockedDomains? || kind.BlockedClients?) ==> o.blocked
  }

  function Key(kind: Kind, o: Observation): string {
    match kind
    case Domains | BlockedDomains => o.domain
    case Clients | BlockedClients => o.client
    case Types => o.rrtype
  }

  function Stream(kind: Kind, log: seq<Observation>): seq<string> {
    if log == [] then []
    else
      var before, last := Stream(kind, log[..|log| - 1]), log[|log| - 1];
      if Feeds(kind, last) then before + [Key(kind, last)] else before
  }

  function BlockedCount(log: seq<Observation>): nat {
    |Stream(BlockedDomains, log)|
  }

  ghost function TrueCount(kind: Kind, log: seq<Observation>, x: string): nat {
    multiset(Stream(kind, log))[x]
  }

  ghost predicate Lossy(kind: Kind, log: seq<Observation>, config: Config) {
    Overflowed(Stream(kind, log), Limit(kind, config)) > 0
  }

  /** The bucket holds what counting the observations of a log must produce. */
  ghost predicate Summarizes(b: Bucket, log: seq<Observation>, config: Config) {
    && b.queries == |log|
    && b.blocked == BlockedCount(log)
    && (forall kind: Kind :: b.tally.Of(kind) == Sketch(Stream(kind, log), Limit(kind, config)))
    && (b.domainsTruncated <==> Lossy(Domains, log, config) || Lossy(BlockedDomains, log, config))
    && (b.clientsTruncated <==> Lossy(Clients, log, config) || Lossy(BlockedClients, log, config))
    && (b.typesTruncated <==> Lossy(Types, log, config))
  }

  function EmptyBucket(start: int): Bucket {
    Bucket(start, 0, 0, Tally(map[], map[], map[], map[], map[]), false, false, false)
  }

  /** One counter map after an observation. */
  function Step(kind: Kind, tally: Tally, o: Observation, config: Config): Counts {
    if Feeds(kind, o) then Incremented(tally.Of(kind), Key(kind, o), Limit(kind, config)) else tally.Of(kind)
  }

  predicate Loses(kind: Kind, tally: Tally, o: Observation, config: Config) {
    Feeds(kind, o) && Overflows(tally.Of(kind), Key(kind, o), Limit(kind, config))
  }

  /** The counters that every observation feeds. */
  function WithQuery(b: Bucket, o: Observation, config: Config): Bucket {
    var t := b.tally;
    Bucket(b.start, b.queries + 1, b.blocked,
           Tally(Step(Domains, t, o, config), t.blockedDomains, Step(Clients, t, o, config), t.blockedClients,
               Step(Types, t, o, config)),
           Loses(Domains, t, o, config) || b.domainsTruncated,
           Loses(Clients, t, o, config) || b.clientsTruncated,
           Loses(Types, t, o, config) || b.typesTruncated)
  }

  /** The counters that only a blocked observation feeds. */
  function WithBlocked(b: Bucket, o: Observation, config: Config): Bucket {
    var t := b.tally;
    Bucket(b.start, b.queries, b.blocked + 1,
           Tally(t.domains, Step(BlockedDomains, t, o, config), t.clients, Step(BlockedClients, t, o, config), t.types),
           Loses(BlockedDomains, t, o, config) || b.domainsTruncated,
           Loses(BlockedClients, t, o, config) || b.clientsTruncated,
           b.typesTruncated)
  }

  /** A bucket after one more observation. */
  function Added(b: Bucket, o: Observation, config: Config): Bucket {
    var r := WithQuery(b, o, config);
    if o.blocked then WithBlocked(r, o, config) else r
  }

  /** One call of `incrementBounded` for a kind that the observation feeds. */
  method CountKind(kind: Kind, t: Tally, o: Observation, config: Config) returns (counts: Counts, lost: bool)
    requires Feeds(kind, o)
    ensures counts == Step(kind, t, o, config) && lost == Loses(kind, t, o, config)
  {
    counts, lost := IncrementBounded(t.Of(kind), Key(kind, o), Limit(kind, config));
  }

  method CountQuery(b: Bucket, o: Observation, config: Config) returns (r: Bucket)
    ensures r == WithQuery(b, o, config)
  {
    var t := b.tally;
    var domains, lostDomain := CountKind(Domains, t, o, config);
    var clients, lostClient := CountKind(Clients, t, o, config);
    var types, lostType := CountKind(Types, t, o, config);
    r := Bucket(b.start, b.queries + 1, b.blocked, Tally(domains, t.blockedDomains, clients, t.blockedClients, types),
                lostDomain || b.domainsTruncated, lostClient || b.clientsTruncated, lostType || b.typesTruncated);
  }

  method CountBlocked(b: Bucket, o: Observation, config: Config) returns (r: Bucket)
    requires o.blocked
    ensures r == WithBlocked(b, o, config)
  {
    var t := b.tally;
    var domains, lostDomain := CountKind(BlockedDomains, t, o, config);
    var clients, lostClient := CountKind(BlockedClients, t, o, config);
    r := Bucket(b.start, b.queries, b.blocked + 1, Tally(t.domains, domains, t.clients, clients, t.types),
                lostDomain || b.domainsTruncated, lostClient || b.clientsTruncated, b.typesTruncated);
  }

  lemma StreamStep(kind: Kind, log: seq<Observation>, o: Observation, config: Config)
    ensures Sketch(Stream(kind, log + [o]), Limit(kind, config)) ==
            (if Feeds(kind, o)
             then Incremented(Sketch(Stream(kind, log), Limit(kind, config)), Key(kind, o), Limit(kind, config))
             else Sketch(Stream(kind, log), Limit(kind, config)))
    ensures |Stream(kind, log + [o])| == |Stream(kind, log)| + if Feeds(kind, o) then 1 else 0
    ensures Lossy(kind, log + [o], config) <==>
            || Lossy(kind, log, config)
            || (Feeds(kind, o)
                && Overflows(Sketch(Stream(kind, log), Limit(kind, config)), Key(kind, o), Limit(kind, config)))
  {
    assert (log + [o])[..|log|] == log;
    var s, t := Stream(kind, log), Stream(kind, log + [o]);
    if Feeds(kind, o) {
      assert t[..|s|] == s && t[|s|] == Key(kind, o) && |t| == |s| + 1;
    }
  }

  lemma EmptySummary(start: int, config: Config)
    ensures Summarizes(EmptyBucket(start), [], config)
  {
  }

  lemma AddedTally(b: Bucket, o: Observation, config: Config, kind: Kind)
    ensures Added(b, o, config).tally.Of(kind) == Step(kind, b.tally, o, config)
  {
  }

  /** Counting observations one at a time produces the summary of the whole log. */
  lemma SummaryStep(b: Bucket, log: seq<Observation>, o: Observation, config: Config)
    requires Summarizes(b, log, config)
    ensures Summarizes(Added(b, o, config), log + [o], config)
  {
    var r := Added(b, o, config);
    forall kind: Kind
      ensures r.tally.Of(kind) == Sketch(Stream(kind, log + [o]), Limit(kind, config))
    {
      AddedTally(b, o, config, kind);
      StreamStep(kind, log, o, config);
    }
    SummaryFlags(b, log, o, config);
    StreamStep(BlockedDomains, log, o, config);
  }

  lemma SummaryFlags(b: Bucket, log: seq<Observation>, o: Observation, config: Config)
    requires Summarizes(b, log, config)
    ensures Added(b, o, config).domainsTruncated <==>
            Lossy(Domains, log + [o], config) || Lossy(BlockedDomains, log + [o], config)
    ensures Added(b, o, config).clientsTruncated <==>
            Lossy(Clients, log + [o], config) || Lossy(BlockedClients, log + [o], config)
    ensures Added(b, o, config).typesTruncated <==> Lossy(Types, log + [o], config)
  {
    StreamStep(Domains, log, o, config);
    StreamStep(BlockedDomains, log, o, config);
    StreamStep(Clients, log, o, config);
    StreamStep(BlockedClients, log, o, config);
    StreamStep(Types, log, o, config);
  }
}
