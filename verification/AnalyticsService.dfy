/** The analytics service object: its fields, and the methods that change them. */
module AnalyticsService {
  import opened Buckets
  import opened Windows
  import opened Sets
  import opened Options
  import opened QueryAnalytics
  import opened SnapshotMeaning
  import opened AnalyticsState
  import Ring
  import Text

  /** In detailed mode the recent list shows the last events of the window, of those that
      the ring holds; otherwise it is empty. */
  ghost predicate RecentIs(
    shown: seq<Observation>, config: Config, added: seq<Observation>, duration: int, limit: nat, now: int)
  {
    if config.mode == Detailed
    then ShowsRecent(shown, Ring.Last(added, config.recentQueries), now - duration, now, limit)
    else shown == []
  }

  class Analytics {
    const config: Config
    var buckets: map<int, Bucket>
    var recent: seq<Observation>
    var recentNext: nat
    /** The latest time the service has read from its clock. */
    ghost var clock: int
    /** Every observation it has accepted. */
    ghost var history: seq<Observation>
    /** Every event put in the ring since it was last emptied. */
    ghost var added: seq<Observation>

    ghost predicate Valid()
      reads this
    {
      && ValidConfig(config)
      && WellFiled(buckets, clock, config)
      && RingValid()
    }

    ghost predicate RingValid()
      reads this
    {
      config.recentQueries > 0 && Ring.Holds(recent, recentNext, config.recentQueries, added)
    }

    /** The buckets agree with the history of observations. */
    ghost predicate Faithful()
      reads this
    {
      FaithfulTo(buckets, history, clock, config)
    }

    constructor (config: Config)
      requires ValidConfig(config) && WithinBudget(config)
      ensures Valid() && Faithful() && this.config == config
      ensures buckets == map[] && history == [] && added == [] && clock == 0
    {
      this.config := config;
      buckets, recent, recentNext := map[], [], 0;
      clock, history, added := 0, [], [];
    }

    predicate Enabled() {
      config.mode != Aggregate
    }

    method Prune(now: int)
      requires Valid() && clock <= now
      modifies this`buckets, this`clock
      ensures Valid() && clock == now
      ensures old(Faithful()) ==> Faithful()
      ensures buckets == Pruned(old(buckets), now, config.retention)
      ensures |buckets| <= MaxBuckets(config)
    {
      PruneFaithful(buckets, history, clock, now, config);
      BucketBound(buckets, now, config);
      buckets := DropExpired(buckets, now, config.retention);
      clock := now;
    }

    method AddRecent(event: Observation)
      requires RingValid()
      modifies this`recent, this`recentNext, this`added
      ensures RingValid()
      ensures added == old(added) + [event]
    {
      if |recent| < config.recentQueries {
        Ring.Append(recent, recentNext, config.recentQueries, added, event);
        recent := recent + [event];
      } else {
        Ring.Overwrite(recent, recentNext, config.recentQueries, added, event);
        recent := recent[recentNext := event];
        recentNext := (recentNext + 1) % |recent|;
      }
      added := added + [event];
    }

    /** The ring in order is the tail of everything added to it. */
    method OrderedRecent() returns (ordered: seq<Observation>)
      requires RingValid()
      ensures ordered == Ring.Last(added, config.recentQueries)
    {
      if |recent| < config.recentQueries || recentNext == 0 {
        return recent;
      }
      ordered := recent[recentNext..];
      ordered := ordered + recent[..recentNext];
    }

    method Record(observation: Observation, now: int)
      requires Valid() && clock <= now
      modifies this
      ensures Valid() && clock == now
      ensures old(Faithful()) ==> Faithful()
      ensures !Enabled() || Normalize(observation, now, config.retention).None? ==>
                buckets == old(buckets) && history == old(history) && added == old(added)
      ensures Enabled() && Normalize(observation, now, config.retention).Some? ==>
                var o := Normalize(observation, now, config.retention).value;
                && history == old(history) + [o]
                && added == (if config.mode == Detailed then old(added) + [o] else old(added))
                && buckets == Counted(Pruned(old(buckets), now, config.retention), o, config)
                && |buckets| <= MaxBuckets(config) + 1
                && CountersWithin(buckets, MaxBuckets(config) + 1, config)
    {
      PruneFaithful(buckets, history, clock, now, config);
      var normalized := Normalize(observation, now, config.retention);
      if !Enabled() || normalized.None? {
        clock := now;
        return;
      }
      Prune(now);
      File(normalized.value);
      history := history + [normalized.value];
      if config.mode == Detailed {
        AddRecent(normalized.value);
      }
    }

    /** The part of `Record` that counts an observation in its bucket. */
    method File(o: Observation)
      requires Valid() && |buckets| <= MaxBuckets(config) && o.time <= clock + BUCKET_WIDTH
      modifies this`buckets
      ensures Valid()
      ensures old(Faithful()) ==> FaithfulTo(buckets, history + [o], clock, config)
      ensures buckets == Counted(old(buckets), o, config)
      ensures |buckets| <= MaxBuckets(config) + 1 && CountersWithin(buckets, MaxBuckets(config) + 1, config)
    {
      buckets := CountObservation(buckets, o, clock, config, history, MaxBuckets(config));
    }

    function RecentShown(duration: int, recentLimit: nat, now: int): seq<Observation>
      requires recentNext <= |recent|
      reads this
    {
      if config.mode == Detailed
      then First(NewestFirst(Ring.InOrder(recent, recentNext, config.recentQueries), now - duration, now), recentLimit)
      else []
    }

    method ShowRecent(duration: int, recentLimit: nat, now: int) returns (events: seq<Observation>)
      requires RingValid()
      ensures events == RecentShown(duration, recentLimit, now)
      ensures RecentIs(events, config, added, duration, recentLimit, now)
    {
      events := [];
      if config.mode == Detailed {
        var ordered := OrderedRecent();
        if recentLimit > 0 {
          events := RecentInWindow(ordered, now - duration, now, recentLimit);
        }
        RecentTells(events, ordered, now - duration, now, recentLimit);
      }
    }

    method SnapshotOf(duration: int, shown: nat, recentLimit: nat, now: int) returns (r: Snapshot)
      requires Valid() && clock <= now && shown > 0
      modifies this`buckets, this`clock
      ensures Valid() && clock == now && |buckets| <= MaxBuckets(config)
      ensures old(Faithful()) ==> Faithful() && Truthful(r, history, buckets, now, duration, shown, config)
      ensures old(Faithful()) ==> TellsWindow(r, history, now, duration, shown, config)
      ensures r.recent == RecentShown(duration, recentLimit, now)
      ensures RecentIs(r.recent, config, added, duration, recentLimit, now)
    {
      Prune(now);
      var events := ShowRecent(duration, recentLimit, now);
      r := WindowSnapshot(buckets, now, duration, shown, events, config, history);
      if old(Faithful()) {
        TruthfulTells(r, history, buckets, now, duration, shown, config);
      }
    }

    method TakeSnapshot(rangeName: string, limit: int, recentLimit: int, now: int) returns (r: Option<Snapshot>)
      requires Valid() && clock <= now
      modifies this`buckets, this`clock
      ensures Valid() && old(clock) <= clock <= now
      ensures old(Faithful()) ==> Faithful()
      ensures r.Some? <==> RangeDuration(rangeName).Some? && 0 <= limit <= 100 && 0 <= recentLimit <= 1000
      ensures r.Some? && !Enabled() ==> r.value == EmptySnapshot()
      ensures r.Some? && Enabled() ==>
                var duration := RangeDuration(rangeName).value;
                var shown := if limit == 0 then 10 else limit;
                && (old(Faithful()) ==>
                     && Truthful(r.value, history, buckets, now, duration, shown, config)
                     && TellsWindow(r.value, history, now, duration, shown, config))
                && r.value.recent == RecentShown(duration, recentLimit, now)
                && RecentIs(r.value.recent, config, added, duration, recentLimit, now)
    {
      var duration := RangeDuration(rangeName);
      if duration.None? || limit < 0 || limit > 100 || recentLimit < 0 || recentLimit > 1000 {
        return None;
      }
      if !Enabled() {
        return Some(EmptySnapshot());
      }
      var snapshot := SnapshotOf(duration.value, if limit == 0 then 10 else limit, recentLimit, now);
      r := Some(snapshot);
    }

    method Save(now: int) returns (state: Persisted)
      requires Valid() && clock <= now
      modifies this`buckets, this`clock
      ensures Valid() && clock == now
      ensures old(Faithful()) ==> Faithful()
      ensures buckets == Pruned(old(buckets), now, config.retention)
      ensures state.version == STATE_VERSION
      ensures Lists(state.buckets, buckets)
      ensures state.recent == Ring.Last(added, config.recentQueries)
    {
      Prune(now);
      var ordered := OrderedRecent();
      var list := ListBuckets(buckets);
      state := Persisted(STATE_VERSION, list, ordered);
    }

    /** The loop of `Load` over the persisted events, into an empty ring. */
    method LoadRecent(events: seq<Observation>, now: int)
      requires RingValid() && added == []
      modifies this`recent, this`recentNext, this`added
      ensures RingValid()
      ensures added == InRetention(events, now, config.retention)
    {
      for i := 0 to |events|
        invariant RingValid()
        invariant added == InRetention(events[..i], now, config.retention)
      {
        InRetentionStep(events, i, now, config.retention);
        if events[i].time > now - config.retention && events[i].time <= now {
          AddRecent(events[i]);
        }
      }
      assert events[..|events|] == events;
    }

    /** Replaces the state by a persisted one. `log` is the history that the
        persisted state stands for. */
    method Load(state: Persisted, now: int, ghost log: seq<Observation>) returns (ok: bool)
      requires Valid() && clock <= now
      modifies this
      ensures Valid() && clock == now
      ensures ok == (!Enabled() || state.version == STATE_VERSION)
      ensures !ok || !Enabled() ==> buckets == old(buckets) && added == old(added) && history == old(history)
      ensures ok && Enabled() ==>
                && history == log
                && TrimsOf(Loaded(state.buckets, now, config.retention), buckets, config)
                && added == (if config.mode == Detailed
                     then InRetention(Ring.Last(state.recent, config.recentQueries), now, config.retention) else [])
    {
      PruneFaithful(buckets, history, clock, now, config);
      clock := now;
      if !Enabled() {
        return true;
      }
      if state.version != STATE_VERSION {
        return false;
      }
      buckets := LoadBuckets(state.buckets, now, config);
      recent, recentNext, added := [], 0, [];
      history := log;
      if config.mode == Detailed {
        var first := 0;
        if |state.recent| > config.recentQueries {
          first := |state.recent| - config.recentQueries;
        }
        LoadRecent(state.recent[first..], now);
      }
      ok := true;
    }
  }

  /** Saving one service and loading the state into another with the same
      configuration at the same instant reproduces the buckets, with their counts
      and flags, and the recent events of the retention period in their order. */
  method Restart(a: Analytics, b: Analytics, now: int)
    requires a != b && a.Valid() && b.Valid() && a.config == b.config && a.Enabled()
    requires a.clock <= now && b.clock <= now && now > a.config.retention + BUCKET_WIDTH
    modifies a, b
    ensures a.Valid() && b.Valid() && b.buckets == a.buckets == Pruned(old(a.buckets), now, a.config.retention)
    ensures old(a.Faithful()) ==> b.Faithful() && b.history == old(a.history)
    ensures a.config.mode == Detailed ==>
              b.added == InRetention(Ring.Last(old(a.added), a.config.recentQueries), now, a.config.retention)
    ensures Ring.InOrder(b.recent, b.recentNext, b.config.recentQueries) == b.added
  {
    var state := a.Save(now);
    assert Pruned(a.buckets, now, a.config.retention) == a.buckets;
    LoadSaved(state.buckets, a.buckets, now, a.config);
    var ok := b.Load(state, now, a.history);
    TrimsWithinLimits(a.buckets, b.buckets, a.config);
    InRetentionSize(Ring.Last(state.recent, b.config.recentQueries), now, b.config.retention);
  }

  ghost predicate Filled(buckets: map<int, Bucket>, config: Config, now: int, n: nat) {
    && |buckets| == n
    && forall s :: s in buckets ==>
         buckets[s].start == s && Live(s, now, config.retention) && s > now + BUCKET_WIDTH - n * BUCKET_WIDTH
  }

  lemma FilledPruned(buckets: map<int, Bucket>, config: Config, now: int, n: nat)
    requires Filled(buckets, config, now, n)
    ensures Pruned(buckets, now, config.retention) == buckets
  {
    SameElements(Pruned(buckets, now, config.retention).Keys, buckets.Keys);
  }

  lemma FilledStep(buckets: map<int, Bucket>, config: Config, now: int, n: nat, o: Observation)
    requires Filled(buckets, config, now, n)
    requires o.time == now + BUCKET_WIDTH - n * BUCKET_WIDTH == Truncate(o.time) && Live(o.time, now, config.retention)
    ensures Filled(Counted(buckets, o, config), config, now, n + 1)
  {
  }

  method RecordSlot(a: Analytics, o: Observation, now: int, n: nat)
    requires a.Valid() && a.Faithful() && a.clock <= now && a.Enabled() && Filled(a.buckets, a.config, now, n)
    requires Normalize(o, now, a.config.retention) == Some(o)
    requires o.time == now + BUCKET_WIDTH - n * BUCKET_WIDTH == Truncate(o.time)
    requires Live(o.time, now, a.config.retention)
    modifies a
    ensures a.Valid() && a.Faithful() && a.clock == now && Filled(a.buckets, a.config, now, n + 1)
  {
    FilledPruned(a.buckets, a.config, now, n);
    FilledStep(a.buckets, a.config, now, n, o);
    a.Record(o, now);
  }

  /** The bound on the number of buckets is reached, for every configuration that
      keeps statistics, and it is more than the capacity check counts on. */
  method ReachBucketBound(config: Config) returns (a: Analytics)
    requires ValidConfig(config) && WithinBudget(config) && config.mode != Aggregate
    ensures fresh(a) && a.config == config && a.Valid() && a.Faithful()
    ensures a.buckets == Pruned(a.buckets, a.clock, config.retention)
    ensures |a.buckets| == MaxBuckets(config) > BudgetedBuckets(config)
  {
    a := new Analytics(config);
    var now := BUCKET_WIDTH * 1_000_000;
    var n := MaxBuckets(config);
    for i := 0 to n
      invariant fresh(a) && a.Valid() && a.Faithful() && a.config == config && a.clock == (if i == 0 then 0 else now)
      invariant Filled(a.buckets, config, now, i)
    {
      var o := SlotObservation(config, now, i);
      RecordSlot(a, o, now, i);
    }
    FilledPruned(a.buckets, config, now, n);
  }

  method SlotObservation(config: Config, now: int, i: nat) returns (o: Observation)
    requires ValidConfig(config) && now == BUCKET_WIDTH * 1_000_000 && i < MaxBuckets(config)
    ensures o.time == now + BUCKET_WIDTH - i * BUCKET_WIDTH == Truncate(o.time) && Live(o.time, now, config.retention)
    ensures Normalize(o, now, config.retention) == Some(o)
  {
    o := Observation(now + BUCKET_WIDTH - i * BUCKET_WIDTH, "a", "b", "A", "UDP", false);
    assert Text.TrimSpace("a") == "a" && Text.ToLower("a") == "a" && Text.TrimSuffix("a", ".") == "a";
    assert Text.TrimSpace("b") == "b" && Text.TrimSpace("A") == "A" && Text.TrimSpace("UDP") == "UDP";
  }
}
