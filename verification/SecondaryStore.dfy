/** Replication of the zones of a zone store. */
module SecondaryStore {
  import opened Options
  import opened Bags
  import opened ZoneRecords
  import opened ZoneDisk
  import opened ZoneRuns
  import opened ZoneTraces
  import opened SecondaryTransfer
  import opened SecondaryRuns
  import opened ZoneChanges
  import ZoneStore

  function ToFront(rrs: seq<RR>, i: nat): seq<RR>
    requires i < |rrs|
  {
    [rrs[i]] + rrs[..i] + rrs[i + 1..]
  }

  /** A zone in transfer order: its SOA moves to the front. */
  ghost function InTransferOrder(rrs: seq<RR>): seq<RR> {
    match SoaIndex(rrs)
    case None => rrs
    case Some(i) => if i < |rrs| then ToFront(rrs, i) else rrs
  }

  /** The names in a zone file are absolute, so that canonicalization only folds case. */
  ghost predicate AbsoluteNames(lib: Library, rrs: seq<RR>) {
    forall rr :: rr in rrs ==> EqualFold(rr.name, lib.canonical(rr.name))
  }

  lemma ZoneTransfers(lib: Library, zone: string, rrs: seq<RR>)
    requires ValidZone(lib, zone, multiset(rrs)) && AbsoluteNames(lib, rrs)
    ensures Complete(zone, InTransferOrder(rrs))
    ensures multiset(InTransferOrder(rrs)) == multiset(rrs) && InTransferOrder(rrs)[0].serial == SerialOf(rrs)
  {
    var i := ValidHasSoa(lib, zone, rrs);
    FirstToFront(rrs, i);
    OneSoa(lib, zone, rrs, i);
    TransferNs(lib, zone, rrs, i);
    AloneInFront(rrs, i);
  }

  lemma FirstToFront(rrs: seq<RR>, i: nat)
    requires i < |rrs| && IsSoa(rrs[i]) && forall j :: 0 <= j < i ==> !IsSoa(rrs[j])
    ensures InTransferOrder(rrs) == ToFront(rrs, i)
    ensures multiset(ToFront(rrs, i)) == multiset(rrs) && ToFront(rrs, i)[0].serial == SerialOf(rrs)
  {
    FirstSoa(rrs, i);
    SameBag(rrs, i);
  }

  lemma {:induction false} FirstSoa(rrs: seq<RR>, i: nat)
    requires i < |rrs| && IsSoa(rrs[i]) && forall j :: 0 <= j < i ==> !IsSoa(rrs[j])
    ensures SoaIndex(rrs) == Some(i) && SerialOf(rrs) == rrs[i].serial
  {
    if i > 0 {
      FirstSoa(rrs[1..], i - 1);
    }
  }

  lemma SameBag(rrs: seq<RR>, i: nat)
    requires i < |rrs|
    ensures multiset(ToFront(rrs, i)) == multiset(rrs)
  {
    assert rrs == rrs[..i] + rrs[i..] && rrs[i..] == [rrs[i]] + rrs[i + 1..];
    assert multiset(rrs) == multiset(rrs[..i]) + multiset(rrs[i..]);
  }

  lemma AloneInFront(rrs: seq<RR>, i: nat)
    requires i < |rrs| && forall j :: 0 <= j < |rrs| && j != i ==> !IsSoa(rrs[j])
    ensures forall j :: 1 <= j < |ToFront(rrs, i)| ==> !IsSoa(ToFront(rrs, i)[j])
  {
    forall j | 1 <= j < |ToFront(rrs, i)| ensures !IsSoa(ToFront(rrs, i)[j]) {
      assert ToFront(rrs, i)[j] == rrs[if j <= i then j - 1 else j];
    }
  }

  lemma OneSoa(lib: Library, zone: string, rrs: seq<RR>, i: nat)
    requires ValidZone(lib, zone, multiset(rrs)) && i < |rrs| && IsSoa(rrs[i])
    ensures forall j :: 0 <= j < |rrs| && j != i ==> !IsSoa(rrs[j])
  {
    forall j | 0 <= j < |rrs| && j != i ensures !IsSoa(rrs[j]) {
      assert rrs[j] in multiset(rrs) && rrs[i] in multiset(rrs);
      OccursTwice(rrs, i, j);
    }
  }

  lemma TransferNs(lib: Library, zone: string, rrs: seq<RR>, i: nat)
    requires ValidZone(lib, zone, multiset(rrs)) && AbsoluteNames(lib, rrs) && i < |rrs| && IsSoa(rrs[i])
    ensures exists j :: 1 <= j < |ToFront(rrs, i)| && IsApexNs(zone, ToFront(rrs, i)[j])
    ensures EqualFold(rrs[i].name, zone)
  {
    assert rrs[i] in multiset(rrs);
    var ns :| ns in multiset(rrs) && ApexNs(lib, zone, ns);
    assert IsApexNs(zone, ns);
    MovedTo(rrs, i, ns);
  }

  lemma MovedTo(rrs: seq<RR>, i: nat, rr: RR)
    requires i < |rrs| && rr in rrs && rr != rrs[i]
    ensures exists j :: 1 <= j < |ToFront(rrs, i)| && ToFront(rrs, i)[j] == rr
  {
    var n :| 0 <= n < |rrs| && rrs[n] == rr;
    assert ToFront(rrs, i)[if n < i then n + 1 else n] == rr;
  }

  // ------------------------------------------------- what a store serves

  /** All states have the zone, under absolute names. */
  ghost predicate Serves(lib: Library, states: seq<Disk>, zone: string) {
    && AlwaysThere(states, zone)
    && forall k :: 0 <= k < |states| ==>
         states[k].zones[zone].Content? && AbsoluteNames(lib, states[k].zones[zone].rrs)
  }

  /** The versions of a zone over states of a store. */
  ghost function Versions(lib: Library, states: seq<Disk>, zone: string): (r: seq<seq<RR>>)
    requires Serves(lib, states, zone)
    ensures |r| == |states|
    ensures forall k :: 0 <= k < |r| ==> r[k] == InTransferOrder(states[k].zones[zone].rrs)
  {
    seq(|states|, k requires 0 <= k < |states| => InTransferOrder(states[k].zones[zone].rrs))
  }

  lemma VersionAt(lib: Library, states: seq<Disk>, zone: string, k: nat)
    requires Serves(lib, states, zone) && k < |states| && Sound(lib, states[k])
    ensures Complete(zone, Versions(lib, states, zone)[k])
    ensures Versions(lib, states, zone)[k][0].serial == Serial(states[k].zones[zone])
  {
    assert Loads(lib, states[k].zones[zone], zone);
    ZoneTransfers(lib, zone, states[k].zones[zone].rrs);
  }

  /** The versions that a store has on disk at any moment of a lifetime of the zone, at
      rest or inside an operation, are a history that replication is safe for exactly
      when no operation took a content back that had been on disk. */
  lemma StoreChronicle(lib: Library, start: Disk, ops: seq<Operation>, zone: string)
    requires Sound(lib, start) && Chained(lib, start, ops) && Serves(lib, Trace(start, ops), zone)
    ensures Chronicle(zone, Versions(lib, Trace(start, ops), zone)) <==> NoneTakenBack(ops, zone)
  {
    var trace := Trace(start, ops);
    var versions := Versions(lib, trace, zone);
    forall k | 0 <= k < |trace|
      ensures Complete(zone, versions[k]) && versions[k][0].serial == Serial(trace[k].zones[zone])
    {
      TraceSound(lib, start, ops, k);
      VersionAt(lib, trace, zone, k);
    }
    if NoneTakenBack(ops, zone) {
      TraceRises(lib, start, ops, zone);
      forall a, b | 0 <= a < b < |trace| ensures NotOlder(versions[a], versions[b]) {
        RisesOver(trace, zone, a, b);
      }
    } else {
      var k :| 0 <= k < |ops| && ops[k].event == TookBack(zone);
      var a, b := TraceFalls(lib, start, ops, zone, k);
      assert !NotOlder(versions[a], versions[b]);
    }
  }

  /** Between operations the versions are such a history in any case, through faults and
      crashes: a secondary that only ever meets the store at rest is safe. */
  lemma RestingChronicle(lib: Library, states: seq<Disk>, events: seq<Event>, zone: string)
    requires Run(lib, states, events) && Sound(lib, states[0]) && Serves(lib, states, zone)
    ensures Chronicle(zone, Versions(lib, states, zone))
  {
    var versions := Versions(lib, states, zone);
    forall k | 0 <= k < |states|
      ensures Complete(zone, versions[k]) && versions[k][0].serial == Serial(states[k].zones[zone])
    {
      RunSound(lib, states, events, k);
      VersionAt(lib, states, zone, k);
    }
    forall a, b | 0 <= a < b < |states| ensures NotOlder(versions[a], versions[b]) {
      SerialDecides(lib, states, events, zone, a, b);
    }
  }

  /** Within a lifetime the content changes only with the serial. */
  lemma {:induction false} SerialDecides(
    lib: Library, states: seq<Disk>, events: seq<Event>, zone: string, a: nat, b: nat)
    requires Run(lib, states, events) && a <= b < |states| && Lives(states, zone, a, b)
    ensures || states[b].zones[zone] == states[a].zones[zone]
            || Serial(states[a].zones[zone]) < Serial(states[b].zones[zone])
    decreases b - a
  {
    if a < b {
      SerialDecides(lib, states, events, zone, a, b - 1);
      assert Transition(lib, states[b - 1], states[b], events[b - 1]);
      assert ZoneEvolves(lib, states[b - 1], states[b], zone);
    }
  }

  // ----------------------------------------------------- when it is not safe

  /** A refresh in which nothing fails, answered and served from one version. */
  function PlainRefresh(versions: seq<seq<RR>>, at: nat): Refresh
    requires at < |versions| && versions[at] != []
  {
    Refresh(at, at, World(true, Answered(versions[at][0].serial), Some(Axfr(versions[at])), true, true, true))
  }

  lemma PlainRefreshes(zone: string, discover: bool, versions: seq<seq<RR>>, file: Option<Snapshot>, at: nat)
    requires at < |versions| && Complete(zone, versions[at])
    requires CurrentSerial(file, true) != versions[at][0].serial
    ensures Honest(zone, versions, PlainRefresh(versions, at))
    ensures FileAfter(zone, discover, file, PlainRefresh(versions, at).world) == Some(Snapshot(versions[at]))
    ensures versions[at][0].serial != 0 ==> ErrorAfter(zone, discover, file, PlainRefresh(versions, at).world).None?
  {
    AxfrAccepted(zone, versions[at]);
    CompleteInspected(zone, versions[at]);
    assert Axfr(versions[at])[..|versions[at]|] == versions[at];
  }

  /** Once a store took a content back, there is a run of replication, with every answer
      honest and in order, in which the file moves back to an older version; and if no
      serial is 0, not even an error is reported. */
  lemma TookBackUnsafe(lib: Library, start: Disk, ops: seq<Operation>, zone: string, discover: bool, k: nat)
    returns (refreshes: seq<Refresh>, files: seq<Option<Snapshot>>, newer: seq<RR>, older: seq<RR>)
    requires Sound(lib, start) && Chained(lib, start, ops) && Serves(lib, Trace(start, ops), zone)
    requires k < |ops| && ops[k].event == TookBack(zone)
    ensures Replication(zone, discover, Versions(lib, Trace(start, ops), zone), refreshes, files) && |refreshes| == 2
    ensures files == [None, Some(Snapshot(newer)), Some(Snapshot(older))]
    ensures newer != [] && older != [] && older[0].serial < newer[0].serial
    ensures older[0].serial != 0 ==>
              && ErrorAfter(zone, discover, files[0], refreshes[0].world).None?
              && ErrorAfter(zone, discover, files[1], refreshes[1].world).None?
  {
    var trace := Trace(start, ops);
    var versions := Versions(lib, trace, zone);
    var a, b := TraceFalls(lib, start, ops, zone, k);
    TraceSound(lib, start, ops, a);
    TraceSound(lib, start, ops, b);
    VersionAt(lib, trace, zone, a);
    VersionAt(lib, trace, zone, b);
    refreshes, files := FallUnsafe(zone, discover, versions, a, b);
    newer, older := versions[a], versions[b];
  }

  lemma FallUnsafe(zone: string, discover: bool, versions: seq<seq<RR>>, a: nat, b: nat)
    returns (refreshes: seq<Refresh>, files: seq<Option<Snapshot>>)
    requires a < b < |versions| && Complete(zone, versions[a]) && Complete(zone, versions[b])
    requires versions[a][0].serial > versions[b][0].serial
    ensures Replication(zone, discover, versions, refreshes, files) && |refreshes| == 2
    ensures files == [None, Some(Snapshot(versions[a])), Some(Snapshot(versions[b]))]
    ensures versions[b][0].serial != 0 ==>
              && ErrorAfter(zone, discover, files[0], refreshes[0].world).None?
              && ErrorAfter(zone, discover, files[1], refreshes[1].world).None?
  {
    refreshes := [PlainRefresh(versions, a), PlainRefresh(versions, b)];
    files := [None, Some(Snapshot(versions[a])), Some(Snapshot(versions[b]))];
    CompleteInspected(zone, versions[a]);
    PlainRefreshes(zone, discover, versions, None, a);
    PlainRefreshes(zone, discover, versions, files[1], b);
  }

  /** All contents that could be committed over a zone on one day have the same serial. */
  lemma SameDaySerial(lib: Library, current: Zone, rrs: seq<RR>, rrs': seq<RR>, today: Date)
    requires NextSerial(current.serial, today).Some?
    requires ValidZone(lib, current.name, multiset(rrs)) && ValidZone(lib, current.name, multiset(rrs'))
    ensures var c := ZoneStore.NextContent(lib, current, rrs, today);
            var c' := ZoneStore.NextContent(lib, current, rrs', today);
            && Loads(lib, c, current.name) && Loads(lib, c', current.name)
            && Serial(c) == Serial(c') > 0
  {
    var next := NextSerial(current.serial, today).value;
    SerialAdvances(current.serial, today);
    ZoneStore.CommittedLoads(lib, current.name, rrs, next);
    ZoneStore.CommittedLoads(lib, current.name, rrs', next);
  }

  /** How two contents of one serial come about: a commit takes its content back, which
      leaves the zone as it was, and other records are published on the same day. A
      secondary that transferred the first content in between keeps it, without error. */
  lemma TakenBackKept(
    lib: Library, pre: Disk, moments: seq<Disk>, mid: Disk, current: Zone, rrs: seq<RR>, changes: seq<Change>,
    rrs': seq<RR>, today: Date, w: ZoneStore.World, r: ZoneStore.Answer<ZoneStore.ChangeResult>, discover: bool,
    refresh: World)
    requires current.name in pre.zones && ZoneStore.IsLoaded(lib, current, pre.zones[current.name])
    requires ValidZone(lib, current.name, multiset(rrs)) && ValidZone(lib, current.name, multiset(rrs'))
    requires ZoneStore.CommitOutcome(
               lib, pre, moments, mid, current, rrs, changes, false, today, w, r, TookBack(current.name))
    requires AbsoluteNames(lib, ZoneStore.NextContent(lib, current, rrs, today).rrs)
    requires AbsoluteNames(lib, ZoneStore.NextContent(lib, current, rrs', today).rrs)
    requires refresh.readableBefore && refresh.readableAfter
    requires refresh.probe == Answered(Serial(ZoneStore.NextContent(lib, current, rrs', today)))
    ensures mid.zones == pre.zones && ZoneStore.IsLoaded(lib, current, mid.zones[current.name])
    ensures var c := ZoneStore.NextContent(lib, current, rrs, today);
            var file := Some(Snapshot(InTransferOrder(c.rrs)));
            && (exists i :: 0 <= i < |moments| && moments[i].zones == pre.zones[current.name := c])
            && FileAfter(current.name, discover, file, refresh) == file
            && ErrorAfter(current.name, discover, file, refresh).None?
  {
    ZoneStore.TookBackCommit(lib, pre, moments, mid, current, rrs, changes, today, w, r);
    SameDaySerial(lib, current, rrs, rrs', today);
    var c, c' := ZoneStore.NextContent(lib, current, rrs, today), ZoneStore.NextContent(lib, current, rrs', today);
    ZoneTransfers(lib, current.name, c.rrs);
    ZoneTransfers(lib, current.name, c'.rrs);
    SameSerialKept(current.name, discover, InTransferOrder(c.rrs), InTransferOrder(c'.rrs), refresh);
  }

  /** And a content that was taken back and is replaced by another one with the same
      serial is kept by a secondary that has it, without error. */
  lemma SameSerialKept(zone: string, discover: bool, v: seq<RR>, v': seq<RR>, w: World)
    requires Complete(zone, v) && Complete(zone, v') && v[0].serial == v'[0].serial != 0
    requires w.readableBefore && w.readableAfter && w.probe == Answered(v'[0].serial)
    ensures FileAfter(zone, discover, Some(Snapshot(v)), w) == Some(Snapshot(v))
    ensures ErrorAfter(zone, discover, Some(Snapshot(v)), w).None?
  {
    CompleteInspected(zone, v);
  }
}
