/** The secondary service object: its zones, snapshot files and failure bookkeeping. */
module SecondaryService {
  import opened Options
  import opened SecondaryTransfer
  import opened SecondaryRetry
  import opened SecondaryRuns
  import Text

  function CanonicalZone(zone: string): (r: string)
    ensures IsAbsolute(r)
  {
    Text.ToLower(Text.Fqdn(Text.TrimSpace(zone)))
  }

  predicate IsAbsolute(zone: string) {
    zone != [] && zone[|zone| - 1] == '.'
  }

  /** The canonical form: trimmed, in lower case, and with a final dot. */
  lemma CanonicalForm(zone: string)
    ensures var z := CanonicalZone(zone);
            && IsAbsolute(z) && (forall i :: 0 <= i < |z| ==> !('A' <= z[i] <= 'Z'))
            && z in {Text.ToLower(Text.TrimSpace(zone)), Text.ToLower(Text.TrimSpace(zone)) + "."}
  {
    var t := Text.TrimSpace(zone);
    assert Text.ToLower(t + ".") == Text.ToLower(t) + ".";
  }

  ghost predicate Distinct(zones: seq<string>) {
    forall z :: z in multiset(zones) ==> multiset(zones)[z] == 1
  }

  function Canonicals(zones: seq<string>): (r: seq<string>)
    ensures |r| == |zones| && forall i :: 0 <= i < |r| ==> r[i] == CanonicalZone(zones[i])
  {
    seq(|zones|, i requires 0 <= i < |zones| => CanonicalZone(zones[i]))
  }

  /** The zone checks of `New`: the configured zones are accepted exactly when none is
      the root and no two are the same, and are then kept in canonical form. */
  method CanonicalZones(zones: seq<string>) returns (r: Option<seq<string>>)
    ensures r.Some? <==> "." !in Canonicals(zones) && Distinct(Canonicals(zones))
    ensures r.Some? ==> r.value == Canonicals(zones)
  {
    var all := Canonicals(zones);
    var done: seq<string> := [];
    for i := 0 to |zones|
      invariant done == all[..i] && "." !in done && Distinct(done)
    {
      var zone := CanonicalZone(zones[i]);
      Extend(all, i);
      if zone == "." {
        assert all[i] in all;
        return None;
      }
      if zone in done {
        return None;
      }
      done := done + [zone];
    }
    assert all[..|zones|] == all;
    return Some(done);
  }

  /** A prefix that repeats a zone already does so in the whole. */
  lemma Extend(all: seq<string>, i: nat)
    requires i < |all|
    ensures all[..i + 1] == all[..i] + [all[i]]
    ensures all[i] in all[..i] ==> multiset(all)[all[i]] >= 2
    ensures Distinct(all[..i]) && all[i] !in all[..i] ==> Distinct(all[..i + 1])
  {
    assert all == all[..i] + all[i..] && all[i..][0] in multiset(all[i..]);
    assert all[..i + 1] == all[..i] + [all[i]];
  }

  /** The bounds of the retry delay that `New` settles on. */
  method RetryBounds(refresh: int, retryMin: int, retryMax: int) returns (period: int, lo: int, hi: int)
    ensures 0 < lo <= hi <= period
    ensures period == if refresh > 0 then refresh else 3_600_000_000_000
    ensures hi == Min(if retryMax > 0 then retryMax else 900_000_000_000, period)
    ensures lo == Min(if retryMin > 0 then retryMin else 30_000_000_000, hi)
    ensures 0 < retryMin <= retryMax <= refresh ==> lo == retryMin && hi == retryMax
    ensures IsInt64(refresh) && IsInt64(retryMin) && IsInt64(retryMax) ==> period <= MAX_INT64
  {
    period := if refresh <= 0 then 3_600_000_000_000 else refresh;
    lo := if retryMin <= 0 then 30_000_000_000 else retryMin;
    hi := if retryMax <= 0 then 900_000_000_000 else retryMax;
    hi := Min(hi, period);
    lo := Min(lo, hi);
  }

  function ZoneFileName(zone: string): string {
    Text.TrimSuffix(zone, ".") + ".zone"
  }

  /** Different zones have different files. */
  lemma FileNamesDiffer(a: string, b: string)
    requires IsAbsolute(a) && IsAbsolute(b) && a != b
    ensures ZoneFileName(a) != ZoneFileName(b)
  {
    assert a == a[..|a| - 1] + "." && b == b[..|b| - 1] + ".";
    assert ZoneFileName(a) == a[..|a| - 1] + ".zone" && ZoneFileName(b) == b[..|b| - 1] + ".zone";
    assert a[..|a| - 1] == ZoneFileName(a)[..|ZoneFileName(a)| - 5];
    assert b[..|b| - 1] == ZoneFileName(b)[..|ZoneFileName(b)| - 5];
  }

  /** How a refresh of a zone ended. */
  datatype Outcome = Outcome(zone: string, failed: bool)

  /** The failures of a zone since its last success. */
  ghost function Consecutive(log: seq<Outcome>, zone: string): nat {
    if log == [] then 0
    else
      var last, before := log[|log| - 1], Consecutive(log[..|log| - 1], zone);
      if last.zone != zone then before else if last.failed then before + 1 else 0
  }

  lemma ConsecutiveNext(log: seq<Outcome>, last: Outcome, zone: string)
    ensures Consecutive(log + [last], zone) ==
            if last.zone != zone then Consecutive(log, zone) else if last.failed then Consecutive(log, zone) + 1 else 0
  {
    assert (log + [last])[..|log|] == log;
  }

  class Service {
    const discover: bool
    const maxZones: nat
    const retryMin: int
    const retryMax: int
    var zones: seq<string>
    var files: map<string, Snapshot>
    var metadata: map<string, Metadata>
    var zoneErrors: map<string, Reason>
    var failures: map<string, nat>
    var retries: map<string, int>
    var success: bool
    var lastAttempt: int
    var lastSuccess: Option<int>
    /** How every refresh so far ended. */
    ghost var log: seq<Outcome>

    /** The bookkeeping: exactly the zones whose last refresh failed have an error, a
        count of their consecutive failures, and a timer set by that count. */
    ghost predicate Valid()
      reads this
    {
      && 0 < retryMin <= retryMax <= MAX_INT64
      && Distinct(zones) && |zones| <= maxZones
      && KeysAgree(zoneErrors, failures, retries)
      && Counted(failures, log) && Timed(retries, failures, retryMin, retryMax)
      && (log != [] ==> (success <==> zoneErrors == map[]))
    }

    ghost function FileOf(zone: string): Option<Snapshot>
      reads this
    {
      if ZoneFileName(zone) in files then Some(files[ZoneFileName(zone)]) else None
    }

    constructor (
      zones: seq<string>, maxZones: nat, discover: bool, retryMin: int, retryMax: int, files: map<string, Snapshot>)
      requires Distinct(zones) && |zones| <= maxZones && 0 < retryMin <= retryMax <= MAX_INT64
      ensures Valid() && this.zones == zones && this.files == files && log == []
      ensures this.discover == discover && this.maxZones == maxZones && this.retryMin == retryMin
      ensures this.retryMax == retryMax
    {
      this.zones, this.maxZones, this.discover, this.retryMin, this.retryMax :=
          zones, maxZones, discover, retryMin, retryMax;
      this.files, metadata, zoneErrors, failures, retries := files, map[], map[], map[], map[];
      success, lastAttempt, lastSuccess, log := false, 0, None, [];
    }

    /** Every scheduled delay is the promised one: doubled for each consecutive failure
        after the first, and capped. */
    lemma DelayPromised(zone: string)
      requires Valid() && retryMax <= HALF && zone in retries
      ensures Consecutive(log, zone) > 0
      ensures retries[zone] == Backoff(Consecutive(log, zone), retryMin, retryMax)
    {
      assert FailuresOf(failures, zone) == Consecutive(log, zone);
      assert zone in zoneErrors.Keys;
      NoWrap(retryMin, retryMax, Consecutive(log, zone));
    }

    /** `addZone`: the zones stay without duplicates and within the maximum. */
    method AddZone(zone: string) returns (ok: bool)
      requires Valid()
      modifies this`zones
      ensures Valid()
      ensures ok <==> zone in old(zones) || |old(zones)| < maxZones
      ensures zone in old(zones) || !ok ==> zones == old(zones)
      ensures zone !in old(zones) && ok ==>
                Text.SortedStrings(zones) && multiset(zones) == multiset(old(zones)) + multiset{zone}
    {
      for i := 0 to |zones|
        invariant zone !in zones[..i]
      {
        if zones[i] == zone {
          return true;
        }
      }
      assert zones[..|zones|] == zones;
      if |zones| >= maxZones {
        return false;
      }
      var longer := zones + [zone];
      Text.SortStringsSorted(longer);
      assert |multiset(Text.SortStrings(longer))| == |multiset(longer)| == |longer|;
      zones := Text.SortStrings(longer);
      return true;
    }

    /** The transfer part of `syncZone`. */
    method Fetch(zone: string, w: World) returns (e: Option<Reason>)
      modifies this`files
      ensures e == TransferError(zone, w)
      ensures e.Some? ==> files == old(files)
      ensures e.None? ==>
                var received := w.transfer.value;
                files == old(files)[ZoneFileName(zone) := Snapshot(received[..|received| - 1])]
    {
      if w.transfer.None? {
        return Some(NoTransfer);
      }
      var ok := CheckTransfer(zone, w.transfer.value);
      if !ok {
        return Some(Refused);
      }
      if !w.written {
        return Some(NotWritten);
      }
      files := files[ZoneFileName(zone) := Snapshot(w.transfer.value[..|w.transfer.value| - 1])];
      return None;
    }

    method Inspect(zone: string, readable: bool) returns (r: Option<Metadata>)
      ensures r == ReadBack(FileOf(zone), readable)
    {
      if ZoneFileName(zone) !in files || !readable {
        return None;
      }
      r := InspectZone(files[ZoneFileName(zone)]);
    }

    /** The part of `syncZone` that touches files and metadata. */
    method Refresh(zone: string, w: World) returns (e: Option<Reason>)
      modifies this`files, this`metadata
      ensures e == ErrorAfter(zone, discover, old(FileOf(zone)), w)
      ensures FileOf(zone) == FileAfter(zone, discover, old(FileOf(zone)), w)
      ensures files - {ZoneFileName(zone)} == old(files) - {ZoneFileName(zone)}
      ensures metadata == MetadataAfter(old(metadata), zone, w, e, FileOf(zone))
    {
      var current := Inspect(zone, w.readableBefore);
      match w.probe
      case NoAnswer => return Some(NoSerial);
      case Gone =>
        if !discover {
          return Some(ZoneGone);
        }
        if ZoneFileName(zone) in files && !w.removable {
          return Some(NotRemoved);
        }
        files := files - {ZoneFileName(zone)};
        metadata := metadata - {zone};
        return None;
      case Answered(serial) =>
        if serial != (if current.Some? then current.value.serial else 0) {
          e := Fetch(zone, w);
          if e.Some? {
            return;
          }
        }
        var found := Inspect(zone, w.readableAfter);
        if found.None? {
          return Some(NotInspected);
        }
        metadata := metadata[zone := found.value];
        return None;
    }

    /** `scheduleRetry` */
    method ScheduleRetry(zone: string, failed: bool)
      requires 0 < retryMin <= retryMax <= MAX_INT64
      modifies this`failures, this`retries
      ensures failures == FailuresAfter(old(failures), zone, failed)
      ensures retries == RetriesAfter(old(retries), zone, failed,
              Delay(FailuresOf(old(failures), zone) + 1, retryMin, retryMax))
    {
      retries := retries - {zone};
      if !failed {
        failures := failures - {zone};
        return;
      }
      failures := failures[zone := FailuresOf(failures, zone) + 1];
      var delay := RetryDelay(failures[zone], retryMin, retryMax);
      retries := retries[zone := delay];
    }

    method Book(zone: string, e: Option<Reason>)
      requires 0 < retryMin <= retryMax <= MAX_INT64
      modifies this`zoneErrors, this`failures, this`retries, this`log
      ensures zoneErrors == ErrorsAfter(old(zoneErrors), zone, e)
      ensures failures == FailuresAfter(old(failures), zone, e.Some?)
      ensures retries == RetriesAfter(old(retries), zone, e.Some?,
              Delay(FailuresOf(old(failures), zone) + 1, retryMin, retryMax))
      ensures log == old(log) + [Outcome(zone, e.Some?)]
    {
      zoneErrors := ErrorsAfter(zoneErrors, zone, e);
      ScheduleRetry(zone, e.Some?);
      log := log + [Outcome(zone, e.Some?)];
    }

    /** The part of `syncZone` that records how the refresh ended. */
    method Conclude(zone: string, now: int, e: Option<Reason>)
      requires Valid()
      modifies this`zoneErrors, this`failures, this`retries, this`log, this`success, this`lastSuccess
      ensures Valid()
      ensures zoneErrors == ErrorsAfter(old(zoneErrors), zone, e)
      ensures log == old(log) + [Outcome(zone, e.Some?)]
      ensures success <==> zoneErrors == map[]
      ensures lastSuccess == if success then Some(now) else old(lastSuccess)
    {
      ghost var delay := Delay(FailuresOf(failures, zone) + 1, retryMin, retryMax);
      Book(zone, e);
      KeysNext(old(zoneErrors), old(failures), old(retries), zone, e, delay);
      CountedNext(old(failures), old(log), zone, e.Some?);
      TimedNext(old(retries), old(failures), retryMin, retryMax, zone, e.Some?);
      success := |zoneErrors| == 0;
      if success {
        lastSuccess := Some(now);
      }
    }

    /** `syncZone`: the file and the error follow the refresh, other zones keep theirs,
        and the bookkeeping stays exact. */
    method SyncZone(zone: string, now: int, w: World) returns (e: Option<Reason>)
      requires Valid() && IsAbsolute(zone)
      modifies this
      ensures Valid() && zones == old(zones)
      ensures e == ErrorAfter(zone, discover, old(FileOf(zone)), w)
      ensures FileOf(zone) == FileAfter(zone, discover, old(FileOf(zone)), w)
      ensures OthersKept(old(files), files, zone)
      ensures metadata == MetadataAfter(old(metadata), zone, w, e, FileOf(zone))
      ensures StatusTells(old(metadata), metadata, zone, e, FileOf(zone))
      ensures !discover || !w.probe.Gone? ==> old(FileOf(zone)).Some? ==> FileOf(zone).Some?
      ensures zoneErrors == ErrorsAfter(old(zoneErrors), zone, e)
      ensures log == old(log) + [Outcome(zone, e.Some?)]
      ensures success <==> zoneErrors == map[]
      ensures lastAttempt == now && lastSuccess == if success then Some(now) else old(lastSuccess)
    {
      lastAttempt := now;
      e := Refresh(zone, w);
      RefreshTells(zone, discover, old(FileOf(zone)), w, old(metadata));
      OtherFiles(old(files), files, zone);
      Conclude(zone, now, e);
    }
  }

  /** The snapshot files of all other zones are as they were. */
  ghost predicate OthersKept(a: map<string, Snapshot>, b: map<string, Snapshot>, zone: string) {
    forall z :: IsAbsolute(z) && z != zone ==>
      var name := ZoneFileName(z);
      (name in a <==> name in b) && (name in a && name in b ==> a[name] == b[name])
  }

  lemma OtherFiles(a: map<string, Snapshot>, b: map<string, Snapshot>, zone: string)
    requires IsAbsolute(zone) && a - {ZoneFileName(zone)} == b - {ZoneFileName(zone)}
    ensures OthersKept(a, b, zone)
  {
    var changed := ZoneFileName(zone);
    forall z | IsAbsolute(z) && z != zone
      ensures var name := ZoneFileName(z); (name in a <==> name in b) && (name in a && name in b ==> a[name] == b[name])
    {
      FileNamesDiffer(z, zone);
      var name := ZoneFileName(z);
      assert name in a <==> name in a - {changed};
      assert name in b <==> name in b - {changed};
      assert name in a - {changed} ==> a[name] == (a - {changed})[name] == b[name];
    }
  }

  function ErrorsAfter(errors: map<string, Reason>, zone: string, e: Option<Reason>): map<string, Reason> {
    if e.None? then errors - {zone} else errors[zone := e.value]
  }

  function FailuresAfter(failures: map<string, nat>, zone: string, failed: bool): map<string, nat> {
    if failed then failures[zone := FailuresOf(failures, zone) + 1] else failures - {zone}
  }

  function RetriesAfter(retries: map<string, int>, zone: string, failed: bool, delay: int): map<string, int> {
    if failed then retries[zone := delay] else retries - {zone}
  }

  function FailuresOf(failures: map<string, nat>, zone: string): nat {
    if zone in failures then failures[zone] else 0
  }

  ghost function MetadataAfter(
    metadata: map<string, Metadata>, zone: string, w: World, e: Option<Reason>, file: Option<Snapshot>)
    : map<string, Metadata>
  {
    if e.Some? then metadata
    else if w.probe.Gone? then metadata - {zone}
    else if ReadBack(file, w.readableAfter).Some? then metadata[zone := ReadBack(file, w.readableAfter).value]
    else metadata
  }

  /** What the status says of a zone after a refresh without error: its serial and number
      of records if its file is there, and nothing otherwise; of other zones, and after an
      error, what it said before. */
  ghost predicate StatusTells(
    before: map<string, Metadata>, after: map<string, Metadata>, zone: string, e: Option<Reason>,
    file: Option<Snapshot>)
  {
    && after - {zone} == before - {zone}
    && (e.Some? ==> after == before)
    && (e.None? ==>
          && (zone in after <==> file.Some?)
          && (file.Some? ==>
                file.value.Snapshot? && after[zone] == Metadata(LastSerial(file.value.rrs), |file.value.rrs|)))
  }

  lemma RefreshTells(
    zone: string, discover: bool, file: Option<Snapshot>, w: World, metadata: map<string, Metadata>)
    ensures var e, now := ErrorAfter(zone, discover, file, w), FileAfter(zone, discover, file, w);
            && StatusTells(metadata, MetadataAfter(metadata, zone, w, e, now), zone, e, now)
            && (!discover || !w.probe.Gone? ==> file.Some? ==> now.Some?)
  {
  }

  ghost predicate KeysAgree(zoneErrors: map<string, Reason>, failures: map<string, nat>, retries: map<string, int>) {
    zoneErrors.Keys == failures.Keys == retries.Keys
  }

  ghost predicate Counted(failures: map<string, nat>, log: seq<Outcome>) {
    forall z {:trigger Consecutive(log, z)} ::
      FailuresOf(failures, z) == Consecutive(log, z) && (z in failures <==> Consecutive(log, z) > 0)
  }

  ghost predicate Timed(retries: map<string, int>, failures: map<string, nat>, retryMin: int, retryMax: int)
    requires IsInt64(retryMin)
  {
    forall z {:trigger FailuresOf(failures, z)} :: z in retries ==>
        retries[z] == Delay(FailuresOf(failures, z), retryMin, retryMax)
  }

  lemma KeysNext(
    zoneErrors: map<string, Reason>, failures: map<string, nat>, retries: map<string, int>, zone: string,
    e: Option<Reason>, delay: int)
    requires KeysAgree(zoneErrors, failures, retries)
    ensures KeysAgree(ErrorsAfter(zoneErrors, zone, e), FailuresAfter(failures, zone, e.Some?),
            RetriesAfter(retries, zone, e.Some?, delay))
  {
  }

  lemma CountedNext(failures: map<string, nat>, log: seq<Outcome>, zone: string, failed: bool)
    requires Counted(failures, log)
    ensures Counted(FailuresAfter(failures, zone, failed), log + [Outcome(zone, failed)])
  {
    var after := FailuresAfter(failures, zone, failed);
    forall z
      ensures FailuresOf(after, z) == Consecutive(log + [Outcome(zone, failed)], z)
      ensures z in after <==> Consecutive(log + [Outcome(zone, failed)], z) > 0
    {
      ConsecutiveNext(log, Outcome(zone, failed), z);
      assert FailuresOf(failures, z) == Consecutive(log, z);
    }
  }

  lemma TimedNext(
    retries: map<string, int>, failures: map<string, nat>, retryMin: int, retryMax: int, zone: string, failed: bool)
    requires IsInt64(retryMin) && Timed(retries, failures, retryMin, retryMax)
    ensures Timed(RetriesAfter(retries, zone, failed, Delay(FailuresOf(failures, zone) + 1, retryMin, retryMax)),
                  FailuresAfter(failures, zone, failed), retryMin, retryMax)
  {
    assert forall z :: z != zone ==> FailuresOf(FailuresAfter(failures, zone, failed), z) == FailuresOf(failures, z);
  }
}
