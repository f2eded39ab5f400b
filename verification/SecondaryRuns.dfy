/** Replication over whole runs: one primary that publishes versions of a zone, one
    secondary that probes and transfers, and everything in between free to fail. */
module SecondaryRuns {
  import opened Options
  import opened ZoneRecords
  import opened SecondaryTransfer

  /** The answer to an SOA probe; `Gone` is an authoritative denial of the name. */
  datatype Probe = Answered(serial: nat) | Gone | NoAnswer

  /** What one refresh meets: whether files can be read, written and removed, and what
      the primary sends. */
  datatype World = World(
    readableBefore: bool, probe: Probe, transfer: Option<seq<RR>>, written: bool, removable: bool, readableAfter: bool)

  datatype Reason = NoSerial | ZoneGone | NotRemoved | NoTransfer | Refused | NotWritten | NotInspected

  function ReadBack(file: Option<Snapshot>, readable: bool): Option<Metadata> {
    if file.None? || !readable then None else Inspected(file.value)
  }

  /** The serial on disk, as `readSerial` reports it: 0 stands for every failure. */
  function CurrentSerial(file: Option<Snapshot>, readable: bool): nat {
    match ReadBack(file, readable)
    case None => 0
    case Some(m) => m.serial
  }

  /** What the transfer step says: the version to write, or why there is none. */
  ghost predicate Delivered(zone: string, w: World) {
    w.transfer.Some? && Accepted(zone, w.transfer.value) && w.written
  }

  /** The snapshot file after a refresh: only a complete transfer replaces it, and only
      an authoritative denial removes it. */
  ghost function FileAfter(zone: string, discover: bool, file: Option<Snapshot>, w: World): Option<Snapshot> {
    match w.probe
    case NoAnswer => file
    case Gone => if discover && w.removable then None else file
    case Answered(serial) =>
      if serial != CurrentSerial(file, w.readableBefore) && Delivered(zone, w)
      then Some(Snapshot(w.transfer.value[..|w.transfer.value| - 1]))
      else file
  }

  ghost function TransferError(zone: string, w: World): Option<Reason> {
    if w.transfer.None? then Some(NoTransfer)
    else if !Accepted(zone, w.transfer.value) then Some(Refused)
    else if !w.written then Some(NotWritten)
    else None
  }

  /** The error a refresh ends with. */
  ghost function ErrorAfter(zone: string, discover: bool, file: Option<Snapshot>, w: World): Option<Reason> {
    match w.probe
    case NoAnswer => Some(NoSerial)
    case Gone => if !discover then Some(ZoneGone) else if file.Some? && !w.removable then Some(NotRemoved) else None
    case Answered(serial) =>
      if serial != CurrentSerial(file, w.readableBefore) && TransferError(zone, w).Some? then TransferError(zone, w)
      else if ReadBack(FileAfter(zone, discover, file, w), w.readableAfter).None? then Some(NotInspected)
      else None
  }

  // -------------------------------------------------------------- the primary

  /** What the primary served over time within one lifetime of the zone: complete
      versions, and a version differs from an earlier one only with a larger serial. */
  ghost predicate Chronicle(zone: string, versions: seq<seq<RR>>) {
    && (forall a :: 0 <= a < |versions| ==> Complete(zone, versions[a]))
    && (forall a, b :: 0 <= a < b < |versions| ==> NotOlder(versions[a], versions[b]))
  }

  ghost predicate NotOlder(v: seq<RR>, v': seq<RR>) {
    v' == v || (v != [] && v' != [] && v[0].serial < v'[0].serial)
  }

  /** A refresh whose probe was answered from one version, and whose transfer was served
      from the same or a later one and may have been cut short. */
  datatype Refresh = Refresh(probedAt: nat, servedAt: nat, world: World)

  ghost predicate Honest(zone: string, versions: seq<seq<RR>>, s: Refresh) {
    && s.probedAt <= s.servedAt < |versions|
    && Complete(zone, versions[s.probedAt]) && Complete(zone, versions[s.servedAt])
    && (s.world.probe.Answered? ==> s.world.probe.serial == versions[s.probedAt][0].serial)
    && (s.world.transfer.Some? ==> s.world.transfer.value <= Axfr(versions[s.servedAt]))
  }

  ghost predicate IsVersion(versions: seq<seq<RR>>, file: Option<Snapshot>, m: nat) {
    m < |versions| && file == Some(Snapshot(versions[m]))
  }

  lemma VersionCurrent(zone: string, v: seq<RR>, readable: bool)
    requires Complete(zone, v)
    ensures CurrentSerial(Some(Snapshot(v)), readable) == if readable then v[0].serial else 0
  {
    CompleteInspected(zone, v);
  }

  /** One refresh: the file stays as it is, goes away, or becomes exactly the version
      the transfer was served from. */
  lemma RefreshFile(zone: string, discover: bool, versions: seq<seq<RR>>, file: Option<Snapshot>, s: Refresh)
    requires Honest(zone, versions, s)
    ensures var after := FileAfter(zone, discover, file, s.world);
            after == file || after.None? || IsVersion(versions, after, s.servedAt)
  {
    if s.world.transfer.Some? {
      PrefixRefused(zone, versions[s.servedAt], s.world.transfer.value);
      assert Axfr(versions[s.servedAt])[..|versions[s.servedAt]|] == versions[s.servedAt];
    }
  }

  /** Leaving out the transfer when the serials agree is sound: the file then already
      is the version that was probed. */
  lemma SkipSound(zone: string, versions: seq<seq<RR>>, file: Option<Snapshot>, m: nat, s: Refresh)
    requires Chronicle(zone, versions) && Honest(zone, versions, s) && IsVersion(versions, file, m) && m <= s.probedAt
    requires s.world.probe == Answered(CurrentSerial(file, s.world.readableBefore))
    ensures versions[m] == versions[s.probedAt]
  {
    VersionCurrent(zone, versions[m], s.world.readableBefore);
    assert m < s.probedAt ==> NotOlder(versions[m], versions[s.probedAt]);
  }

  /** After a refresh without error the file is at least as new as the probed version. */
  lemma RefreshUpToDate(
    zone: string, discover: bool, versions: seq<seq<RR>>, file: Option<Snapshot>, m: nat, s: Refresh)
    returns (m': nat)
    requires Chronicle(zone, versions) && Honest(zone, versions, s)
    requires file.Some? ==> IsVersion(versions, file, m) && m <= s.probedAt
    requires s.world.probe.Answered? && ErrorAfter(zone, discover, file, s.world).None?
    ensures s.probedAt <= m' <= s.servedAt && IsVersion(versions, FileAfter(zone, discover, file, s.world), m')
  {
    if s.world.probe == Answered(CurrentSerial(file, s.world.readableBefore)) {
      SkipSound(zone, versions, file, m, s);
      m' := s.probedAt;
    } else {
      PrefixRefused(zone, versions[s.servedAt], s.world.transfer.value);
      assert Axfr(versions[s.servedAt])[..|versions[s.servedAt]|] == versions[s.servedAt];
      m' := s.servedAt;
    }
  }

  /** A transfer that was cut short anywhere is refused and the last good file kept. */
  lemma CutShort(zone: string, discover: bool, versions: seq<seq<RR>>, file: Option<Snapshot>, s: Refresh)
    requires Honest(zone, versions, s) && s.world.probe.Answered?
    requires s.world.transfer.Some? && s.world.transfer.value != Axfr(versions[s.servedAt])
    ensures FileAfter(zone, discover, file, s.world) == file
    ensures s.world.probe.serial != CurrentSerial(file, s.world.readableBefore) ==>
              ErrorAfter(zone, discover, file, s.world) == Some(Refused)
  {
    PrefixRefused(zone, versions[s.servedAt], s.world.transfer.value);
  }

  /** When nothing fails, the refresh ends without error exactly if the serial of the
      version it ends up with is not 0, which reads as a missing SOA. */
  lemma RefreshSucceeds(
    zone: string, discover: bool, versions: seq<seq<RR>>, file: Option<Snapshot>, m: nat, s: Refresh)
    requires Chronicle(zone, versions) && Honest(zone, versions, s)
    requires file.Some? ==> IsVersion(versions, file, m) && m <= s.probedAt
    requires s.world.probe.Answered? && s.world.transfer == Some(Axfr(versions[s.servedAt]))
    requires s.world.written && s.world.readableBefore && s.world.readableAfter
    ensures ErrorAfter(zone, discover, file, s.world).None? <==>
            (if versions[s.probedAt][0].serial == CurrentSerial(file, true) then versions[s.probedAt][0].serial
                else versions[s.servedAt][0].serial) != 0
  {
    AxfrAccepted(zone, versions[s.servedAt]);
    assert Axfr(versions[s.servedAt])[..|versions[s.servedAt]|] == versions[s.servedAt];
    CompleteInspected(zone, versions[s.servedAt]);
    if file.Some? {
      CompleteInspected(zone, versions[m]);
    }
  }

  // ---------------------------------------------------------------- whole runs

  /** Successive refreshes meet successive versions, and each leaves the file that the
      next one finds. */
  ghost predicate Replication(
    zone: string, discover: bool, versions: seq<seq<RR>>, refreshes: seq<Refresh>, files: seq<Option<Snapshot>>)
  {
    && |files| == |refreshes| + 1
    && (forall k :: 0 <= k < |refreshes| ==> Honest(zone, versions, refreshes[k]))
    && (forall k, l :: 0 <= k < l < |refreshes| ==> refreshes[k].servedAt <= refreshes[l].probedAt)
    && (forall k :: 0 <= k < |refreshes| ==> files[k + 1] == FileAfter(zone, discover, files[k], refreshes[k].world))
  }

  /** The newest version the secondary can have seen before refresh k. */
  function Seen(refreshes: seq<Refresh>, k: nat): nat
    requires k <= |refreshes|
  {
    if k == 0 then 0 else refreshes[k - 1].servedAt
  }

  /** From the moment the file is one version, it is never an older one, not even after
      it went away and came back. */
  lemma {:induction false} NewerThrough(
    zone: string, discover: bool, versions: seq<seq<RR>>, refreshes: seq<Refresh>, files: seq<Option<Snapshot>>, k: nat,
    l: nat, a: nat)
    requires Chronicle(zone, versions) && Replication(zone, discover, versions, refreshes, files)
    requires k <= l < |files| && a <= Seen(refreshes, k) && IsVersion(versions, files[k], a)
    ensures files[l].None? || exists b :: a <= b <= Seen(refreshes, l) && IsVersion(versions, files[l], b)
    decreases l - k
  {
    if k < l {
      NewerThrough(zone, discover, versions, refreshes, files, k, l - 1, a);
      RefreshFile(zone, discover, versions, files[l - 1], refreshes[l - 1]);
      assert Seen(refreshes, k) <= Seen(refreshes, l - 1) <= Seen(refreshes, l);
      assert files[l] == FileAfter(zone, discover, files[l - 1], refreshes[l - 1].world);
      if IsVersion(versions, files[l], refreshes[l - 1].servedAt) {
        assert a <= refreshes[l - 1].servedAt <= Seen(refreshes, l);
      }
    }
  }

  /** The file is at every time absent or exactly one complete version. */
  lemma {:induction false} AlwaysVersion(
    zone: string, discover: bool, versions: seq<seq<RR>>, refreshes: seq<Refresh>, files: seq<Option<Snapshot>>, k: nat)
    requires Chronicle(zone, versions) && Replication(zone, discover, versions, refreshes, files) && k < |files|
    requires files[0].None? || IsVersion(versions, files[0], 0)
    ensures files[k].None? || exists m: nat :: m <= Seen(refreshes, k) && IsVersion(versions, files[k], m)
  {
    if k == 0 {
      assert files[0].Some? ==> 0 <= Seen(refreshes, 0) && IsVersion(versions, files[0], 0);
    } else {
      AlwaysVersion(zone, discover, versions, refreshes, files, k - 1);
      RefreshFile(zone, discover, versions, files[k - 1], refreshes[k - 1]);
      assert Seen(refreshes, k - 1) <= Seen(refreshes, k);
      assert files[k] == FileAfter(zone, discover, files[k - 1], refreshes[k - 1].world);
    }
  }

  /** Safety of replication: whenever the file is there it is a complete version, and a
      later file is the same or has a larger serial. */
  lemma ReplicationSafe(
    zone: string, discover: bool, versions: seq<seq<RR>>, refreshes: seq<Refresh>, files: seq<Option<Snapshot>>, k: nat,
    l: nat)
    requires Chronicle(zone, versions) && Replication(zone, discover, versions, refreshes, files) && k <= l < |files|
    requires files[0].None? || IsVersion(versions, files[0], 0)
    requires files[k].Some?
    ensures files[k].value.Snapshot? && files[k].value.rrs in versions && Complete(zone, files[k].value.rrs)
    ensures files[l].Some? ==> files[l].value.Snapshot? && NotOlder(files[k].value.rrs, files[l].value.rrs)
  {
    AlwaysVersion(zone, discover, versions, refreshes, files, k);
    var a: nat :| a <= Seen(refreshes, k) && IsVersion(versions, files[k], a);
    NewerThrough(zone, discover, versions, refreshes, files, k, l, a);
    if files[l].Some? {
      var b :| a <= b <= Seen(refreshes, l) && IsVersion(versions, files[l], b);
      assert a < b ==> NotOlder(versions[a], versions[b]);
    }
  }

  /** In every run, a refresh without error leaves a file at least as new as the version
      that was probed. */
  lemma ReplicationUpToDate(
    zone: string, discover: bool, versions: seq<seq<RR>>, refreshes: seq<Refresh>, files: seq<Option<Snapshot>>, k: nat)
    requires Chronicle(zone, versions) && Replication(zone, discover, versions, refreshes, files) && k < |refreshes|
    requires files[0].None? || IsVersion(versions, files[0], 0)
    requires refreshes[k].world.probe.Answered? && ErrorAfter(zone, discover, files[k], refreshes[k].world).None?
    ensures files[k + 1].Some? && files[k + 1].value.Snapshot?
    ensures NotOlder(versions[refreshes[k].probedAt], files[k + 1].value.rrs)
  {
    AlwaysVersion(zone, discover, versions, refreshes, files, k);
    var a: nat := 0;
    if files[k].Some? {
      a :| a <= Seen(refreshes, k) && IsVersion(versions, files[k], a);
    }
    SeenBefore(zone, discover, versions, refreshes, files, k);
    var m := RefreshUpToDate(zone, discover, versions, files[k], a, refreshes[k]);
    assert refreshes[k].probedAt < m ==> NotOlder(versions[refreshes[k].probedAt], versions[m]);
  }

  lemma SeenBefore(
    zone: string, discover: bool, versions: seq<seq<RR>>, refreshes: seq<Refresh>, files: seq<Option<Snapshot>>,
    k: nat)
    requires Replication(zone, discover, versions, refreshes, files) && k < |refreshes|
    ensures Seen(refreshes, k) <= refreshes[k].probedAt < |versions|
  {
    assert Honest(zone, versions, refreshes[k]);
  }

  // ------------------------------------------------------- when a file goes away

  /** When a file that is there goes away: only in a service that discovers its zones,
      by a refresh that was told that the zone is gone and could remove the file. */
  lemma GoesOnlyWhenGone(
    zone: string, discover: bool, versions: seq<seq<RR>>, refreshes: seq<Refresh>, files: seq<Option<Snapshot>>, k: nat)
    requires Replication(zone, discover, versions, refreshes, files) && k < |refreshes| && files[k].Some?
    ensures files[k + 1].None? <==> discover && refreshes[k].world.probe.Gone? && refreshes[k].world.removable
  {
    assert files[k + 1] == FileAfter(zone, discover, files[k], refreshes[k].world);
  }

  /** Without discovery a file that is there stays there, whatever happens. */
  lemma {:induction false} StaysWithoutDiscovery(
    zone: string, versions: seq<seq<RR>>, refreshes: seq<Refresh>, files: seq<Option<Snapshot>>, k: nat, l: nat)
    requires Replication(zone, false, versions, refreshes, files) && k <= l < |files| && files[k].Some?
    ensures files[l].Some?
    decreases l
  {
    if k < l {
      StaysWithoutDiscovery(zone, versions, refreshes, files, k, l - 1);
      GoesOnlyWhenGone(zone, false, versions, refreshes, files, l - 1);
    }
  }

  /** With discovery, a file that was there and is not any more was removed by a refresh
      that was told so. */
  lemma {:induction false} GoneBetween(
    zone: string, discover: bool, versions: seq<seq<RR>>, refreshes: seq<Refresh>, files: seq<Option<Snapshot>>, k: nat,
    l: nat) returns (j: nat)
    requires Replication(zone, discover, versions, refreshes, files)
    requires k <= l < |files| && files[k].Some? && files[l].None?
    ensures discover && k <= j < l && refreshes[j].world.probe.Gone? && refreshes[j].world.removable
    decreases l
  {
    if files[l - 1].Some? {
      j := l - 1;
      GoesOnlyWhenGone(zone, discover, versions, refreshes, files, j);
    } else {
      j := GoneBetween(zone, discover, versions, refreshes, files, k, l - 1);
    }
  }

  /** Told that the zone is gone, a service that discovers its zones ends without the
      file, if it could remove it, and any other keeps it and reports an error. */
  lemma GoneRemoves(
    zone: string, discover: bool, versions: seq<seq<RR>>, refreshes: seq<Refresh>, files: seq<Option<Snapshot>>, k: nat)
    requires Replication(zone, discover, versions, refreshes, files) && k < |refreshes|
    requires refreshes[k].world.probe.Gone?
    ensures discover && refreshes[k].world.removable ==> files[k + 1].None?
    ensures !discover || !refreshes[k].world.removable ==> files[k + 1] == files[k]
    ensures ErrorAfter(zone, discover, files[k], refreshes[k].world).None? <==> discover && files[k + 1].None?
  {
    assert files[k + 1] == FileAfter(zone, discover, files[k], refreshes[k].world);
  }

  /** A refresh that ends with an error, other than one in reading back what it just
      wrote, leaves the last good file as it was. */
  lemma ErrorKeepsFile(
    zone: string, discover: bool, versions: seq<seq<RR>>, refreshes: seq<Refresh>, files: seq<Option<Snapshot>>, k: nat)
    requires Replication(zone, discover, versions, refreshes, files) && k < |refreshes|
    requires ErrorAfter(zone, discover, files[k], refreshes[k].world).Some?
    ensures files[k + 1] == files[k] || ErrorAfter(zone, discover, files[k], refreshes[k].world) == Some(NotInspected)
    ensures refreshes[k].world.probe.NoAnswer? ==> files[k + 1] == files[k]
  {
    assert files[k + 1] == FileAfter(zone, discover, files[k], refreshes[k].world);
  }
}
