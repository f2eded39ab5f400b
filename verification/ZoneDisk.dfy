/** The files of the zone store, and how operations may change them. */
module ZoneDisk {
  import opened ZoneRecords

  datatype HistoryKey = HistoryKey(zone: string, revision: string)

  datatype AuditEvent = AuditEvent(
    zone: string, previousRevision: string, revision: string, previousSerial: nat, serial: nat)

  datatype Disk = Disk(
    zones: map<string, Content>,
    history: map<HistoryKey, Content>,
    roles: map<string, string>,
    audit: seq<AuditEvent>)

  /** How an atomic write may end: it can fail before the new file is in place, or
      after, when only the directory sync fails. */
  datatype Write = Done | FailedBefore | FailedAfter

  function WriteZone(d: Disk, name: string, content: Content, w: Write): Disk {
    if w == FailedBefore then d else d.(zones := d.zones[name := content])
  }

  function RemoveZone(d: Disk, name: string, removed: bool): Disk {
    if removed then d.(zones := d.zones - {name}) else d
  }

  function WriteHistory(d: Disk, key: HistoryKey, content: Content, w: Write): Disk {
    if w == FailedBefore then d else d.(history := d.history[key := content])
  }

  function WriteRoles(d: Disk, roles: map<string, string>, w: Write): Disk {
    if w == FailedBefore then d else d.(roles := roles)
  }

  /** Every history file is named by the revision of its content. */
  ghost predicate HistoryNamed(lib: Library, d: Disk) {
    forall k :: k in d.history ==> lib.revision(d.history[k]) == k.revision
  }

  /** Every zone file and every history file is a valid zone of its own name. */
  ghost predicate FilesLoad(lib: Library, d: Disk) {
    && (forall m {:trigger Loads(lib, d.zones[m], m)} :: m in d.zones ==> Loads(lib, d.zones[m], m))
    && (forall k {:trigger Loads(lib, d.history[k], k.zone)} :: k in d.history ==> Loads(lib, d.history[k], k.zone))
  }

  ghost predicate Sound(lib: Library, d: Disk) {
    HistoryNamed(lib, d) && FilesLoad(lib, d)
  }

  /** A content of a zone is kept in its history. */
  ghost predicate Saved(lib: Library, d: Disk, zone: string, c: Content) {
    var k := HistoryKey(zone, lib.revision(c));
    k in d.history && d.history[k] == c
  }

  /** A zone file from one state to a later one: unchanged, or replaced by one with a
      larger serial, or removed; and what was replaced or removed is in the history. */
  ghost predicate ZoneEvolves(lib: Library, pre: Disk, d: Disk, m: string) {
    m in pre.zones ==>
      || (m in d.zones && d.zones[m] == pre.zones[m])
      || (Saved(lib, d, m, pre.zones[m]) && (m in d.zones ==> Serial(d.zones[m]) > Serial(pre.zones[m])))
  }

  /** What any operation may do to the disk, between its start and any moment of it. */
  ghost predicate Evolves(lib: Library, pre: Disk, d: Disk) {
    && (forall k :: k in pre.history ==> k in d.history && d.history[k] == pre.history[k])
    && (forall m :: ZoneEvolves(lib, pre, d, m))
    && pre.audit <= d.audit
  }

  /** All moments of an operation that started at `pre`. */
  ghost predicate AllEvolve(lib: Library, pre: Disk, moments: seq<Disk>) {
    forall i :: 0 <= i < |moments| ==> Evolves(lib, pre, moments[i]) && Sound(lib, moments[i])
  }

  /** The state after an operation that started at `pre`. */
  function LastOf(pre: Disk, moments: seq<Disk>): Disk {
    if moments == [] then pre else moments[|moments| - 1]
  }

  /** At every moment the zone files are the old ones, except that the zone may have
      the new content. */
  ghost predicate OldOrNew(pre: Disk, moments: seq<Disk>, zone: string, c: Content) {
    forall i :: 0 <= i < |moments| ==> moments[i].zones == pre.zones || moments[i].zones == pre.zones[zone := c]
  }

  /** At every moment the zone files are the old ones, except that the zone may be gone. */
  ghost predicate OldOrGone(pre: Disk, moments: seq<Disk>, zone: string) {
    forall i :: 0 <= i < |moments| ==> moments[i].zones == pre.zones || moments[i].zones == pre.zones - {zone}
  }

  /** The order of the moments of a publication: the old content, then the new one from
      moment a on, then, if it was put back, the old one again from moment b on. */
  ghost predicate Phases(pre: Disk, moments: seq<Disk>, zone: string, c: Content, a: nat, b: nat) {
    && a <= b <= |moments|
    && (forall i :: 0 <= i < a ==> moments[i].zones == pre.zones)
    && (forall i :: a <= i < b ==> moments[i].zones == pre.zones[zone := c])
    && (forall i :: b <= i < |moments| ==> moments[i].zones == pre.zones)
  }

  /** The new content was on disk, and the old one was put back in the end. */
  ghost predicate PutBack(pre: Disk, moments: seq<Disk>, zone: string, c: Content) {
    exists a: nat, b: nat :: Phases(pre, moments, zone, c, a, b) && a < b < |moments|
  }

  /** The new content may have come to disk, and then stayed. */
  ghost predicate Forward(pre: Disk, moments: seq<Disk>, zone: string, c: Content) {
    exists a: nat :: Phases(pre, moments, zone, c, a, |moments|)
  }

  lemma EvolvesSame(lib: Library, d: Disk)
    ensures Evolves(lib, d, d)
  {
  }

  /** Changes to the roles and the audit log touch no zone. */
  lemma MetadataEvolves(lib: Library, pre: Disk, d: Disk, d': Disk)
    requires Evolves(lib, pre, d) && Sound(lib, d)
    requires d'.zones == d.zones && d'.history == d.history && d.audit <= d'.audit
    ensures Evolves(lib, pre, d') && Sound(lib, d')
  {
    forall m ensures ZoneEvolves(lib, pre, d', m) {
      assert ZoneEvolves(lib, pre, d, m);
    }
  }

  /** The disk after saving the current content of a zone. */
  function SaveHistory(lib: Library, d: Disk, zone: string, w: Write): Disk
    requires zone in d.zones
  {
    var key := HistoryKey(zone, lib.revision(d.zones[zone]));
    if key in d.history then d else WriteHistory(d, key, d.zones[zone], w)
  }

  /** Saving the current content of a zone: if a file for its revision is already
      there it holds the same content, because revisions are collision-free. */
  lemma HistoryEvolves(lib: Library, pre: Disk, zone: string, w: Write)
    requires CollisionFree(lib) && HistoryNamed(lib, pre) && zone in pre.zones
    ensures Evolves(lib, pre, SaveHistory(lib, pre, zone, w)) && HistoryNamed(lib, SaveHistory(lib, pre, zone, w))
    ensures w != FailedBefore || HistoryKey(zone, lib.revision(pre.zones[zone])) in pre.history ==>
              Saved(lib, SaveHistory(lib, pre, zone, w), zone, pre.zones[zone])
  {
    var key := HistoryKey(zone, lib.revision(pre.zones[zone]));
    assert key in pre.history ==> lib.revision(pre.history[key]) == lib.revision(pre.zones[zone]);
  }

  lemma HistoryFileLoads(lib: Library, pre: Disk, zone: string, w: Write, k: HistoryKey)
    requires zone in pre.zones && Loads(lib, pre.zones[zone], zone) && k in SaveHistory(lib, pre, zone, w).history
    requires k in pre.history ==> Loads(lib, pre.history[k], k.zone)
    ensures Loads(lib, SaveHistory(lib, pre, zone, w).history[k], k.zone)
  {
    var key := HistoryKey(zone, lib.revision(pre.zones[zone]));
    var after := SaveHistory(lib, pre, zone, w).history;
    assert if k == key && key !in pre.history then after[k] == pre.zones[zone] else after[k] == pre.history[k];
  }

  lemma HistoryLoads(lib: Library, pre: Disk, zone: string, w: Write)
    requires FilesLoad(lib, pre) && zone in pre.zones
    ensures FilesLoad(lib, SaveHistory(lib, pre, zone, w))
  {
    var d := SaveHistory(lib, pre, zone, w);
    assert d.zones == pre.zones;
    forall k | k in d.history ensures Loads(lib, d.history[k], k.zone) {
      assert Loads(lib, pre.zones[zone], zone) && (k in pre.history ==> Loads(lib, pre.history[k], k.zone));
      HistoryFileLoads(lib, pre, zone, w, k);
    }
    forall m | m in d.zones ensures Loads(lib, d.zones[m], m) {
      assert Loads(lib, pre.zones[m], m);
    }
  }

  /** Once the old content is saved, a content with a larger serial may replace it,
      and the old one may be put back. */
  lemma WriteEvolves(lib: Library, pre: Disk, d: Disk, zone: string, c: Content, w: Write)
    requires Evolves(lib, pre, d)
    requires zone in pre.zones ==>
               c == pre.zones[zone] || (Saved(lib, d, zone, pre.zones[zone]) && Serial(c) > Serial(pre.zones[zone]))
    ensures Evolves(lib, pre, WriteZone(d, zone, c, w))
  {
    var d' := WriteZone(d, zone, c, w);
    forall m ensures ZoneEvolves(lib, pre, d', m) {
      assert ZoneEvolves(lib, pre, d, m);
    }
  }

  lemma WriteSound(lib: Library, d: Disk, zone: string, c: Content, w: Write)
    requires Sound(lib, d) && Loads(lib, c, zone)
    ensures Sound(lib, WriteZone(d, zone, c, w))
  {
    var d' := WriteZone(d, zone, c, w);
    forall m | m in d'.zones ensures Loads(lib, d'.zones[m], m) {
      assert m in d.zones ==> Loads(lib, d.zones[m], m);
    }
    assert forall k :: k in d.history ==> Loads(lib, d.history[k], k.zone);
  }

  /** A zone file may be removed when it was not there at the start or its content is
      in the history. */
  lemma RemoveEvolves(lib: Library, pre: Disk, d: Disk, zone: string, removed: bool)
    requires Evolves(lib, pre, d)
    requires zone in pre.zones ==> Saved(lib, d, zone, pre.zones[zone])
    ensures Evolves(lib, pre, RemoveZone(d, zone, removed))
  {
    var d' := RemoveZone(d, zone, removed);
    forall m ensures ZoneEvolves(lib, pre, d', m) {
      assert ZoneEvolves(lib, pre, d, m);
    }
  }

  lemma RemoveSound(lib: Library, d: Disk, zone: string, removed: bool)
    requires Sound(lib, d)
    ensures Sound(lib, RemoveZone(d, zone, removed))
  {
    var d' := RemoveZone(d, zone, removed);
    forall m | m in d'.zones ensures Loads(lib, d'.zones[m], m) {
      assert Loads(lib, d.zones[m], m);
    }
    assert forall k :: k in d.history ==> Loads(lib, d.history[k], k.zone);
  }
}
