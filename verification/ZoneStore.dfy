/** The zone store: revision-checked changes, rollback, creation and deletion, with
    every file operation and the verification by the name server free to fail. */
module ZoneStore {
  import opened Options
  import opened ZoneRecords
  import opened ZoneValidation
  import opened ZoneChanges
  import opened ZoneDisk
  import opened ZoneRuns
  import Text

  datatype Error =
    | NotFound | AlreadyExists | RevisionMismatch | InvalidChange | ReadOnlyZone
    | StorageFailed | NotServed | AuditFailed

  /** How the outside world answers during one operation: reads, the history directory,
      the writes in the order they occur, removals, the name server, and the audit log. */
  datatype World = World(
    readable: bool, rolesReadable: bool, targetReadable: bool,
    historyReady: bool, history: Write, write: Write, restore: Write, roles: Write, rolesRestore: Write,
    rolesReread: bool, removed: bool, served: bool, audited: bool)

  datatype ChangeRequest = ChangeRequest(expectedRevision: string, dryRun: bool, changes: seq<Change>)

  datatype RollbackRequest = RollbackRequest(expectedRevision: string, targetRevision: string, dryRun: bool)

  datatype LifecycleRequest = LifecycleRequest(role: string, zoneText: string, expectedRevision: string, dryRun: bool)

  datatype ChangeResult = ChangeResult(
    zone: string, dryRun: bool, previousRevision: string, revision: string,
    previousSerial: nat, serial: nat, changes: seq<Change>, published: bool)

  datatype LifecycleResult = LifecycleResult(
    zone: string, role: string, revision: string, serial: nat, dryRun: bool, published: bool)

  /** The answer of an operation; a published change whose audit record could not be
      written carries both a result and an error. */
  datatype Answer<T> = Answer(result: Option<T>, error: Option<Error>)

  function Fail<T>(e: Error): Answer<T> {
    Answer(None, Some(e))
  }

  function RoleFor(roles: map<string, string>, zone: string): string {
    if zone in roles && roles[zone] != "" then roles[zone] else "secondary"
  }

  function ValidRole(role: string): Option<string> {
    var r := Text.ToLower(Text.TrimSpace(role));
    if r == "" then Some("primary")
    else if r == "primary" || r == "secondary" then Some(r)
    else None
  }

  /** Errors that say no to the request; the others say that something failed. */
  lemma RoleGiven(role: string)
    ensures var given := Text.ToLower(Text.TrimSpace(role));
            match ValidRole(role)
            case Some(r) => r in {"primary", "secondary"} && (given == r || (given == "" && r == "primary"))
            case None => given !in {"", "primary", "secondary"}
  {
  }

  /** A result tells of the revision and serial from before, and of those that are in the
      zone file afterwards; a dry run publishes nothing. */
  ghost predicate ResultTells(lib: Library, pre: Disk, post: Disk, zone: string, dryRun: bool, r: ChangeResult) {
    && r.zone == zone && zone in pre.zones
    && r.previousRevision == lib.revision(pre.zones[zone]) && r.previousSerial == Serial(pre.zones[zone])
    && r.serial > r.previousSerial && r.dryRun == dryRun && (r.published <==> !dryRun)
    && (r.published ==>
          && zone in post.zones && r.revision == lib.revision(post.zones[zone])
          && r.serial == Serial(post.zones[zone]))
  }

  ghost predicate Told(
    lib: Library, pre: Disk, post: Disk, zone: string, dryRun: bool, r: Answer<ChangeResult>)
  {
    r.result.Some? ==> ResultTells(lib, pre, post, zone, dryRun, r.result.value)
  }

  predicate IsRefusal(e: Error) {
    e in {NotFound, AlreadyExists, RevisionMismatch, InvalidChange, ReadOnlyZone}
  }

  /** What the answer of an operation tells about the disk: a publication is answered
      with success or a failed audit, a refusal changed nothing, and so did a request
      that expected another revision, which is always an error. */
  ghost predicate Answers(
    lib: Library, pre: Disk, post: Disk, zone: string, expected: string, ev: Event, error: Option<Error>)
  {
    && (ev.Published? ==> error.None? || error.value == AuditFailed)
    && (error.Some? && IsRefusal(error.value) ==> post == pre)
    && (zone in pre.zones && lib.revision(pre.zones[zone]) != expected ==> error.Some? && post == pre)
  }

  /** A zone as loaded from a content. */
  ghost predicate IsLoaded(lib: Library, zone: Zone, content: Content) {
    && Loads(lib, content, zone.name)
    && zone == ZoneOf(lib, zone.name, content)
  }

  lemma OnlyName(lib: Library, rrs: seq<RR>, i: nat, name: string)
    requires i < |rrs| && IsSoa(rrs[i])
    ensures ValidZone(lib, name, multiset(rrs)) ==> name == lib.canonical(rrs[i].name)
  {
    assert rrs[i] in multiset(rrs);
  }

  /** `loadPath` without the file read: a content loads exactly when it is a valid
      zone of some name, and then under that name. */
  method LoadContent(lib: Library, content: Content) returns (r: Option<Zone>)
    ensures r.Some? ==> IsLoaded(lib, r.value, content)
    ensures r.None? ==> forall name :: !Loads(lib, content, name)
  {
    if content.Unparsable? {
      return None;
    }
    var rrs := content.rrs;
    SoaIndexFirst(rrs);
    var at := SoaIndex(rrs);
    var count := 0;
    for i := 0 to |rrs|
      invariant count == CountSoa(rrs[..i])
    {
      assert rrs[..i + 1][..i] == rrs[..i];
      if IsSoa(rrs[i]) {
        count := count + 1;
      }
    }
    assert rrs[..|rrs|] == rrs;
    if count != 1 {
      forall name ensures !Loads(lib, content, name) {
        if Loads(lib, content, name) {
          BagImpliesList(lib, name, rrs);
        }
      }
      return None;
    }
    CountSoaMeaning(rrs);
    var origin := lib.canonical(rrs[at.value].name);
    var ok := Validate(lib, origin, rrs);
    if !ok {
      forall name ensures !Loads(lib, content, name) {
        OnlyName(lib, rrs, at.value, name);
      }
      return None;
    }
    FirstSerial(rrs);
    r := Some(Zone(origin, rrs[at.value].serial, lib.revision(content), rrs, content));
  }

  lemma FirstSerial(rrs: seq<RR>)
    ensures SoaIndex(rrs).Some? ==> SoaIndex(rrs).value < |rrs| && SerialOf(rrs) == rrs[SoaIndex(rrs).value].serial
  {
    SoaIndexFirst(rrs);
    if SoaIndex(rrs).Some? {
      WithSerialAt(rrs, SoaIndex(rrs).value, 0);
    }
  }

  /** The content that a commit of `rrs` writes. */
  function Committed(lib: Library, zone: string, rrs: seq<RR>, serial: nat): Content {
    Render(lib, zone, WithSerial(rrs, serial))
  }

  lemma CommittedLoads(lib: Library, zone: string, rrs: seq<RR>, serial: nat)
    requires ValidZone(lib, zone, multiset(rrs))
    ensures Loads(lib, Committed(lib, zone, rrs, serial), zone)
    ensures Serial(Committed(lib, zone, rrs, serial)) == serial
  {
    SerialKeepsValid(lib, zone, rrs, serial);
    RenderLoads(lib, zone, WithSerial(rrs, serial));
  }

  /** The result of a commit is told by its fields. */
  lemma CommitTells(
    lib: Library, pre: Disk, moments: seq<Disk>, post: Disk, current: Zone, rrs: seq<RR>, changes: seq<Change>,
    dryRun: bool, today: Date, w: World, r: Answer<ChangeResult>, ev: Event)
    requires current.name in pre.zones && IsLoaded(lib, current, pre.zones[current.name])
    requires ValidZone(lib, current.name, multiset(rrs))
    requires CommitOutcome(lib, pre, moments, post, current, rrs, changes, dryRun, today, w, r, ev)
    ensures Told(lib, pre, post, current.name, dryRun, r)
  {
    var next := NextSerial(current.serial, today);
    if next.Some? {
      SerialAdvances(current.serial, today);
      CommittedLoads(lib, current.name, rrs, next.value);
      if !dryRun {
        PublishTells(lib, pre, moments, post, current, Committed(lib, current.name, rrs, next.value), next.value,
            changes, w, r, ev);
      }
    }
  }

  lemma PublishTells(
    lib: Library, pre: Disk, moments: seq<Disk>, post: Disk, current: Zone, c: Content, serial: nat,
    changes: seq<Change>, w: World, r: Answer<ChangeResult>, ev: Event)
    requires current.name in pre.zones && IsLoaded(lib, current, pre.zones[current.name])
    requires Serial(c) == serial > current.serial
    requires PublishOutcome(lib, pre, moments, post, current, c, serial, changes, w, r, ev)
    ensures Told(lib, pre, post, current.name, false, r)
  {
  }

  /** What a commit writes, by its records: those given, with the new serial in the SOA,
      which comes first; all in file order. */
  lemma CommittedRecords(lib: Library, zone: string, rrs: seq<RR>, serial: nat) returns (soa: RR)
    requires ValidZone(lib, zone, multiset(rrs))
    ensures IsSoa(soa) && soa in rrs
    ensures var c := Committed(lib, zone, rrs, serial);
            && c.Content? && c.origin == zone && FileOrder(lib, zone, c.rrs)
            && multiset(c.rrs) == multiset(rrs) - multiset{soa} + multiset{soa.(serial := serial)}
            && c.rrs != [] && c.rrs[0] == soa.(serial := serial)
  {
    soa := SerialBag(lib, zone, rrs, serial);
    var bumped := soa.(serial := serial);
    RenderOrdered(lib, zone, WithSerial(rrs, serial));
    FirstOf(Committed(lib, zone, rrs, serial).rrs, multiset(WithSerial(rrs, serial)), bumped);
  }

  lemma SerialBag(lib: Library, zone: string, rrs: seq<RR>, serial: nat) returns (soa: RR)
    requires ValidZone(lib, zone, multiset(rrs))
    ensures IsSoa(soa) && soa in rrs
    ensures var bag, bumped := multiset(WithSerial(rrs, serial)), soa.(serial := serial);
            && bag == multiset(rrs) - multiset{soa} + multiset{bumped}
            && bumped in bag && bumped in WithSerial(rrs, serial)
            && forall rr :: rr in bag && IsSoa(rr) ==> rr == bumped
  {
    var i := ValidHasSoa(lib, zone, rrs);
    soa := rrs[i];
    var bumped := soa.(serial := serial);
    WithSerialAt(rrs, i, serial);
    ReplaceOne(rrs, i, bumped);
    assert WithSerial(rrs, serial)[i] == bumped;
    BumpedBag(multiset(rrs), soa, bumped);
  }

  lemma FirstOf(rrs: seq<RR>, bag: multiset<RR>, bumped: RR)
    requires multiset(rrs) == bag && bumped in bag && forall rr :: rr in bag && IsSoa(rr) ==> rr == bumped
    requires rrs != [] ==> IsSoa(rrs[0])
    ensures rrs != [] && rrs[0] == bumped
  {
    assert bumped in multiset(rrs);
    assert rrs[0] in multiset(rrs);
  }

  /** The order the records were given in does not matter. */
  lemma CommittedSame(lib: Library, zone: string, a: seq<RR>, b: seq<RR>, serial: nat)
    requires ValidZone(lib, zone, multiset(a)) && multiset(a) == multiset(b)
    requires KeysTellApart(lib, zone, multiset(WithSerial(a, serial)))
    ensures Committed(lib, zone, a, serial) == Committed(lib, zone, b, serial)
  {
    var i := ValidHasSoa(lib, zone, a);
    var j := ValidHasSoa(lib, zone, b);
    assert a[i] == b[j];
    WithSerialAt(a, i, serial);
    WithSerialAt(b, j, serial);
    ReplaceOne(a, i, a[i].(serial := serial));
    ReplaceOne(b, j, a[i].(serial := serial));
    RenderUnique(lib, zone, WithSerial(a, serial), WithSerial(b, serial));
  }

  /** Whether the current content is safely in the history before it is replaced. */
  predicate HistoryKept(lib: Library, d: Disk, zone: string, w: World)
    requires zone in d.zones
  {
    w.historyReady && (HistoryKey(zone, lib.revision(d.zones[zone])) in d.history || w.history == Done)
  }

  /** A zone as its file says. */
  ghost function ZoneOf(lib: Library, name: string, c: Content): Zone {
    Zone(name, Serial(c), lib.revision(c), if c.Content? then c.rrs else [], c)
  }

  /** The checks that `Apply` and `Rollback` make before they look at the change. */
  function AccessRefusal(
    lib: Library, usable: string -> bool, d: Disk, name: string, expected: string, w: World): Option<Error>
  {
    var zone := lib.canonical(name);
    if !usable(zone) then Some(InvalidChange)
    else if zone !in d.zones then Some(NotFound)
    else if !w.readable || !w.rolesReadable then Some(StorageFailed)
    else if RoleFor(d.roles, zone) != "primary" then Some(ReadOnlyZone)
    else if expected == "" || expected != lib.revision(d.zones[zone]) then Some(RevisionMismatch)
    else None
  }

  /** What `Apply` does with the current zone: a change that does not apply, or gives
      an invalid zone, is refused; the others are committed. */
  ghost predicate ApplyOutcome(
    lib: Library, codec: Codec, pre: Disk, moments: seq<Disk>, post: Disk, current: Zone, request: ChangeRequest,
    today: Date, w: World,
    r: Answer<ChangeResult>, ev: Event)
    requires current.name in pre.zones
  {
    var applied := ApplyAll(lib, codec, current.name, current.rrs, request.changes);
    if request.changes == [] || applied.None? || !ValidZone(lib, current.name, multiset(applied.value))
    then r == Fail(InvalidChange) && post == pre && moments == [] && ev == Quiet
    else CommitOutcome(lib, pre, moments, post, current, applied.value, request.changes, request.dryRun, today, w, r,
        ev)
  }

  /** The checks of `Rollback` on its target. */
  function TargetRefusal(
    wellFormed: string -> bool, d: Disk, current: Zone, target: string, readable: bool): Option<Error>
  {
    if !wellFormed(target) || target == current.revision then Some(InvalidChange)
    else if HistoryKey(current.name, target) !in d.history then Some(NotFound)
    else if !readable then Some(StorageFailed)
    else None
  }

  /** What `Rollback` does with the current zone: it commits the records of the target
      revision, and reports the difference. */
  ghost predicate RollbackOutcome(
    lib: Library, codec: Codec, wellFormed: string -> bool, pre: Disk, moments: seq<Disk>, post: Disk, current: Zone,
    request: RollbackRequest, today: Date, w: World,
    r: Answer<ChangeResult>, ev: Event)
    requires current.name in pre.zones
  {
    match TargetRefusal(wellFormed, pre, current, request.targetRevision, w.targetReadable)
    case Some(e) => r == Fail(e) && post == pre && moments == [] && ev == Quiet
    case None =>
      var target := ZoneOf(lib, current.name, pre.history[HistoryKey(current.name, request.targetRevision)]);
      exists from, to ::
        && Groups(lib, from, current.rrs) && Groups(lib, to, target.rrs)
        && CommitOutcome(lib, pre, moments, post, current, target.rrs, Diff(codec, from, to), request.dryRun, today, w,
             r, ev)
  }

  /** How publishing a new content in place of the current one ends. */
  datatype Publication = NotSaved | NotWritten | TakenBack | Served

  function PublicationOf(lib: Library, d: Disk, zone: string, w: World): Publication
    requires zone in d.zones
  {
    if !HistoryKept(lib, d, zone, w) then NotSaved
    else if w.write != Done then NotWritten
    else if !w.served then TakenBack
    else Served
  }

  /** The zone files after each of these endings: the old content or the new one, and
      the new one for certain only if it was served. */
  function ZonesAfter(lib: Library, d: Disk, zone: string, c: Content, w: World): map<string, Content>
    requires zone in d.zones
  {
    match PublicationOf(lib, d, zone, w)
    case NotSaved => d.zones
    case NotWritten => if w.write == FailedBefore then d.zones else d.zones[zone := c]
    case TakenBack => if w.restore == FailedBefore then d.zones[zone := c] else d.zones
    case Served => d.zones[zone := c]
  }

  function ResultOf(
    lib: Library, current: Zone, c: Content, serial: nat, changes: seq<Change>, dryRun: bool, published: bool)
    : ChangeResult
  {
    ChangeResult(current.name, dryRun, current.revision, lib.revision(c), current.serial, serial, changes, published)
  }

  /** What a commit answers and leaves on disk. */
  ghost predicate CommitOutcome(
    lib: Library, pre: Disk, moments: seq<Disk>, post: Disk, current: Zone, rrs: seq<RR>, changes: seq<Change>,
    dryRun: bool, today: Date, w: World,
    r: Answer<ChangeResult>, ev: Event)
    requires current.name in pre.zones
  {
    var next := NextSerial(current.serial, today);
    if next.None? then r == Fail(InvalidChange) && post == pre && moments == [] && ev == Quiet
    else
      var c := Committed(lib, current.name, rrs, next.value);
      if dryRun then
        && r == Answer(Some(ResultOf(lib, current, c, next.value, changes, true, false)), None)
        && post == pre && moments == [] && ev == Quiet
      else PublishOutcome(lib, pre, moments, post, current, c, next.value, changes, w, r, ev)
  }

  ghost predicate PublishOutcome(
    lib: Library, pre: Disk, moments: seq<Disk>, post: Disk, current: Zone, c: Content, serial: nat,
    changes: seq<Change>, w: World,
    r: Answer<ChangeResult>, ev: Event)
    requires current.name in pre.zones
  {
    && (if ev.TookBack? then PutBack(pre, moments, current.name, c) else Forward(pre, moments, current.name, c))
    && post == LastOf(pre, moments)
    && post.zones == ZonesAfter(lib, pre, current.name, c, w)
    && post.roles == pre.roles
    && match PublicationOf(lib, pre, current.name, w)
       case NotSaved => r == Fail(StorageFailed) && ev == Quiet && post.audit == pre.audit
       case NotWritten => r == Fail(StorageFailed) && ev == Quiet && post.audit == pre.audit
       case TakenBack =>
         && r == Fail(NotServed) && post.audit == pre.audit
         && ev == if w.restore == FailedBefore then Quiet else TookBack(current.name)
       case Served =>
         && ev == Published(current.name, current.revision, c)
         && var result := ResultOf(lib, current, c, serial, changes, false, true);
            var record := AuditEvent(current.name, current.revision, lib.revision(c), current.serial, serial);
            && r == Answer(Some(result), if w.audited then None else Some(AuditFailed))
            && post.audit == pre.audit + (if w.audited then [record] else [])
  }

  /** The content that a commit of these records would publish today. */
  ghost function NextContent(lib: Library, current: Zone, rrs: seq<RR>, today: Date): Content {
    var next := NextSerial(current.serial, today);
    Committed(lib, current.name, rrs, if next.Some? then next.value else 0)
  }

  /** A commit that took its content back had it on disk, and left the zones as they were. */
  lemma TookBackCommit(
    lib: Library, pre: Disk, moments: seq<Disk>, post: Disk, current: Zone, rrs: seq<RR>, changes: seq<Change>,
    today: Date, w: World, r: Answer<ChangeResult>)
    requires current.name in pre.zones
    requires CommitOutcome(lib, pre, moments, post, current, rrs, changes, false, today, w, r, TookBack(current.name))
    ensures NextSerial(current.serial, today).Some? && post.zones == pre.zones
    ensures var c := NextContent(lib, current, rrs, today);
            exists i :: 0 <= i < |moments| && moments[i].zones == pre.zones[current.name := c]
  {
    var c := NextContent(lib, current, rrs, today);
    var a: nat, b: nat :| Phases(pre, moments, current.name, c, a, b) && a < b < |moments|;
    assert moments[a].zones == pre.zones[current.name := c];
  }

  /** What a commit publishes, if it does. */
  lemma PublishedContent(
    lib: Library, pre: Disk, moments: seq<Disk>, post: Disk, current: Zone, rrs: seq<RR>, changes: seq<Change>,
    dryRun: bool, today: Date, w: World, r: Answer<ChangeResult>, ev: Event)
    requires current.name in pre.zones && ev.Published?
    requires CommitOutcome(lib, pre, moments, post, current, rrs, changes, dryRun, today, w, r, ev)
    ensures NextSerial(current.serial, today).Some?
    ensures current.name in post.zones && post.zones[current.name] == ev.content == NextContent(lib, current, rrs, today)
  {
  }

  lemma NextNewer(lib: Library, current: Zone, rrs: seq<RR>, today: Date)
    requires NextSerial(current.serial, today).Some? && ValidZone(lib, current.name, multiset(rrs))
    ensures var serial := Serial(NextContent(lib, current, rrs, today));
            && (NewerSerial(current.serial, serial) <==> DateSerial(today) < current.serial + 0x8000_0000)
            && (CalendarDate(today) && today.year <= 2147 ==> NewerSerial(current.serial, serial))
  {
    SerialAdvances(current.serial, today);
    CommittedLoads(lib, current.name, rrs, NextSerial(current.serial, today).value);
  }

  /** What is published is newer for secondaries, by section 3.2 of RFC 1982, exactly
      unless the date serial is 2^31 or more ahead of the old serial; up to the year 2147
      it always is. */
  lemma PublishedNewer(
    lib: Library, pre: Disk, moments: seq<Disk>, post: Disk, current: Zone, rrs: seq<RR>, changes: seq<Change>,
    dryRun: bool, today: Date, w: World, r: Answer<ChangeResult>, ev: Event)
    requires current.name in pre.zones && current.serial == Serial(pre.zones[current.name])
    requires ValidZone(lib, current.name, multiset(rrs)) && ev.Published?
    requires CommitOutcome(lib, pre, moments, post, current, rrs, changes, dryRun, today, w, r, ev)
    ensures var old_ := Serial(pre.zones[current.name]);
            NewerSerial(old_, Serial(ev.content)) <==> DateSerial(today) < old_ + 0x8000_0000
    ensures CalendarDate(today) && today.year <= 2147 ==>
              NewerSerial(Serial(pre.zones[current.name]), Serial(ev.content))
  {
    PublishedContent(lib, pre, moments, post, current, rrs, changes, dryRun, today, w, r, ev);
    NextNewer(lib, current, rrs, today);
  }

  /** A publication is an operation on the zone at its current revision. */
  lemma PublishOperates(
    lib: Library, pre: Disk, moments: seq<Disk>, post: Disk, current: Zone, c: Content, serial: nat,
    changes: seq<Change>,
    w: World, r: Answer<ChangeResult>, ev: Event)
    requires current.name in pre.zones && lib.revision(pre.zones[current.name]) == current.revision
    requires Serial(pre.zones[current.name]) < Serial(c)
    requires Transition(lib, pre, post, ev) && AllEvolve(lib, pre, moments)
    requires PublishOutcome(lib, pre, moments, post, current, c, serial, changes, w, r, ev)
    ensures Operates(lib, pre, moments, post, current.name, current.revision, ev)
  {
    if ev.TookBack? {
      PutBackMoments(pre, moments, current.name, c);
    } else {
      ForwardRises(pre, moments, current.name, c);
    }
    NewConfined(lib, pre, moments, current.name, c, current.revision);
  }

  lemma WrittenForward(pre: Disk, before: seq<Disk>, d: Disk, zone: string, c: Content)
    requires forall i :: 0 <= i < |before| ==> before[i].zones == pre.zones
    requires d.zones == pre.zones || d.zones == pre.zones[zone := c]
    ensures Forward(pre, before + [d], zone, c)
  {
    var a := |before|;
    assert Phases(pre, before + [d], zone, c, if d.zones == pre.zones then a + 1 else a, a + 1);
  }

  lemma RestoredBack(pre: Disk, before: seq<Disk>, d: Disk, d': Disk, zone: string, c: Content)
    requires forall i :: 0 <= i < |before| ==> before[i].zones == pre.zones
    requires d.zones == pre.zones[zone := c]
    ensures d'.zones == pre.zones ==> PutBack(pre, before + [d, d'], zone, c)
    ensures d'.zones == pre.zones[zone := c] ==> Forward(pre, before + [d, d'], zone, c)
  {
    var a := |before|;
    if d'.zones == pre.zones {
      assert Phases(pre, before + [d, d'], zone, c, a, a + 1);
    }
    if d'.zones == pre.zones[zone := c] {
      assert Phases(pre, before + [d, d'], zone, c, a, a + 2);
    }
  }

  lemma StillForward(pre: Disk, moments: seq<Disk>, d: Disk, zone: string, c: Content)
    requires Forward(pre, moments, zone, c) && LastOf(pre, moments).zones == d.zones == pre.zones[zone := c]
    ensures Forward(pre, moments + [d], zone, c)
  {
    var a: nat :| Phases(pre, moments, zone, c, a, |moments|);
    assert Phases(pre, moments + [d], zone, c, a, |moments| + 1);
  }

  /** A zone text ready to be written as a new zone. */
  datatype Import = Import(role: string, content: Content, serial: nat)

  ghost predicate Importable(lib: Library, zone: string, request: LifecycleRequest, parsed: Option<seq<RR>>) {
    && ValidRole(request.role).Some?
    && Text.TrimSpace(request.zoneText) != ""
    && parsed.Some?
    && ValidZone(lib, zone, multiset(parsed.value))
  }

  /** How the file part of `Create` ends, and the zone files and roles it then leaves:
      after an error the zone file is gone again, unless the write failed late or the
      removal failed. */
  function InstallError(w: World): Option<Error> {
    if !w.rolesReadable || w.write != Done || w.roles != Done then Some(StorageFailed)
    else if !w.served then Some(NotServed)
    else None
  }

  function InstalledZones(pre: Disk, zone: string, c: Content, w: World): map<string, Content> {
    if !w.rolesReadable || w.write == FailedBefore then pre.zones
    else if w.write == Done && InstallError(w).Some? && w.removed then pre.zones
    else pre.zones[zone := c]
  }

  function InstalledRoles(pre: Disk, zone: string, role: string, w: World): map<string, string> {
    if !w.rolesReadable || w.write != Done || w.roles == FailedBefore then pre.roles
    else if w.roles == Done && !w.served && w.rolesRestore != FailedBefore then pre.roles - {zone}
    else pre.roles[zone := role]
  }

  /** What `Create` does with a zone that is not there. */
  ghost predicate InstallOutcome(
    lib: Library, pre: Disk, moments: seq<Disk>, post: Disk, zone: string, imported: Import, dryRun: bool, w: World,
    r: Answer<LifecycleResult>)
  {
    var revision := lib.revision(imported.content);
    if dryRun then
      && post == pre && moments == []
      && r == Answer(Some(LifecycleResult(zone, imported.role, revision, imported.serial, true, false)), None)
    else
      && OldOrNew(pre, moments, zone, imported.content) && post == LastOf(pre, moments)
      && post.zones == InstalledZones(pre, zone, imported.content, w)
      && post.roles == InstalledRoles(pre, zone, imported.role, w)
      && post.history == pre.history
      && match InstallError(w)
         case Some(e) => r == Fail(e) && post.audit == pre.audit
         case None =>
           && r == Answer(Some(LifecycleResult(zone, imported.role, revision, imported.serial, false, true)), None)
           && post.audit == pre.audit + (if w.audited then [AuditEvent(zone, "", revision, 0, imported.serial)] else [])
  }

  /** The checks of `Delete`; any role may be deleted. */
  function DeleteRefusal(
    lib: Library, usable: string -> bool, d: Disk, name: string, expected: string, w: World): Option<Error>
  {
    var zone := lib.canonical(name);
    if !usable(zone) then Some(InvalidChange)
    else if zone !in d.zones then Some(NotFound)
    else if !w.readable || !w.rolesReadable then Some(StorageFailed)
    else if expected == "" || expected != lib.revision(d.zones[zone]) then Some(RevisionMismatch)
    else None
  }

  /** How the file part of `Delete` ends, and the zone files and roles it then leaves.
      The file is gone after an error only if the roles could not be read again or the
      content could not be put back. */
  function UninstallError(lib: Library, pre: Disk, zone: string, w: World): Option<Error>
    requires zone in pre.zones
  {
    if !HistoryKept(lib, pre, zone, w) || !w.removed then Some(StorageFailed) else ForgetError(w)
  }

  function UninstalledZones(lib: Library, pre: Disk, zone: string, w: World): map<string, Content>
    requires zone in pre.zones
  {
    if !HistoryKept(lib, pre, zone, w) || !w.removed then pre.zones else ForgottenZones(pre, zone, w)
  }

  function UninstalledRoles(lib: Library, pre: Disk, zone: string, role: string, w: World): map<string, string>
    requires zone in pre.zones
  {
    if !HistoryKept(lib, pre, zone, w) || !w.removed then pre.roles else ForgottenRoles(pre.roles, zone, role, w)
  }

  /** The same for the part after the zone file was removed. */
  function ForgetError(w: World): Option<Error> {
    if !w.rolesReread || w.roles != Done then Some(StorageFailed) else if !w.served then Some(NotServed) else None
  }

  function ForgottenZones(pre: Disk, zone: string, w: World): map<string, Content> {
    if w.rolesReread && ForgetError(w).Some? && w.restore != FailedBefore then pre.zones else pre.zones - {zone}
  }

  function ForgottenRoles(roles: map<string, string>, zone: string, role: string, w: World): map<string, string> {
    if !w.rolesReread || w.roles == FailedBefore then roles
    else if w.roles == Done && !w.served && w.rolesRestore != FailedBefore then roles[zone := role]
    else roles - {zone}
  }

  /** Everything but the answer and the audit record of a deletion. */
  ghost predicate Uninstalled(
    lib: Library, pre: Disk, moments: seq<Disk>, post: Disk, zone: string, role: string, w: World)
    requires zone in pre.zones
  {
    && OldOrGone(pre, moments, zone) && post == LastOf(pre, moments)
    && post.zones == UninstalledZones(lib, pre, zone, w)
    && post.roles == UninstalledRoles(lib, pre, zone, role, w)
    && (zone !in post.zones ==> Saved(lib, post, zone, pre.zones[zone]))
  }

  ghost predicate DeleteOutcome(
    lib: Library, pre: Disk, moments: seq<Disk>, post: Disk, zone: string, dryRun: bool, w: World,
    r: Answer<LifecycleResult>)
    requires zone in pre.zones
  {
    var c, role := pre.zones[zone], RoleFor(pre.roles, zone);
    if dryRun then
      && post == pre && moments == []
      && r == Answer(Some(LifecycleResult(zone, role, lib.revision(c), Serial(c), true, false)), None)
    else
      && Uninstalled(lib, pre, moments, post, zone, role, w)
      && match UninstallError(lib, pre, zone, w)
         case Some(e) => r == Fail(e) && post.audit == pre.audit
         case None =>
           && r == Answer(Some(LifecycleResult(zone, role, lib.revision(c), Serial(c), false, true)), None)
           && var record := AuditEvent(zone, lib.revision(c), "", Serial(c), 0);
              post.audit == pre.audit + (if w.audited then [record] else [])
  }

  /** What is left of a failed operation, for each of them: nothing, unless a write failed
      after taking effect or what undoes it failed too. */
  lemma FailedCommitUndone(lib: Library, pre: Disk, zone: string, c: Content, w: World)
    requires zone in pre.zones && c != pre.zones[zone]
    ensures var saved := HistoryKept(lib, pre, zone, w);
            && (PublicationOf(lib, pre, zone, w) == Served <==> saved && w.write == Done && w.served)
            && (ZonesAfter(lib, pre, zone, c, w) == pre.zones <==>
                  || !saved || w.write == FailedBefore
                  || (w.write == Done && !w.served && w.restore != FailedBefore))
            && (ZonesAfter(lib, pre, zone, c, w) != pre.zones ==>
                  ZonesAfter(lib, pre, zone, c, w) == pre.zones[zone := c])
  {
    assert pre.zones[zone := c][zone] == c;
  }

  lemma FailedCreationUndone(pre: Disk, zone: string, c: Content, role: string, w: World)
    requires zone !in pre.zones
    ensures InstallError(w).None? <==> w.rolesReadable && w.write == Done && w.roles == Done && w.served
    ensures InstallError(w).None? ==>
              InstalledZones(pre, zone, c, w) == pre.zones[zone := c]
              && InstalledRoles(pre, zone, role, w) == pre.roles[zone := role]
    ensures InstallError(w).Some? && w.removed && w.write != FailedAfter ==> InstalledZones(pre, zone, c, w) == pre.zones
    ensures InstallError(w) == Some(NotServed) && w.rolesRestore != FailedBefore && zone !in pre.roles ==>
              InstalledRoles(pre, zone, role, w) == pre.roles
  {
  }

  lemma FailedDeletionUndone(lib: Library, pre: Disk, zone: string, role: string, w: World)
    requires zone in pre.zones
    ensures UninstallError(lib, pre, zone, w).None? <==>
            HistoryKept(lib, pre, zone, w) && w.removed && w.rolesReread && w.roles == Done && w.served
    ensures UninstallError(lib, pre, zone, w).None? ==>
              UninstalledZones(lib, pre, zone, w) == pre.zones - {zone}
              && UninstalledRoles(lib, pre, zone, role, w) == pre.roles - {zone}
    ensures UninstallError(lib, pre, zone, w).Some? && w.rolesReread && w.restore != FailedBefore ==>
              UninstalledZones(lib, pre, zone, w) == pre.zones
    ensures UninstallError(lib, pre, zone, w) == Some(NotServed) && w.rolesRestore != FailedBefore
            && zone in pre.roles && role == pre.roles[zone] ==>
              UninstalledRoles(lib, pre, zone, role, w) == pre.roles
  {
  }

  /** Access is granted exactly to a readable primary zone over its own revision, and each
      refusal has its own reason. */
  lemma AccessGranted(lib: Library, usable: string -> bool, d: Disk, name: string, expected: string, w: World)
    ensures var zone := lib.canonical(name);
            var current := zone in d.zones && expected != "" && expected == lib.revision(d.zones[zone]);
            match AccessRefusal(lib, usable, d, name, expected, w)
            case None =>
              && usable(zone) && current && w.readable && w.rolesReadable
              && zone in d.roles && d.roles[zone] == "primary"
            case Some(e) =>
              && (e == InvalidChange <==> !usable(zone))
              && (e == NotFound ==> zone !in d.zones)
              && (e == StorageFailed ==> !w.readable || !w.rolesReadable)
              && (e == ReadOnlyZone ==> zone !in d.roles || d.roles[zone] != "primary")
              && (e == RevisionMismatch ==> !current)
              && e in {InvalidChange, NotFound, StorageFailed, ReadOnlyZone, RevisionMismatch}
  {
  }

  /** A rollback goes to another revision of the zone that is in history and readable. */
  lemma TargetGranted(wellFormed: string -> bool, d: Disk, current: Zone, target: string, readable: bool)
    ensures match TargetRefusal(wellFormed, d, current, target, readable)
            case None =>
              && wellFormed(target) && target != current.revision && readable
              && HistoryKey(current.name, target) in d.history
            case Some(e) =>
              && (e == InvalidChange <==> !wellFormed(target) || target == current.revision)
              && (e == NotFound ==> HistoryKey(current.name, target) !in d.history)
              && (e == StorageFailed ==> !readable)
              && e in {InvalidChange, NotFound, StorageFailed}
  {
  }

  /** A deletion needs no primary role. */
  lemma DeletionGranted(lib: Library, usable: string -> bool, d: Disk, name: string, expected: string, w: World)
    ensures var zone := lib.canonical(name);
            var current := zone in d.zones && expected != "" && expected == lib.revision(d.zones[zone]);
            match DeleteRefusal(lib, usable, d, name, expected, w)
            case None => usable(zone) && current && w.readable && w.rolesReadable
            case Some(e) =>
              && (e == InvalidChange <==> !usable(zone))
              && (e == NotFound ==> zone !in d.zones)
              && (e == StorageFailed ==> !w.readable || !w.rolesReadable)
              && (e == RevisionMismatch ==> !current)
              && e in {InvalidChange, NotFound, StorageFailed, RevisionMismatch}
  {
  }

  lemma RemovedUninstalls(
    lib: Library, pre: Disk, mid: Disk, moments: seq<Disk>, post: Disk, zone: string, role: string, w: World)
    requires zone in pre.zones && HistoryKept(lib, pre, zone, w) && Saved(lib, mid, zone, pre.zones[zone])
    requires post.history == mid.history && OldOrGone(pre, moments, zone) && post == LastOf(pre, moments)
    requires post.zones == if w.removed then ForgottenZones(pre, zone, w) else pre.zones
    requires post.roles == if w.removed then ForgottenRoles(pre.roles, zone, role, w) else pre.roles
    ensures Uninstalled(lib, pre, moments, post, zone, role, w)
  {
  }

  lemma NewOperates(lib: Library, pre: Disk, moments: seq<Disk>, post: Disk, zone: string, c: Content, expected: string)
    requires Evolves(lib, pre, post) && Sound(lib, post) && AllEvolve(lib, pre, moments) && post == LastOf(pre, moments)
    requires OldOrNew(pre, moments, zone, c) && zone !in pre.zones
    ensures Operates(lib, pre, moments, post, zone, expected, Quiet)
  {
    NewRises(pre, moments, zone, c);
    NewConfined(lib, pre, moments, zone, c, expected);
  }

  lemma GoneOperates(lib: Library, pre: Disk, moments: seq<Disk>, post: Disk, zone: string, expected: string)
    requires Evolves(lib, pre, post) && Sound(lib, post) && AllEvolve(lib, pre, moments) && post == LastOf(pre, moments)
    requires OldOrGone(pre, moments, zone) && zone in pre.zones && lib.revision(pre.zones[zone]) == expected
    ensures Operates(lib, pre, moments, post, zone, expected, Quiet)
  {
    GoneRises(pre, moments, zone);
    GoneConfined(lib, pre, moments, zone, expected);
  }

  class Store {
    const lib: Library
    const codec: Codec
    /** Which canonical names are usable as zone names. */
    const usable: string -> bool
    /** The zone parser, for zone text given under an origin. */
    const parseText: (string, string) -> Option<seq<RR>>
    /** Which strings have the form of a revision. */
    const wellFormed: string -> bool
    var disk: Disk
    /** The states the disk passed through during the current operation. */
    ghost var moments: seq<Disk>

    ghost predicate Valid()
      reads this
    {
      CollisionFree(lib) && Consistent()
    }

    /** The files alone are in order. */
    ghost predicate Consistent()
      reads this
    {
      Sound(lib, disk)
    }

    constructor (lib: Library, codec: Codec, usable: string -> bool, parseText: (string, string) -> Option<seq<RR>>,
                 wellFormed: string -> bool, disk: Disk)
      requires CollisionFree(lib) && Sound(lib, disk)
      ensures Valid() && this.lib == lib && this.disk == disk && moments == []
    {
      this.lib, this.codec, this.usable, this.parseText, this.wellFormed, this.disk :=
          lib, codec, usable, parseText, wellFormed, disk;
      moments := [];
    }

    /** A state is reached: every moment of an operation is recorded. */
    method Reach(next: Disk, ghost start: Disk)
      requires AllEvolve(lib, start, moments) && Evolves(lib, start, next) && Sound(lib, next)
      modifies this
      ensures disk == next && AllEvolve(lib, start, moments) && moments == old(moments) + [disk]
    {
      disk := next;
      moments := moments + [next];
    }

    /** `Get` */
    method Get(name: string, w: World) returns (r: Answer<Zone>, role: string)
      requires Valid()
      ensures r.error.None? <==> r.result.Some?
      ensures r.result.Some? <==>
              usable(lib.canonical(name)) && lib.canonical(name) in disk.zones && w.readable && w.rolesReadable
      ensures r.result.Some? ==>
                && r.result.value.name == lib.canonical(name)
                && IsLoaded(lib, r.result.value, disk.zones[lib.canonical(name)])
                && role == RoleFor(disk.roles, lib.canonical(name))
      ensures r.result.None? ==>
                r == Fail(if !usable(lib.canonical(name)) then InvalidChange
                          else if lib.canonical(name) !in disk.zones then NotFound
                          else StorageFailed)
    {
      role := "";
      var canonical := lib.canonical(name);
      if !usable(canonical) {
        return Fail(InvalidChange), role;
      }
      if canonical !in disk.zones {
        return Fail(NotFound), role;
      }
      if !w.readable {
        return Fail(StorageFailed), role;
      }
      assert Loads(lib, disk.zones[canonical], canonical);
      var zone := LoadContent(lib, disk.zones[canonical]);
      if zone.None? {
        return Fail(InvalidChange), role;
      }
      LoadsOnce(lib, disk.zones[canonical], zone.value.name, canonical);
      if zone.value.name != canonical {
        return Fail(InvalidChange), role;
      }
      if !w.rolesReadable {
        return Fail(StorageFailed), role;
      }
      r := Answer(Some(zone.value), None);
      role := RoleFor(disk.roles, canonical);
    }

    /** `saveHistory` */
    method SaveCurrent(zone: string, ready: bool, w: Write) returns (ok: bool)
      requires Valid() && zone in disk.zones && moments == []
      modifies this
      ensures disk == if ready then SaveHistory(lib, old(disk), zone, w) else old(disk)
      ensures Valid() && AllEvolve(lib, old(disk), moments) && Evolves(lib, old(disk), disk)
      ensures ok == (ready && (HistoryKey(zone, lib.revision(old(disk).zones[zone])) in old(disk).history || w == Done))
      ensures ok ==> Saved(lib, disk, zone, old(disk).zones[zone])
      ensures moments == [disk] || (moments == [] && disk == old(disk))
    {
      EvolvesSame(lib, disk);
      if !ready {
        return false;
      }
      HistoryEvolves(lib, disk, zone, w);
      HistoryLoads(lib, disk, zone, w);
      var key := HistoryKey(zone, lib.revision(disk.zones[zone]));
      if key in disk.history {
        return true;
      }
      Reach(WriteHistory(disk, key, disk.zones[zone], w), disk);
      ok := w == Done;
    }

    /** `writeAtomic` on a zone file, once it is clear that the content may go there. */
    method PutZone(zone: string, c: Content, w: Write, ghost start: Disk) returns (ok: bool)
      requires Consistent() && AllEvolve(lib, start, moments) && Evolves(lib, start, disk) && Loads(lib, c, zone)
      requires zone in start.zones ==>
                 c == start.zones[zone]
                     || (Saved(lib, disk, zone, start.zones[zone]) && Serial(c) > Serial(start.zones[zone]))
      modifies this
      ensures disk == WriteZone(old(disk), zone, c, w) && ok == (w == Done) && moments == old(moments) + [disk]
      ensures Consistent() && AllEvolve(lib, start, moments) && Evolves(lib, start, disk)
    {
      WriteEvolves(lib, start, disk, zone, c, w);
      WriteSound(lib, disk, zone, c, w);
      Reach(WriteZone(disk, zone, c, w), start);
      ok := w == Done;
    }

    /** Write the new content over the saved one, wait, and take it back on failure. */
    method Swap(current: Zone, content: Content, w: World, ghost start: Disk) returns (p: Publication)
      requires Consistent() && AllEvolve(lib, start, moments) && Evolves(lib, start, disk)
      requires current.name in start.zones && current.content == start.zones[current.name] && disk.zones == start.zones
      requires Loads(lib, content, current.name) && Loads(lib, current.content, current.name)
      requires Saved(lib, disk, current.name, current.content) && Serial(content) > Serial(current.content)
      requires forall i :: 0 <= i < |moments| ==> moments[i].zones == start.zones
      modifies this
      ensures moments != [] && disk == LastOf(start, moments)
      ensures if p == TakenBack && w.restore != FailedBefore then PutBack(start, moments, current.name, content)
              else Forward(start, moments, current.name, content)
      ensures Consistent() && AllEvolve(lib, start, moments) && Evolves(lib, start, disk)
      ensures p == if w.write != Done then NotWritten else if !w.served then TakenBack else Served
      ensures disk.zones == if w.write == FailedBefore || (p == TakenBack && w.restore != FailedBefore) then start.zones
                            else start.zones[current.name := content]
      ensures disk.roles == old(disk).roles && disk.audit == old(disk).audit
    {
      ghost var before := moments;
      var written := PutZone(current.name, content, w.write, start);
      WrittenForward(start, before, disk, current.name, content);
      if !written {
        return NotWritten;
      }
      if !w.served {
        ghost var shown := disk;
        var restored := PutZone(current.name, current.content, w.restore, start);
        assert w.restore != FailedBefore ==> disk.zones == start.zones;
        RestoredBack(start, before, shown, disk, current.name, content);
        assert moments == before + [shown, disk];
        return TakenBack;
      }
      p := Served;
    }

    /** The file part of `commit`: save the current content, then swap. */
    method Replace(current: Zone, content: Content, w: World) returns (p: Publication)
      requires Valid() && moments == [] && current.name in disk.zones && current.content == disk.zones[current.name]
      requires Loads(lib, content, current.name) && Serial(content) > Serial(current.content)
      modifies this
      ensures Valid() && Evolves(lib, old(disk), disk) && AllEvolve(lib, old(disk), moments)
      ensures disk == LastOf(old(disk), moments)
      ensures if p == TakenBack && w.restore != FailedBefore then PutBack(old(disk), moments, current.name, content)
              else Forward(old(disk), moments, current.name, content)
      ensures p == PublicationOf(lib, old(disk), current.name, w)
      ensures disk.zones == ZonesAfter(lib, old(disk), current.name, content, w)
      ensures disk.roles == old(disk).roles && disk.audit == old(disk).audit
    {
      ghost var start := disk;
      assert Loads(lib, disk.zones[current.name], current.name);
      var saved := SaveCurrent(current.name, w.historyReady, w.history);
      if !saved {
        assert Phases(start, moments, current.name, content, |moments|, |moments|);
        return NotSaved;
      }
      p := Swap(current, content, w, start);
    }

    method Publish(current: Zone, content: Content, serial: nat, changes: seq<Change>, w: World)
      returns (r: Answer<ChangeResult>, ghost ev: Event)
      requires Valid() && moments == [] && current.name in disk.zones
      requires IsLoaded(lib, current, disk.zones[current.name])
      requires Loads(lib, content, current.name) && Serial(content) > current.serial
      modifies this
      ensures Valid() && Operates(lib, old(disk), moments, disk, current.name, current.revision, ev)
      ensures Answers(lib, old(disk), disk, current.name, current.revision, ev, r.error)
      ensures PublishOutcome(lib, old(disk), moments, disk, current, content, serial, changes, w, r, ev)
    {
      ev := Quiet;
      ghost var start := disk;
      var p := Replace(current, content, w);
      if p == TakenBack {
        ev := if w.restore == FailedBefore then Quiet else TookBack(current.name);
        r := Fail(NotServed);
        PublishOperates(lib, start, moments, disk, current, content, serial, changes, w, r, ev);
        return;
      }
      if p != Served {
        r := Fail(StorageFailed);
        PublishOperates(lib, start, moments, disk, current, content, serial, changes, w, r, ev);
        return;
      }
      ev := Published(current.name, current.revision, content);
      if w.audited {
        ghost var before := moments;
        AppendAudit(AuditEvent(current.name, current.revision, lib.revision(content), current.serial, serial), start);
        StillForward(start, before, disk, current.name, content);
      }
      var result := ResultOf(lib, current, content, serial, changes, false, true);
      r := Answer(Some(result), if w.audited then None else Some(AuditFailed));
      PublishOperates(lib, start, moments, disk, current, content, serial, changes, w, r, ev);
    }

    method AppendAudit(event: AuditEvent, ghost start: Disk)
      requires Consistent() && AllEvolve(lib, start, moments) && Evolves(lib, start, disk)
      modifies this
      ensures disk == old(disk).(audit := old(disk).audit + [event]) && moments == old(moments) + [disk]
      ensures Consistent() && AllEvolve(lib, start, moments) && Evolves(lib, start, disk)
    {
      MetadataEvolves(lib, start, disk, disk.(audit := disk.audit + [event]));
      Reach(disk.(audit := disk.audit + [event]), start);
    }

    /** `commit` */
    method Commit(current: Zone, rrs: seq<RR>, changes: seq<Change>, dryRun: bool, today: Date, w: World)
      returns (r: Answer<ChangeResult>, ghost ev: Event)
      requires Valid() && moments == [] && current.name in disk.zones
      requires IsLoaded(lib, current, disk.zones[current.name]) && ValidZone(lib, current.name, multiset(rrs))
      modifies this
      ensures Valid() && Operates(lib, old(disk), moments, disk, current.name, current.revision, ev)
      ensures Answers(lib, old(disk), disk, current.name, current.revision, ev, r.error)
      ensures CommitOutcome(lib, old(disk), moments, disk, current, rrs, changes, dryRun, today, w, r, ev)
      ensures Told(lib, old(disk), disk, current.name, dryRun, r)
    {
      ev := Quiet;
      NothingOperates(lib, disk, current.name, current.revision);
      var next := NextSerial(current.serial, today);
      if next.None? {
        return Fail(InvalidChange), ev;
      }
      SerialAdvances(current.serial, today);
      var content := Committed(lib, current.name, rrs, next.value);
      CommittedLoads(lib, current.name, rrs, next.value);
      if dryRun {
        r := Answer(Some(ResultOf(lib, current, content, next.value, changes, true, false)), None);
        CommitTells(lib, disk, [], disk, current, rrs, changes, dryRun, today, w, r, ev);
        return;
      }
      ghost var start := disk;
      r, ev := Publish(current, content, next.value, changes, w);
      CommitTells(lib, start, moments, disk, current, rrs, changes, dryRun, today, w, r, ev);
    }

    /** The checks shared by `Apply` and `Rollback`. */
    method Access(name: string, expected: string, w: World) returns (refusal: Option<Error>, current: Option<Zone>)
      requires Valid()
      ensures refusal == AccessRefusal(lib, usable, disk, name, expected, w)
      ensures refusal.None? ==>
                && current.Some? && current.value.name == lib.canonical(name)
                && current.value.revision == expected
                && IsLoaded(lib, current.value, disk.zones[lib.canonical(name)])
    {
      var got, role := Get(name, w);
      if got.result.None? {
        return got.error, None;
      }
      if role != "primary" {
        return Some(ReadOnlyZone), None;
      }
      if expected == "" || expected != got.result.value.revision {
        return Some(RevisionMismatch), None;
      }
      return None, got.result;
    }

    method ApplyTo(
      current: Zone, request: ChangeRequest, today: Date, w: World)
      returns (r: Answer<ChangeResult>, ghost ev: Event)
      requires Valid() && moments == [] && current.name in disk.zones
      requires IsLoaded(lib, current, disk.zones[current.name])
      modifies this
      ensures Valid() && Operates(lib, old(disk), moments, disk, current.name, current.revision, ev)
      ensures Answers(lib, old(disk), disk, current.name, current.revision, ev, r.error)
      ensures ApplyOutcome(lib, codec, old(disk), moments, disk, current, request, today, w, r, ev)
      ensures Told(lib, old(disk), disk, current.name, request.dryRun, r)
    {
      ev := Quiet;
      NothingOperates(lib, disk, current.name, current.revision);
      if request.changes == [] {
        return Fail(InvalidChange), ev;
      }
      var applied := RunChanges(lib, codec, current.name, current.rrs, request.changes);
      if applied.None? {
        return Fail(InvalidChange), ev;
      }
      var ok := Validate(lib, current.name, applied.value);
      if !ok {
        return Fail(InvalidChange), ev;
      }
      r, ev := Commit(current, applied.value, request.changes, request.dryRun, today, w);
    }

    /** `Apply`: a refused change leaves the disk alone; otherwise the changed records,
        if they are valid, are committed over the expected revision. */
    method Apply(
      name: string, request: ChangeRequest, today: Date, w: World)
      returns (r: Answer<ChangeResult>, ghost ev: Event)
      requires Valid()
      modifies this
      ensures Valid() && Operates(lib, old(disk), moments, disk, lib.canonical(name), request.expectedRevision, ev)
      ensures Answers(lib, old(disk), disk, lib.canonical(name), request.expectedRevision, ev, r.error)
      ensures match AccessRefusal(lib, usable, old(disk), name, request.expectedRevision, w)
              case Some(e) => r == Fail(e) && disk == old(disk) && moments == [] && ev == Quiet
              case None =>
                var zone := lib.canonical(name);
                ApplyOutcome(lib, codec, old(disk), moments, disk, ZoneOf(lib, zone, old(disk).zones[zone]), request,
                    today, w, r, ev)
      ensures disk != old(disk) ==>
                lib.canonical(name) in old(disk).roles && old(disk).roles[lib.canonical(name)] == "primary"
      ensures Told(lib, old(disk), disk, lib.canonical(name), request.dryRun, r)
    {
      ev, moments := Quiet, [];
      NothingOperates(lib, disk, lib.canonical(name), request.expectedRevision);
      var refusal, found := Access(name, request.expectedRevision, w);
      if refusal.Some? {
        return Fail(refusal.value), ev;
      }
      r, ev := ApplyTo(found.value, request, today, w);
    }

    method RollbackTo(
      current: Zone, request: RollbackRequest, today: Date, w: World)
      returns (r: Answer<ChangeResult>, ghost ev: Event)
      requires Valid() && moments == [] && current.name in disk.zones
      requires IsLoaded(lib, current, disk.zones[current.name])
      modifies this
      ensures Valid() && Operates(lib, old(disk), moments, disk, current.name, current.revision, ev)
      ensures Answers(lib, old(disk), disk, current.name, current.revision, ev, r.error)
      ensures RollbackOutcome(lib, codec, wellFormed, old(disk), moments, disk, current, request, today, w, r, ev)
      ensures Told(lib, old(disk), disk, current.name, request.dryRun, r)
    {
      ev := Quiet;
      NothingOperates(lib, disk, current.name, current.revision);
      var refusal := TargetRefusal(wellFormed, disk, current, request.targetRevision, w.targetReadable);
      if refusal.Some? {
        return Fail(refusal.value), ev;
      }
      var target := LoadHistory(HistoryKey(current.name, request.targetRevision));
      var from := GroupRRsets(lib, current.rrs);
      var to := GroupRRsets(lib, target.rrs);
      var changes := DiffRRsets(codec, from, to);
      r, ev := Commit(current, target.rrs, changes, request.dryRun, today, w);
    }

    /** Loading a history file: it parses, is valid, has the zone's origin, and has not
        been modified, so none of the remaining checks of `Rollback` fails. */
    method LoadHistory(key: HistoryKey) returns (target: Zone)
      requires Valid() && key in disk.history
      ensures target == ZoneOf(lib, key.zone, disk.history[key]) && target.revision == key.revision
      ensures ValidZone(lib, key.zone, multiset(target.rrs))
    {
      var content := disk.history[key];
      assert Loads(lib, disk.history[key], key.zone);
      var loaded := LoadContent(lib, content);
      LoadsOnce(lib, content, loaded.value.name, key.zone);
      target := loaded.value;
    }

    /** `Rollback` */
    method Rollback(
      name: string, request: RollbackRequest, today: Date, w: World)
      returns (r: Answer<ChangeResult>, ghost ev: Event)
      requires Valid()
      modifies this
      ensures Valid() && Operates(lib, old(disk), moments, disk, lib.canonical(name), request.expectedRevision, ev)
      ensures Answers(lib, old(disk), disk, lib.canonical(name), request.expectedRevision, ev, r.error)
      ensures match AccessRefusal(lib, usable, old(disk), name, request.expectedRevision, w)
              case Some(e) => r == Fail(e) && disk == old(disk) && moments == [] && ev == Quiet
              case None =>
                var zone := lib.canonical(name);
                RollbackOutcome(lib, codec, wellFormed, old(disk), moments, disk,
                    ZoneOf(lib, zone, old(disk).zones[zone]), request, today, w, r, ev)
      ensures disk != old(disk) ==>
                lib.canonical(name) in old(disk).roles && old(disk).roles[lib.canonical(name)] == "primary"
      ensures Told(lib, old(disk), disk, lib.canonical(name), request.dryRun, r)
    {
      ev, moments := Quiet, [];
      NothingOperates(lib, disk, lib.canonical(name), request.expectedRevision);
      var refusal, found := Access(name, request.expectedRevision, w);
      if refusal.Some? {
        return Fail(refusal.value), ev;
      }
      r, ev := RollbackTo(found.value, request, today, w);
    }

    /** Removal of a zone file that may go. */
    method DropZone(zone: string, removed: bool, ghost start: Disk)
      requires Consistent() && AllEvolve(lib, start, moments) && Evolves(lib, start, disk)
      requires zone in start.zones ==> Saved(lib, disk, zone, start.zones[zone])
      modifies this
      ensures disk == RemoveZone(old(disk), zone, removed) && moments == old(moments) + [disk]
      ensures Consistent() && AllEvolve(lib, start, moments) && Evolves(lib, start, disk)
    {
      RemoveEvolves(lib, start, disk, zone, removed);
      RemoveSound(lib, disk, zone, removed);
      Reach(RemoveZone(disk, zone, removed), start);
    }

    method PutRoles(roles: map<string, string>, w: Write, ghost start: Disk) returns (ok: bool)
      requires Consistent() && AllEvolve(lib, start, moments) && Evolves(lib, start, disk)
      modifies this
      ensures disk == WriteRoles(old(disk), roles, w) && ok == (w == Done) && moments == old(moments) + [disk]
      ensures Consistent() && AllEvolve(lib, start, moments) && Evolves(lib, start, disk)
    {
      MetadataEvolves(lib, start, disk, WriteRoles(disk, roles, w));
      Reach(WriteRoles(disk, roles, w), start);
      ok := w == Done;
    }

    /** The file part of `Create`. */
    method Install(zone: string, content: Content, role: string, w: World) returns (e: Option<Error>)
      requires Valid() && moments == [] && zone !in disk.zones && Loads(lib, content, zone)
      modifies this
      ensures Valid() && Evolves(lib, old(disk), disk) && AllEvolve(lib, old(disk), moments)
      ensures OldOrNew(old(disk), moments, zone, content) && disk == LastOf(old(disk), moments)
      ensures e == InstallError(w)
      ensures disk.zones == InstalledZones(old(disk), zone, content, w)
      ensures disk.roles == InstalledRoles(old(disk), zone, role, w)
      ensures disk.history == old(disk).history && disk.audit == old(disk).audit
    {
      EvolvesSame(lib, disk);
      ghost var start := disk;
      if !w.rolesReadable {
        return Some(StorageFailed);
      }
      var roles := disk.roles;
      var written := PutZone(zone, content, w.write, start);
      if !written {
        return Some(StorageFailed);
      }
      e := Enlist(zone, content, role, w, start);
    }

    /** A zone that is not served is removed again, with its role. */
    method Withdraw(zone: string, content: Content, roles: map<string, string>, w: World, ghost start: Disk)
      requires Consistent() && AllEvolve(lib, start, moments) && Evolves(lib, start, disk)
      requires zone !in start.zones && disk.zones == start.zones[zone := content]
      requires OldOrNew(start, moments, zone, content)
      modifies this
      ensures Consistent() && AllEvolve(lib, start, moments) && Evolves(lib, start, disk)
      ensures OldOrNew(start, moments, zone, content) && moments != [] && disk == moments[|moments| - 1]
      ensures disk.zones == if w.removed then start.zones else start.zones[zone := content]
      ensures disk.roles == if w.rolesRestore != FailedBefore then roles else old(disk).roles
      ensures disk.history == old(disk).history && disk.audit == old(disk).audit
    {
      assert disk.zones - {zone} == start.zones;
      DropZone(zone, w.removed, start);
      var back := PutRoles(roles, w.rolesRestore, start);
    }

    /** The rest of a creation once the zone file is there: save the role and wait until
        the zone is served; the file is removed otherwise. */
    method Enlist(zone: string, content: Content, role: string, w: World, ghost start: Disk) returns (e: Option<Error>)
      requires Consistent() && AllEvolve(lib, start, moments) && Evolves(lib, start, disk)
      requires zone !in start.zones && disk.zones == start.zones[zone := content] && moments != []
      requires OldOrNew(start, moments, zone, content) && disk == LastOf(start, moments)
      modifies this
      ensures Consistent() && AllEvolve(lib, start, moments) && Evolves(lib, start, disk)
      ensures OldOrNew(start, moments, zone, content) && disk == LastOf(start, moments)
      ensures e == if w.roles != Done then Some(StorageFailed) else if !w.served then Some(NotServed) else None
      ensures disk.zones == if e.Some? && w.removed then start.zones else start.zones[zone := content]
      ensures disk.roles == if w.roles == FailedBefore then old(disk).roles
                            else if w.roles == Done && !w.served && w.rolesRestore != FailedBefore
                            then old(disk).roles - {zone}
                            else old(disk).roles[zone := role]
      ensures disk.history == old(disk).history && disk.audit == old(disk).audit
    {
      assert disk.zones - {zone} == start.zones;
      var roles := disk.roles;
      var saved := PutRoles(roles[zone := role], w.roles, start);
      if !saved {
        DropZone(zone, w.removed, start);
        return Some(StorageFailed);
      }
      if !w.served {
        Withdraw(zone, content, roles - {zone}, w, start);
        return Some(NotServed);
      }
      e := None;
    }

    /** Everything `Create` checks before it writes: the role, the zone text and the
        validity of the parsed records. */
    method Prepare(zone: string, request: LifecycleRequest) returns (r: Option<Import>)
      ensures r.Some? <==> Importable(lib, zone, request, parseText(zone, request.zoneText))
      ensures r.Some? ==>
                && ValidRole(request.role) == Some(r.value.role)
                && r.value.content == Render(lib, zone, parseText(zone, request.zoneText).value)
                && Loads(lib, r.value.content, zone) && r.value.serial == Serial(r.value.content)
    {
      var role := ValidRole(request.role);
      if role.None? || Text.TrimSpace(request.zoneText) == "" {
        return None;
      }
      var parsed := parseText(zone, request.zoneText);
      if parsed.None? {
        return None;
      }
      var ok := Validate(lib, zone, parsed.value);
      if !ok {
        return None;
      }
      RenderLoads(lib, zone, parsed.value);
      r := Some(Import(role.value, Render(lib, zone, parsed.value), SerialOf(parsed.value)));
    }

    /** The part of `Create` after its checks. */
    method CreateFrom(
      zone: string, prepared: Import, dryRun: bool, w: World, ghost expected: string)
      returns (r: Answer<LifecycleResult>)
      requires Valid() && moments == [] && zone !in disk.zones && Loads(lib, prepared.content, zone)
      modifies this
      ensures Valid() && Operates(lib, old(disk), moments, disk, zone, expected, Quiet)
      ensures InstallOutcome(lib, old(disk), moments, disk, zone, prepared, dryRun, w, r)
    {
      NothingOperates(lib, disk, zone, expected);
      ghost var start := disk;
      var revision := lib.revision(prepared.content);
      if dryRun {
        return Answer(Some(LifecycleResult(zone, prepared.role, revision, prepared.serial, true, false)), None);
      }
      var e := Install(zone, prepared.content, prepared.role, w);
      if e.Some? {
        NewOperates(lib, start, moments, disk, zone, prepared.content, expected);
        return Fail(e.value);
      }
      if w.audited {
        AppendAudit(AuditEvent(zone, "", revision, 0, prepared.serial), start);
      }
      NewOperates(lib, start, moments, disk, zone, prepared.content, expected);
      r := Answer(Some(LifecycleResult(zone, prepared.role, revision, prepared.serial, false, true)), None);
    }

    /** `Create` */
    method Create(name: string, request: LifecycleRequest, w: World) returns (r: Answer<LifecycleResult>)
      requires Valid()
      modifies this
      ensures Valid() && Operates(lib, old(disk), moments, disk, lib.canonical(name), request.expectedRevision, Quiet)
      ensures Answers(lib, old(disk), disk, lib.canonical(name), request.expectedRevision, Quiet, r.error)
      ensures var zone := lib.canonical(name);
              var parsed := parseText(zone, request.zoneText);
              if !usable(zone) then r == Fail(InvalidChange) && disk == old(disk) && moments == []
              else if !w.readable then r == Fail(StorageFailed) && disk == old(disk) && moments == []
              else if zone in old(disk).zones then r == Fail(AlreadyExists) && disk == old(disk) && moments == []
              else if !Importable(lib, zone, request, parsed)
              then r == Fail(InvalidChange) && disk == old(disk) && moments == []
              else
                var content := Render(lib, zone, parsed.value);
                InstallOutcome(lib, old(disk), moments, disk, zone,
                    Import(ValidRole(request.role).value, content, Serial(content)), request.dryRun, w, r)
    {
      moments := [];
      NothingOperates(lib, disk, lib.canonical(name), request.expectedRevision);
      var zone := lib.canonical(name);
      if !usable(zone) {
        return Fail(InvalidChange);
      }
      if !w.readable {
        return Fail(StorageFailed);
      }
      if zone in disk.zones {
        return Fail(AlreadyExists);
      }
      var prepared := Prepare(zone, request);
      if prepared.None? {
        return Fail(InvalidChange);
      }
      r := CreateFrom(zone, prepared.value, request.dryRun, w, request.expectedRevision);
    }

    /** The content of a removed zone is put back. */
    method Reinstate(current: Zone, restore: Write, ghost start: Disk)
      requires Consistent() && AllEvolve(lib, start, moments) && Evolves(lib, start, disk)
      requires current.name in start.zones && current.content == start.zones[current.name]
      requires Loads(lib, current.content, current.name) && disk.zones == start.zones - {current.name}
      requires OldOrGone(start, moments, current.name)
      modifies this
      ensures Consistent() && AllEvolve(lib, start, moments) && Evolves(lib, start, disk)
      ensures OldOrGone(start, moments, current.name) && moments == old(moments) + [disk]
      ensures disk.zones == if restore != FailedBefore then start.zones else start.zones - {current.name}
      ensures disk.roles == old(disk).roles && disk.audit == old(disk).audit && disk.history == old(disk).history
    {
      assert disk.zones[current.name := current.content] == start.zones;
      var back := PutZone(current.name, current.content, restore, start);
    }

    /** The content and the role of a removed zone are put back. */
    method ReinstateWithRole(current: Zone, roles: map<string, string>, role: string, w: World, ghost start: Disk)
      requires Consistent() && AllEvolve(lib, start, moments) && Evolves(lib, start, disk)
      requires current.name in start.zones && current.content == start.zones[current.name]
      requires Loads(lib, current.content, current.name) && disk.zones == start.zones - {current.name}
      requires OldOrGone(start, moments, current.name) && disk.roles == roles - {current.name}
      modifies this
      ensures Consistent() && AllEvolve(lib, start, moments) && Evolves(lib, start, disk)
      ensures OldOrGone(start, moments, current.name) && moments != [] && disk == moments[|moments| - 1]
      ensures disk.zones == if w.restore != FailedBefore then start.zones else start.zones - {current.name}
      ensures disk.roles == if w.rolesRestore != FailedBefore then roles[current.name := role]
              else roles - {current.name}
      ensures disk.audit == old(disk).audit && disk.history == old(disk).history
    {
      Reinstate(current, w.restore, start);
      assert (roles - {current.name})[current.name := role] == roles[current.name := role];
      var rolesBack := PutRoles((roles - {current.name})[current.name := role], w.rolesRestore, start);
    }

    /** The rest of a removal once the zone file is gone: forget the role and wait
        until the zone is no longer served; the file is put back otherwise. */
    method Forget(current: Zone, role: string, w: World, ghost start: Disk) returns (e: Option<Error>)
      requires Consistent() && AllEvolve(lib, start, moments) && Evolves(lib, start, disk)
      requires current.name in start.zones && current.content == start.zones[current.name]
      requires Loads(lib, current.content, current.name) && disk.zones == start.zones - {current.name}
      requires OldOrGone(start, moments, current.name) && moments != [] && disk == moments[|moments| - 1]
      modifies this
      ensures Consistent() && AllEvolve(lib, start, moments) && Evolves(lib, start, disk)
      ensures OldOrGone(start, moments, current.name) && moments != [] && disk == moments[|moments| - 1]
      ensures disk.audit == old(disk).audit && disk.history == old(disk).history
      ensures e == ForgetError(w)
      ensures disk.roles == ForgottenRoles(old(disk).roles, current.name, role, w)
      ensures disk.zones == ForgottenZones(start, current.name, w)
    {
      if !w.rolesReread {
        return Some(StorageFailed);
      }
      var roles := disk.roles;
      var stored := PutRoles(roles - {current.name}, w.roles, start);
      if !stored {
        Reinstate(current, w.restore, start);
        return Some(StorageFailed);
      }
      if !w.served {
        ReinstateWithRole(current, roles, role, w, start);
        return Some(NotServed);
      }
      e := None;
    }

    /** The zone file goes, now that its content is saved. */
    method Remove(current: Zone, role: string, w: World, ghost start: Disk) returns (e: Option<Error>)
      requires Consistent() && AllEvolve(lib, start, moments) && Evolves(lib, start, disk)
      requires current.name in start.zones && current.content == start.zones[current.name] && disk.zones == start.zones
      requires Loads(lib, current.content, current.name) && Saved(lib, disk, current.name, current.content)
      requires OldOrGone(start, moments, current.name)
      modifies this
      ensures Consistent() && AllEvolve(lib, start, moments) && Evolves(lib, start, disk)
      ensures OldOrGone(start, moments, current.name) && moments != [] && disk == moments[|moments| - 1]
      ensures disk.audit == old(disk).audit && disk.history == old(disk).history
      ensures e == if w.removed then ForgetError(w) else Some(StorageFailed)
      ensures disk.roles == if w.removed then ForgottenRoles(old(disk).roles, current.name, role, w)
              else old(disk).roles
      ensures disk.zones == if w.removed then ForgottenZones(start, current.name, w) else start.zones
    {
      DropZone(current.name, w.removed, start);
      if !w.removed {
        return Some(StorageFailed);
      }
      e := Forget(current, role, w, start);
    }

    /** The file part of `Delete`: the current content is saved before its file goes. */
    method Uninstall(current: Zone, role: string, w: World) returns (e: Option<Error>)
      requires Valid() && moments == [] && current.name in disk.zones && current.content == disk.zones[current.name]
      modifies this
      ensures Valid() && Evolves(lib, old(disk), disk) && AllEvolve(lib, old(disk), moments)
      ensures Uninstalled(lib, old(disk), moments, disk, current.name, role, w)
      ensures e == UninstallError(lib, old(disk), current.name, w) && disk.audit == old(disk).audit
    {
      ghost var start := disk;
      assert Loads(lib, disk.zones[current.name], current.name);
      var saved := SaveCurrent(current.name, w.historyReady, w.history);
      if !saved {
        return Some(StorageFailed);
      }
      ghost var mid := disk;
      e := Remove(current, role, w, start);
      RemovedUninstalls(lib, start, mid, moments, disk, current.name, role, w);
    }

    /** The part of `Delete` after its checks. */
    method DeleteFrom(current: Zone, role: string, dryRun: bool, w: World) returns (r: Answer<LifecycleResult>)
      requires Valid() && moments == [] && current.name in disk.zones
      requires IsLoaded(lib, current, disk.zones[current.name]) && role == RoleFor(disk.roles, current.name)
      modifies this
      ensures Valid() && Operates(lib, old(disk), moments, disk, current.name, current.revision, Quiet)
      ensures Answers(lib, old(disk), disk, current.name, current.revision, Quiet, r.error)
      ensures DeleteOutcome(lib, old(disk), moments, disk, current.name, dryRun, w, r)
    {
      ghost var start := disk;
      if dryRun {
        NothingOperates(lib, disk, current.name, current.revision);
        return Answer(Some(LifecycleResult(current.name, role, current.revision, current.serial, true, false)), None);
      }
      var e := Uninstall(current, role, w);
      if e.Some? {
        GoneOperates(lib, start, moments, disk, current.name, current.revision);
        return Fail(e.value);
      }
      if w.audited {
        AppendAudit(AuditEvent(current.name, current.revision, "", current.serial, 0), start);
      }
      GoneOperates(lib, start, moments, disk, current.name, current.revision);
      r := Answer(Some(LifecycleResult(current.name, role, current.revision, current.serial, false, true)), None);
    }

    /** `Delete` */
    method Delete(name: string, request: LifecycleRequest, w: World) returns (r: Answer<LifecycleResult>)
      requires Valid()
      modifies this
      ensures Valid() && Operates(lib, old(disk), moments, disk, lib.canonical(name), request.expectedRevision, Quiet)
      ensures Answers(lib, old(disk), disk, lib.canonical(name), request.expectedRevision, Quiet, r.error)
      ensures match DeleteRefusal(lib, usable, old(disk), name, request.expectedRevision, w)
              case Some(e) => r == Fail(e) && disk == old(disk) && moments == []
              case None => DeleteOutcome(lib, old(disk), moments, disk, lib.canonical(name), request.dryRun, w, r)
    {
      moments := [];
      NothingOperates(lib, disk, lib.canonical(name), request.expectedRevision);
      var got, role := Get(name, w);
      if got.result.None? {
        return Fail(got.error.value);
      }
      var current := got.result.value;
      if request.expectedRevision == "" || request.expectedRevision != current.revision {
        return Fail(RevisionMismatch);
      }
      r := DeleteFrom(current, role, request.dryRun, w);
    }
  }
}
