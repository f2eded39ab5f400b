/** Compiling RRset changes into a batch (`planChanges`), and what executing that
    batch does to the zone. */
module CloudflarePlanner {
  import opened Options
  import opened CloudflareRecords
  import opened CloudflareReconcile
  import Text

  datatype Provider = Provider(proxied: Option<bool>, comment: Option<string>, tags: Option<seq<string>>)

  datatype Change = Change(
    action: string, name: string, rtype: string, ttl: nat, records: seq<string>, provider: Provider)

  datatype Zone = Zone(name: string, revision: string, records: seq<Record>)

  datatype Request = Request(expectedRevision: string, changes: seq<Change>)

  datatype Plan = Plan(batch: Batch, expected: seq<Operation>, changes: seq<Change>)

  datatype RData = RData(content: string, priority: Option<nat>)

  /** The DNS library: which names are domain names, and how the text of a record of
      a given type is normalized, if it parses. */
  datatype Dns = Dns(isDomain: string -> bool, parse: (string, string) -> Option<RData>)

  const SUPPORTED_TYPES: set<string> := {"A", "AAAA", "CAA", "CNAME", "MX", "NS", "SRV", "TXT"}

  function CanonicalName(name: string): string {
    Text.TrimSuffix(Text.ToLower(Text.TrimSpace(name)), ".")
  }

  predicate InZone(name: string, zone: string) {
    name == zone || Text.HasSuffix(name, "." + zone)
  }

  function ChangeOwner(dns: Dns, zone: string, name: string): Option<string> {
    var n := CanonicalName(name);
    if n == "@" then Some(zone)
    else if n == "" then None
    else
      var full := if InZone(n, zone) then n else n + "." + zone;
      if dns.isDomain(full) && InZone(full, zone) then Some(full) else None
  }

  /** The record type as the planner reads it: trimmed and in upper case. */
  function PlannedType(change: Change): string {
    Text.ToUpper(Text.TrimSpace(change.rtype))
  }

  function PlannedKey(dns: Dns, zone: string, change: Change): Option<Key> {
    match ChangeOwner(dns, zone, change.name)
    case None => None
    case Some(owner) => if PlannedType(change) in SUPPORTED_TYPES then Some(Key(owner, PlannedType(change))) else None
  }

  predicate ValidTTL(ttl: nat) {
    ttl == 1 || 60 <= ttl <= 86400
  }

  /** `strings.Join` with NUL characters, by which tags are compared. */
  function JoinTags(tags: seq<string>): string {
    if tags == [] then "" else if |tags| == 1 then tags[0] else tags[0] + "\0" + JoinTags(tags[1..])
  }

  /** Tags without NUL characters, and not empty. */
  ghost predicate PlainTags(tags: seq<string>) {
    forall i :: 0 <= i < |tags| ==> tags[i] != "" && '\0' !in tags[i]
  }

  /** Such tags are told apart by their joined form. */
  lemma {:induction false} JoinInjective(a: seq<string>, b: seq<string>)
    requires PlainTags(a) && PlainTags(b) && JoinTags(a) == JoinTags(b)
    ensures a == b
  {
    JoinShape(a);
    JoinShape(b);
    if a != [] && b != [] {
      var x, y := JoinTags(a), JoinTags(b);
      SameHead(a[0], x, b[0], y, |a| > 1, |b| > 1);
      if |a| > 1 {
        assert JoinTags(a[1..]) == x[|a[0]| + 1..] == JoinTags(b[1..]);
        JoinInjective(a[1..], b[1..]);
        assert a == [a[0]] + a[1..] && b == [b[0]] + b[1..];
      }
    }
  }

  lemma JoinShape(tags: seq<string>)
    requires PlainTags(tags)
    ensures tags == [] <==> JoinTags(tags) == ""
    ensures |tags| == 1 ==> JoinTags(tags) == tags[0]
    ensures |tags| > 1 ==> JoinTags(tags) == tags[0] + "\0" + JoinTags(tags[1..])
  {
  }

  /** The first NUL ends the first tag. */
  lemma SameHead(h: string, x: string, h': string, y: string, more: bool, more': bool)
    requires x == y && '\0' !in h && '\0' !in h'
    requires h <= x && h' <= y
    requires if more then |x| > |h| && x[|h|] == '\0' else x == h
    requires if more' then |y| > |h'| && y[|h'|] == '\0' else y == h'
    ensures h == h' && more == more'
  {
    assert |h| < |h'| ==> x[|h|] == h'[|h|];
    assert |h'| < |h| ==> y[|h'|] == h[|h'|];
  }

  /** Settings that the request leaves open are taken from the existing RRset when
      all its records agree on them. */
  function Inherited(records: seq<Record>, requested: Provider): Provider {
    if records == [] then requested
    else
      var first := records[0];
      Provider(
        if requested.proxied.None? && first.proxied.Some?
            && (forall r :: r in records ==> r.proxied == first.proxied) then first.proxied
        else requested.proxied,
        if requested.comment.None? && (forall r :: r in records ==> r.comment == first.comment) then Some(first.comment)
        else requested.comment,
        if requested.tags.None? && (forall r :: r in records ==> JoinTags(r.tags) == JoinTags(first.tags))
        then Some(first.tags)
        else requested.tags)
  }

  function CreateOperation(dns: Dns, key: Key, ttl: nat, value: string, provider: Provider): Option<Operation> {
    var v := Text.TrimSpace(value);
    if v == "" then None
    else
      match dns.parse(key.rtype, v)
      case None => None
      case Some(data) =>
        Some(Operation(key.name, key.rtype, data.content, ttl, provider.proxied, data.priority,
                       if provider.comment.Some? then provider.comment.value else "",
                       if provider.tags.Some? then Text.SortStrings(provider.tags.value) else []))
  }

  /** The desired records of an upsert; None if a value is invalid or repeated. */
  function Desired(dns: Dns, key: Key, ttl: nat, values: seq<string>, provider: Provider): Option<seq<Operation>> {
    if values == [] then Some([])
    else
      var n := |values| - 1;
      match Desired(dns, key, ttl, values[..n], provider)
      case None => None
      case Some(before) =>
        match CreateOperation(dns, key, ttl, values[n], provider)
        case None => None
        case Some(op) => if op in before then None else Some(before + [op])
  }

  /** The part of a plan that one change accounts for. */
  datatype Step = Step(key: Key, upsert: bool, batch: Batch, expected: seq<Operation>)

  function PlanDelete(key: Key, existing: seq<Record>, change: Change): Option<Step> {
    if change.records != [] || change.ttl != 0 || existing == [] then None
    else Some(Step(key, false, Batch(DeletesOf(existing), [], []), []))
  }

  function PlanUpsert(dns: Dns, key: Key, existing: seq<Record>, change: Change): Option<Step> {
    if !ValidTTL(change.ttl) || change.records == [] then None
    else
      match Desired(dns, key, change.ttl, change.records, Inherited(existing, change.provider))
      case None => None
      case Some(desired) =>
        if exists r :: r in existing && BlankId(r) then None
        else Some(Step(key, true, BatchOf(Reconcile(existing, desired)), desired))
  }

  function PlanChange(dns: Dns, zone: Zone, change: Change): Option<Step> {
    match PlannedKey(dns, zone.name, change)
    case None => None
    case Some(key) =>
      var existing, action := RRset(zone.records, key), Text.ToLower(Text.TrimSpace(change.action));
      if action == "delete" then PlanDelete(key, existing, change)
      else if action == "upsert" then PlanUpsert(dns, key, existing, change)
      else None
  }

  predicate HasKey(steps: seq<Step>, key: Key) {
    exists i :: 0 <= i < |steps| && steps[i].key == key
  }

  /** What each change asks for, if it is accepted on its own. */
  function Planned(dns: Dns, zone: Zone, changes: seq<Change>): seq<Option<Step>> {
    seq(|changes|, i requires 0 <= i < |changes| => PlanChange(dns, zone, changes[i]))
  }

  /** All the steps; None if one was refused or an RRset comes twice. */
  function Collect(planned: seq<Option<Step>>): Option<seq<Step>> {
    if planned == [] then Some([])
    else
      var n := |planned| - 1;
      var before := Collect(planned[..n]);
      if before.None? || planned[n].None? || HasKey(before.value, planned[n].value.key) then None
      else Some(before.value + [planned[n].value])
  }

  function Steps(dns: Dns, zone: Zone, changes: seq<Change>): Option<seq<Step>> {
    Collect(Planned(dns, zone, changes))
  }

  function Join(a: Batch, b: Batch): Batch {
    Batch(a.deletes + b.deletes, a.patches + b.patches, a.creates + b.creates)
  }

  function Joined(steps: seq<Step>): Batch {
    if steps == [] then Batch([], [], [])
    else Join(Joined(steps[..|steps| - 1]), steps[|steps| - 1].batch)
  }

  function ExpectedOf(steps: seq<Step>): seq<Operation> {
    if steps == [] then [] else ExpectedOf(steps[..|steps| - 1]) + steps[|steps| - 1].expected
  }

  // ---------------------------------------------------------------- locality

  ghost predicate DistinctKeys(steps: seq<Step>) {
    forall i, j :: 0 <= i < j < |steps| ==> steps[i].key != steps[j].key
  }

  /** A step decides about records of its own key only. */
  ghost predicate Confined(step: Step, records: seq<Record>) {
    && (forall r :: r in records && Deletes(step.batch.deletes, r.id) ==> RecordKey(r) == step.key)
    && (forall r :: r in records && PatchFor(step.batch.patches, r.id).Some? ==>
          RecordKey(r) == step.key && OpKey(PatchFor(step.batch.patches, r.id).value) == step.key)
    && (forall op :: op in step.batch.creates ==> OpKey(op) == step.key)
    && (forall op :: op in step.expected ==> OpKey(op) == step.key)
  }

  lemma {:induction false} DesiredKeys(dns: Dns, key: Key, ttl: nat, values: seq<string>, provider: Provider)
    requires Desired(dns, key, ttl, values, provider).Some?
    ensures forall op :: op in Desired(dns, key, ttl, values, provider).value ==> OpKey(op) == key && op.ttl == ttl
    ensures |Desired(dns, key, ttl, values, provider).value| == |values|
  {
    if values != [] {
      DesiredKeys(dns, key, ttl, values[..|values| - 1], provider);
    }
  }

  lemma SameId(records: seq<Record>, a: Record, b: Record)
    requires UniqueIds(records) && a in records && b in records && a.id == b.id
    ensures a == b
  {
    var i :| 0 <= i < |records| && records[i] == a;
    var j :| 0 <= j < |records| && records[j] == b;
    if i != j {
      assert records[i].id == records[j].id;
    }
  }

  lemma DroppedKey(records: seq<Record>, key: Key, dropped: seq<Record>, r: Record)
    requires UniqueIds(records) && r in records
    requires forall x :: x in dropped ==> x in RRset(records, key)
    requires Deletes(DeletesOf(dropped), r.id)
    ensures RecordKey(r) == key
  {
    DeletesOfRecords(dropped, r.id);
    var x :| x in dropped && x.id == r.id;
    RRsetMembers(records, key, x);
    SameId(records, x, r);
  }

  lemma PlanChangeConfined(dns: Dns, zone: Zone, change: Change)
    requires UniqueIds(zone.records) && PlanChange(dns, zone, change).Some?
    ensures Confined(PlanChange(dns, zone, change).value, zone.records)
  {
    var step := PlanChange(dns, zone, change).value;
    var key, existing := step.key, RRset(zone.records, step.key);
    if !step.upsert {
      forall r | r in zone.records && Deletes(step.batch.deletes, r.id) ensures RecordKey(r) == key {
        DroppedKey(zone.records, key, existing, r);
      }
    } else {
      var desired := step.expected;
      DesiredKeys(dns, key, change.ttl, change.records, Inherited(existing, change.provider));
      var e := Reconcile(existing, desired);
      EditConfined(existing, desired, "");
      forall r | r in zone.records && Deletes(step.batch.deletes, r.id) ensures RecordKey(r) == key {
        DroppedKey(zone.records, key, e.dropped, r);
      }
      forall r | r in zone.records && PatchFor(step.batch.patches, r.id).Some?
        ensures RecordKey(r) == key && OpKey(PatchFor(step.batch.patches, r.id).value) == key
      {
        EditConfined(existing, desired, r.id);
        var x :| x in existing && x.id == r.id;
        RRsetMembers(zone.records, key, x);
        SameId(zone.records, x, r);
      }
    }
  }

  /** The batch that a plan holds for one RRset. */
  function StepBatch(steps: seq<Step>, key: Key): Batch {
    if steps == [] then Batch([], [], [])
    else
      var n := |steps| - 1;
      if steps[n].key == key then steps[n].batch else StepBatch(steps[..n], key)
  }

  lemma {:induction false} StepBatchAt(steps: seq<Step>, i: nat)
    requires DistinctKeys(steps) && i < |steps|
    ensures StepBatch(steps, steps[i].key) == steps[i].batch
  {
    var n := |steps| - 1;
    if i < n {
      assert steps[..n][i] == steps[i];
      StepBatchAt(steps[..n], i);
    }
  }

  lemma {:induction false} StepBatchNone(steps: seq<Step>, key: Key)
    requires !HasKey(steps, key)
    ensures StepBatch(steps, key) == Batch([], [], [])
  {
    if steps != [] {
      var n := |steps| - 1;
      assert steps[n].key != key;
      assert forall i :: 0 <= i < n ==> steps[..n][i] == steps[i];
      StepBatchNone(steps[..n], key);
    }
  }

  /** For each record, the joined batch decides what the batch of its own RRset
      decides. */
  lemma {:induction false} JoinedAgrees(records: seq<Record>, steps: seq<Step>, r: Record)
    requires r in records && DistinctKeys(steps)
    requires forall i :: 0 <= i < |steps| ==> Confined(steps[i], records)
    ensures Deletes(Joined(steps).deletes, r.id) <==> Deletes(StepBatch(steps, RecordKey(r)).deletes, r.id)
    ensures PatchFor(Joined(steps).patches, r.id) == PatchFor(StepBatch(steps, RecordKey(r)).patches, r.id)
  {
    if steps != [] {
      var n := |steps| - 1;
      var before, step := steps[..n], steps[n];
      JoinedAgrees(records, before, r);
      DeletesConcat(Joined(before).deletes, step.batch.deletes, r.id);
      PatchConcat(Joined(before).patches, step.batch.patches, r.id);
      assert Confined(step, records);
      if step.key == RecordKey(r) {
        assert !HasKey(before, step.key);
        StepBatchNone(before, step.key);
      }
    }
  }

  lemma {:induction false} OpsAll(ops: seq<Operation>, owner: Key, key: Key)
    requires forall op :: op in ops ==> OpKey(op) == owner
    ensures OpsOf(ops, key) == if owner == key then ops else []
  {
    if ops != [] {
      assert ops[0] in ops;
      OpsAll(ops[1..], owner, key);
    }
  }

  lemma {:induction false} JoinedCreates(records: seq<Record>, steps: seq<Step>, key: Key)
    requires DistinctKeys(steps)
    requires forall i :: 0 <= i < |steps| ==> Confined(steps[i], records)
    ensures OpsOf(Joined(steps).creates, key) == StepBatch(steps, key).creates
  {
    if steps != [] {
      var n := |steps| - 1;
      var before, step := steps[..n], steps[n];
      JoinedCreates(records, before, key);
      OpsConcat(Joined(before).creates, step.batch.creates, key);
      assert Confined(step, records);
      OpsAll(step.batch.creates, step.key, key);
      if step.key == key {
        assert !HasKey(before, key);
        StepBatchNone(before, key);
      }
    }
  }

  lemma ExpectedSplit(records: seq<Record>, steps: seq<Step>, key: Key)
    requires steps != [] && Confined(steps[|steps| - 1], records)
    ensures var n := |steps| - 1;
            OpsOf(ExpectedOf(steps), key) ==
            OpsOf(ExpectedOf(steps[..n]), key) + if steps[n].key == key then steps[n].expected else []
  {
    var n := |steps| - 1;
    OpsConcat(ExpectedOf(steps[..n]), steps[n].expected, key);
    OpsAll(steps[n].expected, steps[n].key, key);
  }

  lemma {:induction false} ExpectedNone(records: seq<Record>, steps: seq<Step>, key: Key)
    requires forall i :: 0 <= i < |steps| ==> Confined(steps[i], records)
    requires !HasKey(steps, key)
    ensures OpsOf(ExpectedOf(steps), key) == []
  {
    if steps != [] {
      var n := |steps| - 1;
      assert steps[n].key != key;
      assert forall i :: 0 <= i < n ==> steps[..n][i] == steps[i];
      ExpectedNone(records, steps[..n], key);
      ExpectedSplit(records, steps, key);
    }
  }

  lemma {:induction false} ExpectedAt(records: seq<Record>, steps: seq<Step>, i: nat)
    requires DistinctKeys(steps) && i < |steps|
    requires forall j :: 0 <= j < |steps| ==> Confined(steps[j], records)
    ensures OpsOf(ExpectedOf(steps), steps[i].key) == steps[i].expected
  {
    var n, key := |steps| - 1, steps[i].key;
    ExpectedSplit(records, steps, key);
    if i < n {
      assert steps[..n][i] == steps[i];
      ExpectedAt(records, steps[..n], i);
      assert steps[i].expected + [] == steps[i].expected;
    } else {
      assert !HasKey(steps[..n], key);
      ExpectedNone(records, steps[..n], key);
      assert [] + steps[n].expected == steps[n].expected;
    }
  }

  /** Executing a plan acts on each RRset through its own batch alone. */
  lemma {:induction false} LocalEffect(part: seq<Record>, records: seq<Record>, steps: seq<Step>, key: Key)
    requires DistinctKeys(steps)
    requires forall i :: 0 <= i < |steps| ==> Confined(steps[i], records)
    requires forall r :: r in part ==> r in records
    ensures RRset(Survivors(part, Joined(steps)), key) == Survivors(RRset(part, key), StepBatch(steps, key))
  {
    if part != [] {
      var r := part[0];
      assert r in part;
      LocalEffect(part[1..], records, steps, key);
      JoinedAgrees(records, steps, r);
      var rest := Survivors(part[1..], Joined(steps));
      ApplyKeepsKey(records, steps, r);
      if !Deletes(Joined(steps).deletes, r.id) {
        assert ([Apply(r, Joined(steps).patches)] + rest)[1..] == rest;
      }
      if RecordKey(r) == key {
        assert ([r] + RRset(part[1..], key))[1..] == RRset(part[1..], key);
      }
    }
  }

  lemma ApplyKeepsKey(records: seq<Record>, steps: seq<Step>, r: Record)
    requires r in records && DistinctKeys(steps)
    requires forall i :: 0 <= i < |steps| ==> Confined(steps[i], records)
    ensures RecordKey(Apply(r, Joined(steps).patches)) == RecordKey(r)
  {
    JoinedAgrees(records, steps, r);
    var key := RecordKey(r);
    if HasKey(steps, key) {
      var i :| 0 <= i < |steps| && steps[i].key == key;
      StepBatchAt(steps, i);
      assert Confined(steps[i], records);
    } else {
      StepBatchNone(steps, key);
    }
  }
}
