/** The compensating rollback of a Cloudflare change: what it restores, when it
    reaches every changed RRset, and what its own check can tell. */
module CloudflareRollback {
  import opened Options
  import opened CloudflareRecords
  import opened CloudflareReconcile
  import opened CloudflarePlanner
  import opened CloudflarePlans
  import opened CloudflareApply
  import Text

  /** The RRset that the rollback looks up for a change. Unlike the planner, it does
      not trim the record type. */
  function AffectedKey(dns: Dns, zone: string, change: Change): Key {
    var owner := ChangeOwner(dns, zone, change.name);
    Key(if owner.Some? then owner.value else "", Text.ToUpper(change.rtype))
  }

  function Affected(dns: Dns, zone: string, changes: seq<Change>): set<Key> {
    set i | 0 <= i < |changes| :: AffectedKey(dns, zone, changes[i])
  }

  function Select(records: seq<Record>, keys: set<Key>): seq<Record> {
    if records == [] then []
    else if RecordKey(records[0]) in keys then [records[0]] + Select(records[1..], keys)
    else Select(records[1..], keys)
  }

  /** Delete what is there now, create what was there before. */
  function RollbackBatch(original: seq<Record>, latest: seq<Record>, affected: set<Key>): Batch {
    Batch(DeletesOf(Select(latest, affected)), [], ForgetAll(Select(original, affected)))
  }

  method BuildRollback(original: seq<Record>, latest: seq<Record>, affected: set<Key>) returns (batch: Batch)
    ensures batch == RollbackBatch(original, latest, affected)
  {
    var deletes, creates := [], [];
    for i := 0 to |latest|
      invariant deletes == DeletesOf(Select(latest[..i], affected))
    {
      SelectStep(latest, i, affected);
      if RecordKey(latest[i]) in affected {
        deletes := deletes + [DeleteOf(latest[i])];
      }
    }
    for i := 0 to |original|
      invariant creates == ForgetAll(Select(original[..i], affected))
    {
      SelectStep(original, i, affected);
      if RecordKey(original[i]) in affected {
        ForgetConcat(Select(original[..i], affected), [original[i]]);
        creates := creates + [Forget(original[i])];
      }
    }
    assert latest[..|latest|] == latest && original[..|original|] == original;
    batch := Batch(deletes, [], creates);
  }

  lemma SelectStep(records: seq<Record>, i: nat, keys: set<Key>)
    requires i < |records|
    ensures Select(records[..i + 1], keys) ==
            if RecordKey(records[i]) in keys then Select(records[..i], keys) + [records[i]]
                else Select(records[..i], keys)
  {
    assert records[..i + 1] == records[..i] + [records[i]];
    SelectConcat(records[..i], [records[i]], keys);
  }

  lemma {:induction false} SelectConcat(a: seq<Record>, b: seq<Record>, keys: set<Key>)
    ensures Select(a + b, keys) == Select(a, keys) + Select(b, keys)
  {
    if a == [] {
      assert a + b == b;
    } else {
      assert (a + b)[1..] == a[1..] + b;
      SelectConcat(a[1..], b, keys);
    }
  }

  lemma {:induction false} SelectMembers(records: seq<Record>, keys: set<Key>, r: Record)
    ensures r in Select(records, keys) <==> r in records && RecordKey(r) in keys
  {
    if records != [] {
      SelectMembers(records[1..], keys, r);
      assert records == [records[0]] + records[1..];
    }
  }

  lemma {:induction false} SelectedOps(records: seq<Record>, keys: set<Key>, key: Key)
    ensures OpsOf(ForgetAll(Select(records, keys)), key) == if key in keys then ForgetAll(RRset(records, key)) else []
  {
    if records != [] {
      SelectedOps(records[1..], keys, key);
      var r, rest := records[0], ForgetAll(Select(records[1..], keys));
      assert ([Forget(r)] + rest)[1..] == rest;
      assert ([r] + Select(records[1..], keys))[1..] == Select(records[1..], keys);
      assert ([r] + RRset(records[1..], key))[1..] == RRset(records[1..], key);
    }
  }

  lemma {:induction false} RollbackSurvivors(
    part: seq<Record>, latest: seq<Record>, affected: set<Key>, creates: seq<Operation>, key: Key)
    requires UniqueIds(latest) && forall r :: r in part ==> r in latest
    ensures RRset(Survivors(part, Batch(DeletesOf(Select(latest, affected)), [], creates)), key) ==
            if key in affected then [] else RRset(part, key)
  {
    if part != [] {
      var r, batch := part[0], Batch(DeletesOf(Select(latest, affected)), [], creates);
      assert r in part;
      RollbackSurvivors(part[1..], latest, affected, creates, key);
      DeletedByRollback(latest, affected, r);
      var rest := Survivors(part[1..], batch);
      assert ([r] + rest)[1..] == rest;
    }
  }

  lemma DeletedByRollback(latest: seq<Record>, affected: set<Key>, r: Record)
    requires UniqueIds(latest) && r in latest
    ensures Deletes(DeletesOf(Select(latest, affected)), r.id) <==> RecordKey(r) in affected
  {
    DeletesOfRecords(Select(latest, affected), r.id);
    SelectMembers(latest, affected, r);
    if x :| x in Select(latest, affected) && x.id == r.id {
      SelectMembers(latest, affected, x);
      SameId(latest, x, r);
    }
  }

  /** Whatever the zone looks like by then, the rollback gives each affected RRset
      its original records, up to identifiers, and touches nothing else. */
  lemma RollbackRestores(original: seq<Record>, latest: seq<Record>, affected: set<Key>, ids: seq<string>, key: Key)
    requires UniqueIds(latest) && |ids| == |RollbackBatch(original, latest, affected).creates|
    ensures var after := Execute(latest, RollbackBatch(original, latest, affected), ids);
            && (key in affected ==> ForgetAll(RRset(after, key)) == ForgetAll(RRset(original, key)))
            && (key !in affected ==> RRset(after, key) == RRset(latest, key))
  {
    var batch := RollbackBatch(original, latest, affected);
    RRsetConcat(Survivors(latest, batch), Created(batch.creates, ids), key);
    RollbackSurvivors(latest, latest, affected, batch.creates, key);
    CreatedOps(batch.creates, ids, key);
    SelectedOps(original, affected, key);
    var made := RRset(Created(batch.creates, ids), key);
    assert [] + made == made;
    if key !in affected {
      assert made == [];
    }
  }

  // ------------------------------------------------------- affectedRecordsMatch

  datatype Detail = Detail(content: string, ttl: nat, proxied: Option<bool>, priority: Option<nat>)

  function DetailOf(r: Record): Detail {
    Detail(r.content, r.ttl, r.proxied, r.priority)
  }

  function Details(records: seq<Record>): seq<Detail> {
    seq(|records|, i requires 0 <= i < |records| => DetailOf(records[i]))
  }

  ghost predicate SameDetails(left: seq<Record>, right: seq<Record>, key: Key) {
    multiset(Details(RRset(left, key))) == multiset(Details(RRset(right, key)))
  }

  /** The affected RRsets of a zone, by key. */
  ghost predicate Selects(m: map<Key, seq<Record>>, records: seq<Record>, affected: set<Key>) {
    && (forall key :: Find(m, key, []) == if key in affected then RRset(records, key) else [])
    && (forall key :: key in m ==> m[key] != [])
  }

  method SelectRecords(records: seq<Record>, affected: set<Key>) returns (m: map<Key, seq<Record>>)
    ensures Selects(m, records, affected)
  {
    m := map[];
    for i := 0 to |records|
      invariant Selects(m, records[..i], affected)
    {
      ghost var before := m;
      if RecordKey(records[i]) in affected {
        m := m[RecordKey(records[i]) := Find(m, RecordKey(records[i]), []) + [records[i]]];
      }
      forall k ensures Find(m, k, []) == if k in affected then RRset(records[..i + 1], k) else [] {
        assert Find(before, k, []) == if k in affected then RRset(records[..i], k) else [];
        GroupStep(records, i, k);
      }
    }
    assert records[..|records|] == records;
  }

  /** The check of the rollback is true exactly when every affected RRset has the
      same records by content, TTL, proxying and priority, each equally often. */
  method AffectedRecordsMatch(left: seq<Record>, right: seq<Record>, affected: set<Key>) returns (ok: bool)
    ensures ok <==> forall key :: key in affected ==> SameDetails(left, right, key)
  {
    var a := SelectRecords(left, affected);
    var b := SelectRecords(right, affected);
    if |a| != |b| {
      DifferentKeys(left, right, affected, a, b);
      return false;
    }
    var pending := b.Keys;
    while pending != {}
      invariant pending <= b.Keys
      invariant forall key :: key in b && key !in pending ==> key in a && SameDetails(left, right, key)
      decreases |pending|
    {
      var key :| key in pending;
      pending := pending - {key};
      SelectedRRset(a, left, affected, key);
      SelectedRRset(b, right, affected, key);
      var same := SameRecords(Find(a, key, []), b[key]);
      if !same {
        return false;
      }
    }
    NothingElse(left, right, affected, a, b);
    ok := true;
  }

  lemma SelectedRRset(m: map<Key, seq<Record>>, records: seq<Record>, affected: set<Key>, key: Key)
    requires Selects(m, records, affected)
    ensures key in affected ==> Find(m, key, []) == RRset(records, key)
    ensures key in m <==> key in affected && RRset(records, key) != []
  {
    assert Find(m, key, []) == if key in affected then RRset(records, key) else [];
  }

  lemma NothingElse(
    left: seq<Record>, right: seq<Record>, affected: set<Key>, a: map<Key, seq<Record>>, b: map<Key, seq<Record>>)
    requires Selects(a, left, affected) && Selects(b, right, affected) && |a| == |b|
    requires forall key :: key in b ==> key in a && SameDetails(left, right, key)
    ensures forall key :: key in affected ==> SameDetails(left, right, key)
  {
    assert a.Keys == b.Keys by {
      assert a.Keys == b.Keys + (a.Keys - b.Keys);
    }
    forall key | key in affected ensures SameDetails(left, right, key) {
      SelectedRRset(a, left, affected, key);
      SelectedRRset(b, right, affected, key);
    }
  }

  lemma DifferentKeys(
    left: seq<Record>, right: seq<Record>, affected: set<Key>, a: map<Key, seq<Record>>, b: map<Key, seq<Record>>)
    requires Selects(a, left, affected) && Selects(b, right, affected) && |a| != |b|
    ensures exists key :: key in affected && !SameDetails(left, right, key)
  {
    assert a.Keys != b.Keys;
    var key :| key in a.Keys + b.Keys && (key !in a || key !in b);
    SelectedRRset(a, left, affected, key);
    SelectedRRset(b, right, affected, key);
    assert |multiset(Details(RRset(left, key)))| != |multiset(Details(RRset(right, key)))|;
  }

  method SameRecords(actual: seq<Record>, expected: seq<Record>) returns (same: bool)
    ensures same <==> multiset(Details(actual)) == multiset(Details(expected))
    ensures same ==> |actual| == |expected|
  {
    if |actual| != |expected| {
      assert |multiset(Details(actual))| != |multiset(Details(expected))|;
      return false;
    }
    same := MatchAll(Details(actual), Details(expected));
  }

  lemma {:induction false} ForgottenDetails(a: seq<Record>, b: seq<Record>)
    requires ForgetAll(a) == ForgetAll(b)
    ensures Details(a) == Details(b)
  {
    if a != [] {
      assert ForgetAll(a)[0] == ForgetAll(b)[0] && ForgetAll(a)[1..] == ForgetAll(b)[1..];
      ForgottenDetails(a[1..], b[1..]);
      assert Details(a) == [DetailOf(a[0])] + Details(a[1..]);
      assert Details(b) == [DetailOf(b[0])] + Details(b[1..]);
    }
  }

  /** Right after the rollback batch, its check succeeds. */
  lemma RollbackVerifies(original: seq<Record>, latest: seq<Record>, affected: set<Key>, ids: seq<string>, key: Key)
    requires UniqueIds(latest) && |ids| == |RollbackBatch(original, latest, affected).creates| && key in affected
    ensures SameDetails(Execute(latest, RollbackBatch(original, latest, affected), ids), original, key)
  {
    RollbackRestores(original, latest, affected, ids, key);
    ForgottenDetails(RRset(Execute(latest, RollbackBatch(original, latest, affected), ids), key), RRset(original, key));
  }

  // ------------------------------------------------------------------ coverage

  /** The record type was given without surrounding white space. */
  predicate TypeTrimmed(change: Change) {
    Text.TrimSpace(change.rtype) == change.rtype
  }

  lemma SameUpper(t: string, u: string)
    requires Text.ToUpper(t) == Text.ToUpper(Text.TrimSpace(u)) != ""
    ensures Text.TrimSpace(t) == t
  {
    Text.TrimSpaceEnds(u);
    var v := Text.TrimSpace(u);
    assert |t| == |v| by {
      assert |Text.ToUpper(t)| == |t| && |Text.ToUpper(v)| == |v|;
    }
    assert Text.ToUpper(t)[0] == Text.ToUpper(v)[0] && Text.ToUpper(t)[|t| - 1] == Text.ToUpper(v)[|v| - 1];
  }

  /** If the rollback looks a change up under the key that another (or the same)
      change is planned under, both are planned under that key. */
  lemma AffectedMeetsPlanned(dns: Dns, zone: string, looked: Change, planned: Change)
    requires AffectedKey(dns, zone, looked) == MatchedKey(dns, zone, planned) && PlannedType(planned) != ""
    ensures TypeTrimmed(looked) && MatchedKey(dns, zone, looked) == MatchedKey(dns, zone, planned)
  {
    SameUpper(looked.rtype, planned.rtype);
  }

  lemma TrimmedLookup(dns: Dns, zone: string, change: Change)
    requires TypeTrimmed(change)
    ensures AffectedKey(dns, zone, change) == MatchedKey(dns, zone, change)
  {
  }

  /** Accepted changes are planned under different keys. */
  lemma PlannedKeys(dns: Dns, zone: Zone, changes: seq<Change>, i: nat, j: nat)
    requires Steps(dns, zone, changes).Some? && i < |changes| && j < |changes|
    ensures MatchedKey(dns, zone.name, changes[i]) == MatchedKey(dns, zone.name, changes[j]) ==> i == j
  {
    ChangedKey(dns, zone, changes, i);
    ChangedKey(dns, zone, changes, j);
    CollectDistinct(Planned(dns, zone, changes));
  }

  /** The rollback reaches the RRset of an accepted change exactly when the change
      gave its type without surrounding white space. */
  lemma RollbackReaches(dns: Dns, zone: Zone, changes: seq<Change>, i: nat)
    requires UniqueIds(zone.records) && Steps(dns, zone, changes).Some? && i < |changes|
    ensures MatchedKey(dns, zone.name, changes[i]) in Affected(dns, zone.name, changes) <==> TypeTrimmed(changes[i])
  {
    if TypeTrimmed(changes[i]) {
      TrimmedLookup(dns, zone.name, changes[i]);
    }
    if MatchedKey(dns, zone.name, changes[i]) in Affected(dns, zone.name, changes) {
      var j :| 0 <= j < |changes| && AffectedKey(dns, zone.name, changes[j]) == MatchedKey(dns, zone.name, changes[i]);
      PlannedKeys(dns, zone, changes, i, j);
      ChangedKey(dns, zone, changes, i);
      AffectedMeetsPlanned(dns, zone.name, changes[j], changes[i]);
    }
  }

  /** The zone after a request was applied and then rolled back. */
  function RolledBack(dns: Dns, zone: Zone, changes: seq<Change>, applied: seq<Record>, ids: seq<string>): seq<Record>
    requires |ids| == |RollbackBatch(zone.records, applied, Affected(dns, zone.name, changes)).creates|
  {
    Execute(applied, RollbackBatch(zone.records, applied, Affected(dns, zone.name, changes)), ids)
  }

  /** Applying a request and rolling it back: an RRset that no change names is as
      before. */
  lemma RollbackLeavesOthers(dns: Dns, zone: Zone, changes: seq<Change>, ids: seq<string>, ids': seq<string>, key: Key)
    requires UniqueIds(zone.records) && Steps(dns, zone, changes).Some?
    requires |ids| == |Joined(Steps(dns, zone, changes).value).creates|
    requires UniqueIds(Execute(zone.records, Joined(Steps(dns, zone, changes).value), ids))
    requires |ids'| == |ForgetAll(Select(zone.records, Affected(dns, zone.name, changes)))|
    requires !HasKey(Steps(dns, zone, changes).value, key)
    ensures var applied := Execute(zone.records, Joined(Steps(dns, zone, changes).value), ids);
            ForgetAll(RRset(RolledBack(dns, zone, changes, applied, ids'), key)) == ForgetAll(RRset(zone.records, key))
  {
    var applied := Execute(zone.records, Joined(Steps(dns, zone, changes).value), ids);
    RollbackRestores(zone.records, applied, Affected(dns, zone.name, changes), ids', key);
    PlanCorrect(dns, zone, changes, ids, key);
  }

  /** The RRset of a change is back to its original records, up to identifiers, if
      the type was given trimmed; otherwise it stays as the plan left it, although
      the rollback's own check only looks at the RRsets it affected. */
  lemma ApplyThenRollback(dns: Dns, zone: Zone, changes: seq<Change>, ids: seq<string>, ids': seq<string>, i: nat)
    requires UniqueIds(zone.records) && Steps(dns, zone, changes).Some? && i < |changes|
    requires |ids| == |Joined(Steps(dns, zone, changes).value).creates|
    requires UniqueIds(Execute(zone.records, Joined(Steps(dns, zone, changes).value), ids))
    requires |ids'| == |ForgetAll(Select(zone.records, Affected(dns, zone.name, changes)))|
    ensures var applied := Execute(zone.records, Joined(Steps(dns, zone, changes).value), ids);
            var key := MatchedKey(dns, zone.name, changes[i]);
            ForgetAll(RRset(RolledBack(dns, zone, changes, applied, ids'), key)) ==
            ForgetAll(RRset(if TypeTrimmed(changes[i]) then zone.records else applied, key))
  {
    var applied := Execute(zone.records, Joined(Steps(dns, zone, changes).value), ids);
    var key := MatchedKey(dns, zone.name, changes[i]);
    RollbackRestores(zone.records, applied, Affected(dns, zone.name, changes), ids', key);
    RollbackReaches(dns, zone, changes, i);
  }

  // --------------------------------------------- a change that is not restored

  const SAMPLE_DNS: Dns := Dns(name => true, (rtype, value) => None)
  const SAMPLE_RECORD: Record := Record("1", "z", "A", "192.0.2.1", 300, None, None, "", [])
  const SAMPLE_ZONE: Zone := Zone("z", "r", [SAMPLE_RECORD])
  const SAMPLE_CHANGE: Change := Change("delete", "@", " A", 0, [], Provider(None, None, None))

  lemma SampleName()
    ensures CanonicalName("@") == "@"
  {
    Text.AlreadyTrimmed("@");
    assert Text.ToLower("@") == "@";
  }

  lemma SampleType()
    ensures Text.TrimSpace(" A") == "A" && PlannedType(SAMPLE_CHANGE) == "A"
  {
    Text.AlreadyTrimmed("A");
    assert " A"[1..] == "A" && Text.TrimLeft(" A") == Text.TrimLeft("A");
    assert Text.ToUpper("A") == "A";
  }

  lemma SampleAction()
    ensures Text.ToLower(Text.TrimSpace("delete")) == "delete"
  {
    Text.AlreadyTrimmed("delete");
    assert Text.ToLower("delete") == "delete";
  }

  /** A change whose type has a leading space is accepted and empties its RRset, and
      rolling it back does not bring the records back. */
  lemma UntrimmedTypeNotRestored()
    ensures Acceptable(SAMPLE_DNS, SAMPLE_ZONE, Request("r", [SAMPLE_CHANGE]))
    ensures var changes, key := [SAMPLE_CHANGE], Key("z", "A");
            && Steps(SAMPLE_DNS, SAMPLE_ZONE, changes).Some?
            && Joined(Steps(SAMPLE_DNS, SAMPLE_ZONE, changes).value).creates == []
            && ForgetAll(Select(SAMPLE_ZONE.records, Affected(SAMPLE_DNS, "z", changes))) == []
            && var applied := Execute(SAMPLE_ZONE.records, Joined(Steps(SAMPLE_DNS, SAMPLE_ZONE, changes).value), []);
               && RRset(SAMPLE_ZONE.records, key) == [SAMPLE_RECORD]
               && RRset(RolledBack(SAMPLE_DNS, SAMPLE_ZONE, changes, applied, []), key) == []
  {
    var changes, key := [SAMPLE_CHANGE], Key("z", "A");
    SampleSteps();
    Text.AlreadyTrimmed("r");
    var steps := Steps(SAMPLE_DNS, SAMPLE_ZONE, changes).value;
    forall owner
      ensures CnameRule(TypesAt(SAMPLE_ZONE.records, owner), TrackedTypes(SAMPLE_ZONE.records, steps, owner))
    {
      NoCname(steps, owner);
    }
    var applied := Execute(SAMPLE_ZONE.records, Joined(Steps(SAMPLE_DNS, SAMPLE_ZONE, changes).value), []);
    SampleType();
    RollbackReaches(SAMPLE_DNS, SAMPLE_ZONE, changes, 0);
    SampleSelect(Affected(SAMPLE_DNS, "z", changes));
    ApplyThenRollback(SAMPLE_DNS, SAMPLE_ZONE, changes, [], [], 0);
  }

  lemma NoCname(steps: seq<Step>, owner: string)
    requires |steps| == 1 && !steps[0].upsert
    ensures "CNAME" !in TrackedTypes(SAMPLE_ZONE.records, steps, owner)
  {
    assert steps[..0] == [];
    assert TrackedTypes(SAMPLE_ZONE.records, steps[..0], owner) == TypesAt(SAMPLE_ZONE.records, owner);
  }

  lemma SampleSteps()
    ensures var steps := Steps(SAMPLE_DNS, SAMPLE_ZONE, [SAMPLE_CHANGE]);
            && steps.Some? && |steps.value| == 1 && !steps.value[0].upsert
            && Joined(steps.value) == Batch(DeletesOf([SAMPLE_RECORD]), [], [])
            && Execute(SAMPLE_ZONE.records, Joined(steps.value), []) == []
    ensures RRset(SAMPLE_ZONE.records, Key("z", "A")) == [SAMPLE_RECORD]
    ensures MatchedKey(SAMPLE_DNS, "z", SAMPLE_CHANGE) == Key("z", "A")
  {
    SampleName();
    SampleType();
    SampleAction();
    assert SAMPLE_ZONE.records[1..] == [];
    assert PlannedKey(SAMPLE_DNS, "z", SAMPLE_CHANGE) == Some(Key("z", "A"));
    assert RRset(SAMPLE_ZONE.records, Key("z", "A")) == [SAMPLE_RECORD];
    PlannedUnder(SAMPLE_DNS, SAMPLE_ZONE, SAMPLE_CHANGE);
    var step := PlanChange(SAMPLE_DNS, SAMPLE_ZONE, SAMPLE_CHANGE).value;
    assert step.batch == Batch(DeletesOf([SAMPLE_RECORD]), [], []);
    SingleStep(Planned(SAMPLE_DNS, SAMPLE_ZONE, [SAMPLE_CHANGE]), step);
    AllDropped([SAMPLE_RECORD], [SAMPLE_RECORD]);
  }

  lemma SingleStep(planned: seq<Option<Step>>, step: Step)
    requires planned == [Some(step)]
    ensures Collect(planned) == Some([step]) && Joined([step]) == step.batch
  {
    assert planned[..0] == [];
    NothingCollected(planned[..0]);
    CollectStep(planned, 0, []);
    assert planned[..1] == planned && [] + [step] == [step];
    SingleBatch(step);
  }

  lemma NothingCollected(planned: seq<Option<Step>>)
    requires planned == []
    ensures Collect(planned) == Some([])
  {
  }

  lemma SingleBatch(step: Step)
    ensures Joined([step]) == step.batch
  {
    JoinedStep([], step);
    assert [] + [step] == [step];
    assert [] + step.batch.deletes == step.batch.deletes;
    assert [] + step.batch.patches == step.batch.patches;
    assert [] + step.batch.creates == step.batch.creates;
  }

  lemma SampleSelect(affected: set<Key>)
    requires Key("z", "A") !in affected
    ensures Select(SAMPLE_ZONE.records, affected) == []
  {
    assert SAMPLE_ZONE.records[1..] == [];
  }
}
