/** A request whose rollback is built from a listing that is behind, and reports success
    with the zone neither changed as asked nor restored. */
module CloudflareStale {
  import opened Options
  import opened CloudflareRecords
  import opened CloudflareReconcile
  import opened CloudflarePlanner
  import opened CloudflarePlans
  import opened CloudflareApply
  import opened CloudflareRollback
  import opened CloudflareCompensation
  import opened CloudflareService
  import Text

  const DNS: Dns := Dns(name => true, (rtype, value) => Some(RData(value, None)))
  const ADDRESSES: Key := Key("z", "A")
  const OLD: Record := Record("1", "z", "A", "192.0.2.1", 300, None, None, "", [])
  const ZONE: Zone := Zone("z", "r", [OLD])

  /** One record is patched to another TTL, and one is created. */
  const CHANGE: Change := Change("upsert", "@", "A", 600, ["192.0.2.1", "192.0.2.2"], Provider(None, None, None))
  const FIRST: Operation := Operation("z", "A", "192.0.2.1", 600, None, None, "", [])
  const SECOND: Operation := Operation("z", "A", "192.0.2.2", 600, None, None, "", [])
  const BATCH: Batch := Batch([], [Patch("1", FIRST)], [SECOND])
  const STEP: Step := Step(ADDRESSES, true, BATCH, [FIRST, SECOND])

  const PATCHED: Record := Record("1", "z", "A", "192.0.2.1", 600, None, None, "", [])
  const CREATED: Record := Record("2", "z", "A", "192.0.2.2", 600, None, None, "", [])
  const RECREATED: Record := Record("3", "z", "A", "192.0.2.1", 300, None, None, "", [])

  /** All goes well, except that every listing after the batch still shows the old zone. */
  const BEHIND: World := World(Fresh, true, Done, [Stale([OLD])], true, Stale([OLD]), Done, [Stale([OLD])])

  lemma TypeA(change: Change)
    requires change.rtype == "A"
    ensures TypeTrimmed(change) && PlannedType(change) == "A" && Text.ToUpper(change.rtype) == "A"
  {
    Text.AlreadyTrimmed("A");
    assert Text.ToUpper("A") == "A";
  }

  lemma ApexOwner(name: string)
    requires name == "@"
    ensures ChangeOwner(DNS, "z", name) == Some("z")
  {
    SampleName();
  }

  lemma UpsertAction()
    ensures Text.ToLower(Text.TrimSpace(CHANGE.action)) == "upsert"
  {
    Text.AlreadyTrimmed("upsert");
    assert Text.ToLower("upsert") == "upsert";
  }

  lemma KeysOf(change: Change)
    requires ChangeOwner(DNS, "z", change.name) == Some("z")
    requires PlannedType(change) == "A" && Text.ToUpper(change.rtype) == "A"
    ensures PlannedKey(DNS, "z", change) == Some(ADDRESSES)
    ensures AffectedKey(DNS, "z", change) == ADDRESSES && MatchedKey(DNS, "z", change) == ADDRESSES
  {
  }

  lemma ChangedKeys()
    ensures PlannedKey(DNS, "z", CHANGE) == Some(ADDRESSES) && TypeTrimmed(CHANGE)
    ensures AffectedKey(DNS, "z", CHANGE) == ADDRESSES && MatchedKey(DNS, "z", CHANGE) == ADDRESSES
  {
    TypeA(CHANGE);
    ApexOwner(CHANGE.name);
    KeysOf(CHANGE);
  }

  lemma DesiredNext(dns: Dns, key: Key, ttl: nat, values: seq<string>, v: string, provider: Provider)
    ensures Desired(dns, key, ttl, values + [v], provider) ==
            match Desired(dns, key, ttl, values, provider)
            case None => None
            case Some(before) =>
              match CreateOperation(dns, key, ttl, v, provider)
              case None => None
              case Some(op) => if op in before then None else Some(before + [op])
  {
    assert (values + [v])[..|values|] == values;
  }

  lemma Wanted(provider: Provider)
    requires provider == Provider(None, Some(""), Some([]))
    ensures Desired(DNS, ADDRESSES, 600, ["192.0.2.1", "192.0.2.2"], provider) == Some([FIRST, SECOND])
  {
    Text.AlreadyTrimmed("192.0.2.1");
    Text.AlreadyTrimmed("192.0.2.2");
    assert CreateOperation(DNS, ADDRESSES, 600, "192.0.2.1", provider) == Some(FIRST);
    assert CreateOperation(DNS, ADDRESSES, 600, "192.0.2.2", provider) == Some(SECOND);
    DesiredNext(DNS, ADDRESSES, 600, [], "192.0.2.1", provider);
    assert [] + ["192.0.2.1"] == ["192.0.2.1"] && [] + [FIRST] == [FIRST];
    DesiredNext(DNS, ADDRESSES, 600, ["192.0.2.1"], "192.0.2.2", provider);
    assert ["192.0.2.1"] + ["192.0.2.2"] == ["192.0.2.1", "192.0.2.2"] && [FIRST] + [SECOND] == [FIRST, SECOND];
    assert "192.0.2.1"[8] != "192.0.2.2"[8];
  }

  lemma Edited()
    ensures BatchOf(Reconcile([OLD], [FIRST, SECOND])) == BATCH
  {
    var desired := [FIRST, SECOND];
    assert desired[1..] == [SECOND] && desired[1..][1..] == [];
    assert SameRecordValue(OLD, FIRST) && NeedsPatch(OLD, FIRST);
    assert FirstMatch([OLD], FIRST) == Some(0) && Without([OLD], 0) == [];
    assert FirstMatch([], SECOND) == None;
    assert Reconcile([], [SECOND]) == Edit([], [], [SECOND]);
    assert [Patch("1", FIRST)] + [] == [Patch("1", FIRST)];
  }

  lemma OldRRset()
    ensures RRset([OLD], ADDRESSES) == [OLD]
  {
    assert [OLD][1..] == [];
  }

  lemma InheritedFrom(r: Record)
    requires r.proxied == None && r.comment == "" && r.tags == []
    ensures Inherited([r], Provider(None, None, None)) == Provider(None, Some(""), Some([]))
  {
  }

  lemma NamedRecord()
    ensures !BlankId(OLD)
  {
    Text.AlreadyTrimmed("1");
  }

  lemma Upserted()
    ensures PlanUpsert(DNS, ADDRESSES, [OLD], CHANGE) == Some(STEP)
  {
    InheritedFrom(OLD);
    Wanted(Provider(None, Some(""), Some([])));
    Edited();
    NamedRecord();
  }

  lemma PlannedStep()
    ensures PlanChange(DNS, ZONE, CHANGE) == Some(STEP)
  {
    ChangedKeys();
    UpsertAction();
    OldRRset();
    Upserted();
  }

  lemma OneStep()
    ensures Steps(DNS, ZONE, [CHANGE]) == Some([STEP])
    ensures Joined([STEP]) == BATCH && ExpectedOf([STEP]) == [FIRST, SECOND]
  {
    PlannedStep();
    SingleStep(Planned(DNS, ZONE, [CHANGE]), STEP);
    assert [STEP][..0] == [] && ExpectedOf([]) == [];
  }

  lemma AcceptedRequest()
    ensures Acceptable(DNS, ZONE, Request("r", [CHANGE]))
  {
    OneStep();
    Text.AlreadyTrimmed("r");
    forall owner ensures CnameRule(TypesAt(ZONE.records, owner), TrackedTypes(ZONE.records, [STEP], owner)) {
      AddressesOnly([OLD], [STEP], owner);
    }
  }

  lemma AddressesOnly(records: seq<Record>, steps: seq<Step>, owner: string)
    requires |steps| == 1 && steps[0].key == ADDRESSES && forall r :: r in records ==> r.rtype == "A"
    ensures "CNAME" !in TrackedTypes(records, steps, owner)
  {
    assert steps[..0] == [] && TrackedTypes(records, [], owner) == TypesAt(records, owner);
  }

  lemma Executed()
    ensures Execute([OLD], BATCH, ["2"]) == [PATCHED, CREATED]
  {
    assert [OLD][1..] == [] && BATCH.creates[1..] == [] && ["2"][1..] == [];
    assert PatchFor(BATCH.patches, "1") == Some(FIRST) && !Deletes(BATCH.deletes, "1");
    assert Survivors([], BATCH) == [] && Survivors([OLD], BATCH) == [PATCHED] + [];
    assert Created([], []) == [] && Created([SECOND], ["2"]) == [CREATED] + [];
  }

  lemma AffectedOnce()
    ensures Affected(DNS, "z", [CHANGE]) == {ADDRESSES}
  {
    ChangedKeys();
    OneAffected([CHANGE], ADDRESSES);
  }

  lemma OneAffected(changes: seq<Change>, key: Key)
    requires |changes| == 1 && AffectedKey(DNS, "z", changes[0]) == key
    ensures Affected(DNS, "z", changes) == {key}
  {
  }

  lemma RollbackOfOne(r: Record, key: Key)
    requires RecordKey(r) == key
    ensures RollbackBatch([r], [r], {key}) == Batch([DeleteOf(r)], [], [Forget(r)])
  {
    assert [r][1..] == [] && Select([], {key}) == [];
    assert Select([r], {key}) == [r] + [];
    assert ForgetAll([]) == [] && ForgetAll([r]) == [Forget(r)] + [];
    assert DeletesOf([r]) == [DeleteOf(r)];
  }

  /** Of two records the batch deletes the first and leaves the second. */
  lemma DeletesFirst(a: Record, b: Record, batch: Batch)
    requires batch.patches == [] && Deletes(batch.deletes, a.id) && !Deletes(batch.deletes, b.id)
    ensures Survivors([a, b], batch) == [b]
  {
    assert [a, b][1..] == [b] && [b][1..] == [];
    assert Survivors([b], batch) == [b] + [];
  }

  lemma Compensation()
    ensures Execute([PATCHED, CREATED], Batch([DeleteOf(OLD)], [], [Forget(OLD)]), ["3"]) == [CREATED, RECREATED]
  {
    var batch := Batch([DeleteOf(OLD)], [], [Forget(OLD)]);
    assert batch.deletes[0].id == "1";
    DeletesFirst(PATCHED, CREATED, batch);
    assert [Forget(OLD)][1..] == [] && ["3"][1..] == [];
    assert Created([], []) == [] && Created([Forget(OLD)], ["3"]) == [RECREATED] + [];
    assert [CREATED] + [RECREATED] == [CREATED, RECREATED];
  }

  lemma TwoRecords(a: Record, b: Record)
    requires RecordKey(a) == RecordKey(b) == ADDRESSES
    ensures RRset([a, b], ADDRESSES) == [a, b] && ForgetAll([a, b]) == [Forget(a), Forget(b)]
  {
    assert [a, b][1..] == [b] && [b][1..] == [];
    assert RRset([b], ADDRESSES) == [b] + [] && RRset([a, b], ADDRESSES) == [a] + [b];
    assert ForgetAll([b]) == [Forget(b)] + [] && ForgetAll([a, b]) == [Forget(a)] + [Forget(b)];
  }

  lemma TwoSignatures(a: Operation, b: Operation)
    requires OpKey(a) == OpKey(b) == ADDRESSES
    ensures OpsOf([a, b], ADDRESSES) == [a, b]
    ensures Signatures([a, b]) == multiset{SignatureOf(a), SignatureOf(b)}
  {
    assert [a, b][1..] == [b] && [b][1..] == [];
    assert OpsOf([b], ADDRESSES) == [b] + [] && OpsOf([a, b], ADDRESSES) == [a] + [b];
    assert Signatures([b]) == multiset{SignatureOf(b)} + multiset{};
  }

  /** The zone ends with two records of different TTLs. */
  lemma NeitherOne()
    ensures !NoneChanged([OLD], [CREATED, RECREATED])
    ensures !RRsetMatches([CREATED, RECREATED], [FIRST, SECOND], ADDRESSES)
    ensures !RRsetMatches([OLD], [FIRST, SECOND], ADDRESSES)
  {
    OldRRset();
    TwoRecords(CREATED, RECREATED);
    assert |ForgetAll(RRset([CREATED, RECREATED], ADDRESSES))| == 2 && |ForgetAll(RRset([OLD], ADDRESSES))| == 1;
    TwoSignatures(FIRST, SECOND);
    TwoSignatures(Forget(CREATED), Forget(RECREATED));
    BagSize([FIRST, SECOND]);
    BagSize(ForgetAll([OLD]));
    var back := SignatureOf(Forget(RECREATED));
    assert back.ttl == 300 && back in multiset{SignatureOf(Forget(CREATED)), back};
  }

  lemma BehindOutcome(plan: Plan)
    requires plan.changes == [CHANGE] && plan.expected == [FIRST, SECOND]
    ensures Applied(DNS, ZONE, ZONE.records, plan, [PATCHED, CREATED], ["3"], [CREATED, RECREATED], BEHIND,
                    Result(true, false, false, true), Some(VerificationFailed))
  {
    ChangedKeys();
    AffectedOnce();
    RollbackOfOne(OLD, ADDRESSES);
    Compensation();
    NeitherOne();
    assert !PlanShows(DNS, "z", plan, [OLD]) by {
      assert plan.changes[0] == CHANGE;
    }
    assert Shown(BEHIND.rollbackPolls[0], [CREATED, RECREATED]) == Some([OLD]);
    assert OriginalShows([OLD], {ADDRESSES}, [OLD]);
  }

  /** The provider accepts the request, shows the old zone throughout, and the rollback
      reports success; but the zone has neither all changes nor none. */
  lemma StaleListingNotRestored()
    ensures Acceptable(DNS, ZONE, Request("r", [CHANGE])) && TypeTrimmed(CHANGE)
    ensures var plan := PlanFor(DNS, ZONE, Request("r", [CHANGE]));
            && plan.batch == BATCH
            && Execute(ZONE.records, plan.batch, ["2"]) == [PATCHED, CREATED]
            && Applied(DNS, ZONE, ZONE.records, plan, [PATCHED, CREATED], ["3"], [CREATED, RECREATED], BEHIND,
                       Result(true, false, false, true), Some(VerificationFailed))
    ensures !AllChanged(DNS, ZONE, [CHANGE], [CREATED, RECREATED]) && !NoneChanged(ZONE.records, [CREATED, RECREATED])
  {
    ChangedKeys();
    OneStep();
    AcceptedRequest();
    Executed();
    NeitherOne();
    BehindOutcome(PlanFor(DNS, ZONE, Request("r", [CHANGE])));
    assert HasKey([STEP], ADDRESSES) by {
      assert [STEP][0].key == ADDRESSES;
    }
  }
}
