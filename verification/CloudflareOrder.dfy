/** What does not depend on order: the order of the changes in a request, and the order of
    the operations in a plan. */
module CloudflareOrder {
  import opened Options
  import opened CloudflareRecords
  import opened CloudflareReconcile
  import opened CloudflarePlanner
  import opened CloudflarePlans
  import opened Bags

  // -------------------------------------------------------- order of changes

  /** Every change is accepted on its own, and no RRset comes twice. */
  ghost predicate Collectable(planned: seq<Option<Step>>) {
    && (forall i :: 0 <= i < |planned| ==> planned[i].Some?)
    && (forall i, j :: 0 <= i < j < |planned| ==> planned[i].value.key != planned[j].value.key)
  }

  lemma {:induction false} CollectExactly(planned: seq<Option<Step>>)
    ensures Collect(planned).Some? <==> Collectable(planned)
  {
    if planned != [] {
      var n := |planned| - 1;
      var init := planned[..n];
      CollectExactly(init);
      if Collect(init).Some? {
        CollectDistinct(init);
        forall i | 0 <= i < n ensures planned[i] == Some(Collect(init).value[i]) {
          CollectAt(init, i);
        }
        if planned[n].Some? && !HasKey(Collect(init).value, planned[n].value.key) {
          forall i | 0 <= i < n ensures planned[i].value.key != planned[n].value.key {
            assert Collect(init).value[i].key != planned[n].value.key;
          }
        }
      } else {
        assert Collectable(planned) ==> Collectable(init);
      }
    }
  }

  /** The same steps in some order. */
  ghost predicate SameSteps(a: seq<Step>, b: seq<Step>) {
    (forall i :: 0 <= i < |a| ==> a[i] in b) && (forall i :: 0 <= i < |b| ==> b[i] in a)
  }

  lemma CollectPermutes(a: seq<Option<Step>>, b: seq<Option<Step>>)
    requires multiset(a) == multiset(b) && Collect(a).Some?
    ensures Collect(b).Some? && SameSteps(Collect(a).value, Collect(b).value)
  {
    CollectExactly(a);
    forall j | 0 <= j < |b| ensures b[j].Some? {
      assert b[j] in multiset(a);
    }
    forall j, k | 0 <= j < k < |b| ensures b[j].value.key != b[k].value.key {
      var i, l := PlacesBack(a, b, j, k);
    }
    CollectExactly(b);
    CollectMembers(a, b);
    CollectMembers(b, a);
  }

  lemma CollectMembers(a: seq<Option<Step>>, b: seq<Option<Step>>)
    requires multiset(a) == multiset(b) && Collect(a).Some? && Collect(b).Some?
    ensures forall i :: 0 <= i < |Collect(a).value| ==> Collect(a).value[i] in Collect(b).value
  {
    CollectDistinct(a);
    CollectDistinct(b);
    forall i | 0 <= i < |Collect(a).value| ensures Collect(a).value[i] in Collect(b).value {
      CollectAt(a, i);
      assert a[i] in multiset(b);
      var j :| 0 <= j < |b| && b[j] == a[i];
      CollectAt(b, j);
    }
  }

  /** A permutation of accepted changes is accepted, with the same steps. */
  lemma StepsPermute(dns: Dns, zone: Zone, a: seq<Change>, b: seq<Change>)
    requires multiset(a) == multiset(b) && Steps(dns, zone, a).Some?
    ensures Steps(dns, zone, b).Some? && |a| == |b|
    ensures SameSteps(Steps(dns, zone, a).value, Steps(dns, zone, b).value)
    ensures DistinctKeys(Steps(dns, zone, a).value) && DistinctKeys(Steps(dns, zone, b).value)
  {
    var f := (c: Change) => PlanChange(dns, zone, c);
    assert |a| == |multiset(a)| == |multiset(b)| == |b|;
    assert Planned(dns, zone, a) == MapSeq(f, a) && Planned(dns, zone, b) == MapSeq(f, b);
    MapPermutes(f, a, b);
    CollectPermutes(MapSeq(f, a), MapSeq(f, b));
    CollectDistinct(MapSeq(f, a));
    CollectDistinct(MapSeq(f, b));
  }

  lemma SameStepBatch(a: seq<Step>, b: seq<Step>, key: Key)
    requires DistinctKeys(a) && DistinctKeys(b) && SameSteps(a, b)
    ensures StepBatch(a, key) == StepBatch(b, key)
  {
    if HasKey(a, key) {
      var i :| 0 <= i < |a| && a[i].key == key;
      var j :| 0 <= j < |b| && b[j] == a[i];
      StepBatchAt(a, i);
      StepBatchAt(b, j);
    } else {
      assert !HasKey(b, key);
      StepBatchNone(a, key);
      StepBatchNone(b, key);
    }
  }

  /** The order of the changes does not matter: every order of accepted changes is
      accepted and gives the same zone, up to the identifiers of created records. */
  lemma OrderIrrelevant(
    dns: Dns, zone: Zone, a: seq<Change>, b: seq<Change>, ids: seq<string>, ids': seq<string>, key: Key)
    requires UniqueIds(zone.records) && Steps(dns, zone, a).Some? && multiset(a) == multiset(b)
    requires |ids| == |Joined(Steps(dns, zone, a).value).creates|
    ensures Steps(dns, zone, b).Some?
    ensures |ids'| == |Joined(Steps(dns, zone, b).value).creates| ==>
              ForgetAll(RRset(Execute(zone.records, Joined(Steps(dns, zone, a).value), ids), key)) ==
              ForgetAll(RRset(Execute(zone.records, Joined(Steps(dns, zone, b).value), ids'), key))
  {
    StepsPermute(dns, zone, a, b);
    var sa, sb := Steps(dns, zone, a).value, Steps(dns, zone, b).value;
    StepsWellFormed(dns, zone, a);
    StepsWellFormed(dns, zone, b);
    if |ids'| == |Joined(sb).creates| {
      ExecutedRRset(zone.records, sa, ids, key);
      ExecutedRRset(zone.records, sb, ids', key);
      SameStepBatch(sa, sb, key);
    }
  }

  lemma SameTracked(records: seq<Record>, a: seq<Step>, b: seq<Step>, owner: string)
    requires DistinctKeys(a) && DistinctKeys(b) && SameSteps(a, b)
    ensures TrackedTypes(records, a, owner) == TrackedTypes(records, b, owner)
  {
    forall rtype ensures rtype in TrackedTypes(records, a, owner) <==> rtype in TrackedTypes(records, b, owner) {
      var key := Key(owner, rtype);
      TrackedType(records, a, owner, rtype);
      TrackedType(records, b, owner, rtype);
      if HasKey(a, key) {
        var i :| 0 <= i < |a| && a[i].key == key;
        var j :| 0 <= j < |b| && b[j] == a[i];
      } else {
        assert !HasKey(b, key);
      }
    }
  }

  /** Whether a request is accepted does not depend on the order of its changes. */
  lemma AcceptancePermutes(dns: Dns, zone: Zone, a: Request, b: Request)
    requires UniqueIds(zone.records)
    requires a.expectedRevision == b.expectedRevision && multiset(a.changes) == multiset(b.changes)
    ensures Acceptable(dns, zone, a) <==> Acceptable(dns, zone, b)
  {
    if Acceptable(dns, zone, a) {
      CnamesPermute(dns, zone, a.changes, b.changes);
    }
    if Acceptable(dns, zone, b) {
      CnamesPermute(dns, zone, b.changes, a.changes);
    }
  }

  lemma CnamesPermute(dns: Dns, zone: Zone, a: seq<Change>, b: seq<Change>)
    requires UniqueIds(zone.records) && Steps(dns, zone, a).Some? && multiset(a) == multiset(b)
    requires var steps := Steps(dns, zone, a).value;
             forall owner :: CnameRule(TypesAt(zone.records, owner), TrackedTypes(zone.records, steps, owner))
    ensures Steps(dns, zone, b).Some? && |a| == |b|
    ensures var steps := Steps(dns, zone, b).value;
            forall owner :: CnameRule(TypesAt(zone.records, owner), TrackedTypes(zone.records, steps, owner))
  {
    StepsPermute(dns, zone, a, b);
    var sa, sb := Steps(dns, zone, a).value, Steps(dns, zone, b).value;
    forall owner ensures CnameRule(TypesAt(zone.records, owner), TrackedTypes(zone.records, sb, owner)) {
      SameTracked(zone.records, sa, sb, owner);
      assert CnameRule(TypesAt(zone.records, owner), TrackedTypes(zone.records, sa, owner));
    }
  }

  // ----------------------------------------------------- order of operations

  ghost predicate UniquePatches(patches: seq<Patch>) {
    forall i, j :: 0 <= i < j < |patches| ==> patches[i].id != patches[j].id
  }

  lemma {:induction false} PatchListed(patches: seq<Patch>, id: string)
    ensures PatchFor(patches, id).Some? ==> Patch(id, PatchFor(patches, id).value) in patches
    ensures PatchFor(patches, id).None? ==> forall p :: p in patches ==> p.id != id
  {
    if patches != [] {
      PatchListed(patches[1..], id);
      assert patches == [patches[0]] + patches[1..];
    }
  }

  lemma SamePatch(a: seq<Patch>, b: seq<Patch>, id: string)
    requires UniquePatches(a) && multiset(a) == multiset(b)
    ensures PatchFor(a, id) == PatchFor(b, id)
  {
    PatchListed(a, id);
    PatchListed(b, id);
    assert forall p :: p in b <==> p in multiset(b);
    assert forall p :: p in a <==> p in multiset(a);
    if PatchFor(a, id).Some? && PatchFor(b, id).Some? {
      var p, q := Patch(id, PatchFor(a, id).value), Patch(id, PatchFor(b, id).value);
      assert p in a && q in a;
      var i :| 0 <= i < |a| && a[i] == p;
      var j :| 0 <= j < |a| && a[j] == q;
    }
  }

  lemma SameDeletes(a: seq<Delete>, b: seq<Delete>, id: string)
    requires multiset(a) == multiset(b)
    ensures Deletes(a, id) ==> Deletes(b, id)
  {
    if Deletes(a, id) {
      var i :| 0 <= i < |a| && a[i].id == id;
      assert a[i] in multiset(b);
      var j :| 0 <= j < |b| && b[j] == a[i];
    }
  }

  lemma {:induction false} SameSurvivors(records: seq<Record>, a: Batch, b: Batch)
    requires multiset(a.deletes) == multiset(b.deletes)
    requires multiset(a.patches) == multiset(b.patches) && UniquePatches(a.patches)
    ensures Survivors(records, a) == Survivors(records, b)
  {
    if records != [] {
      SameSurvivors(records[1..], a, b);
      SameDeletes(a.deletes, b.deletes, records[0].id);
      SameDeletes(b.deletes, a.deletes, records[0].id);
      SamePatch(a.patches, b.patches, records[0].id);
    }
  }

  lemma {:induction false} OpsBag(ops: seq<Operation>, key: Key, op: Operation)
    ensures multiset(OpsOf(ops, key))[op] == if OpKey(op) == key then multiset(ops)[op] else 0
  {
    if ops != [] {
      OpsBag(ops[1..], key, op);
      assert ops == [ops[0]] + ops[1..];
      assert OpKey(ops[0]) == key ==> multiset(OpsOf(ops, key)) == multiset{ops[0]} + multiset(OpsOf(ops[1..], key));
    }
  }

  lemma SameOps(a: seq<Operation>, b: seq<Operation>, key: Key)
    requires multiset(a) == multiset(b)
    ensures multiset(OpsOf(a, key)) == multiset(OpsOf(b, key))
  {
    forall op ensures multiset(OpsOf(a, key))[op] == multiset(OpsOf(b, key))[op] {
      OpsBag(a, key, op);
      OpsBag(b, key, op);
    }
  }

  /** Sorting the deletes, patches and creates of a batch does not change what executing
      it does: every RRset has the same records, up to order and new identifiers. */
  lemma BatchOrderIrrelevant(records: seq<Record>, a: Batch, b: Batch, ids: seq<string>, ids': seq<string>, key: Key)
    requires multiset(a.deletes) == multiset(b.deletes) && multiset(a.creates) == multiset(b.creates)
    requires multiset(a.patches) == multiset(b.patches) && UniquePatches(a.patches)
    requires |ids| == |a.creates| && |ids'| == |b.creates|
    ensures multiset(ForgetAll(RRset(Execute(records, a, ids), key)))
            == multiset(ForgetAll(RRset(Execute(records, b, ids'), key)))
  {
    SameSurvivors(records, a, b);
    SameOps(a.creates, b.creates, key);
    ExecutedOps(records, a, ids, key);
    ExecutedOps(records, b, ids', key);
  }

  lemma ExecutedOps(records: seq<Record>, batch: Batch, ids: seq<string>, key: Key)
    requires |ids| == |batch.creates|
    ensures ForgetAll(RRset(Execute(records, batch, ids), key))
            == ForgetAll(RRset(Survivors(records, batch), key)) + OpsOf(batch.creates, key)
  {
    RRsetConcat(Survivors(records, batch), Created(batch.creates, ids), key);
    CreatedOps(batch.creates, ids, key);
    ForgetConcat(RRset(Survivors(records, batch), key), RRset(Created(batch.creates, ids), key));
  }

  // --------------------------------------------- the patches of a plan are unique

  ghost predicate PatchesAmong(patches: seq<Patch>, records: seq<Record>) {
    forall p :: p in patches ==> exists r :: r in records && r.id == p.id
  }

  lemma {:induction false} EditPatches(existing: seq<Record>, desired: seq<Operation>)
    requires UniqueIds(existing)
    ensures UniquePatches(Reconcile(existing, desired).patches)
    ensures PatchesAmong(Reconcile(existing, desired).patches, existing)
  {
    if desired != [] {
      var wanted := desired[0];
      match FirstMatch(existing, wanted)
      case None => EditPatches(existing, desired[1..]);
      case Some(i) =>
        var rest := Without(existing, i);
        UniqueWithout(existing, i);
        EditPatches(rest, desired[1..]);
        PatchBefore(existing, i, wanted, Reconcile(rest, desired[1..]).patches);
    }
  }

  lemma PatchBefore(existing: seq<Record>, i: nat, wanted: Operation, patches: seq<Patch>)
    requires UniqueIds(existing) && i < |existing|
    requires UniquePatches(patches) && PatchesAmong(patches, Without(existing, i))
    ensures UniquePatches(PatchesFor(existing[i], wanted) + patches)
    ensures PatchesAmong(PatchesFor(existing[i], wanted) + patches, existing)
  {
    var rest := Without(existing, i);
    forall p | p in patches ensures p.id != existing[i].id && exists r :: r in existing && r.id == p.id {
      var r :| r in rest && r.id == p.id;
      var k :| 0 <= k < |rest| && rest[k] == r;
      assert existing[if k < i then k else k + 1] == r;
    }
    assert existing[i] in existing;
  }

  /** The patches of a step go to different records of its RRset. */
  ghost predicate OwnPatches(step: Step, records: seq<Record>) {
    && UniquePatches(step.batch.patches)
    && forall p :: p in step.batch.patches ==> exists r :: r in records && r.id == p.id && RecordKey(r) == step.key
  }

  lemma UpsertPatches(records: seq<Record>, key: Key, desired: seq<Operation>)
    requires UniqueIds(records)
    ensures OwnPatches(Step(key, true, BatchOf(Reconcile(RRset(records, key), desired)), desired), records)
  {
    var existing := RRset(records, key);
    UniqueRRset(records, key);
    EditPatches(existing, desired);
    forall p | p in Reconcile(existing, desired).patches
      ensures exists r :: r in records && r.id == p.id && RecordKey(r) == key
    {
      var r :| r in existing && r.id == p.id;
      RRsetMembers(records, key, r);
    }
  }

  ghost predicate PatchOf(steps: seq<Step>, records: seq<Record>, p: Patch) {
    exists i, r :: 0 <= i < |steps| && r in records && r.id == p.id && RecordKey(r) == steps[i].key
  }

  lemma {:induction false} JoinedPatches(steps: seq<Step>, records: seq<Record>)
    requires UniqueIds(records) && DistinctKeys(steps)
    requires forall i :: 0 <= i < |steps| ==> OwnPatches(steps[i], records)
    ensures UniquePatches(Joined(steps).patches)
    ensures forall p :: p in Joined(steps).patches ==> PatchOf(steps, records, p)
  {
    if steps != [] {
      var n := |steps| - 1;
      var init, last := steps[..n], steps[n];
      JoinedPatches(init, records);
      forall p, q | p in Joined(init).patches && q in last.batch.patches ensures p.id != q.id {
        var i, r :| 0 <= i < |init| && r in records && r.id == p.id && RecordKey(r) == init[i].key;
        var x :| x in records && x.id == q.id && RecordKey(x) == last.key;
        if p.id == q.id {
          SameId(records, r, x);
        }
      }
      forall p | p in Joined(steps).patches ensures PatchOf(steps, records, p) {
        if p in Joined(init).patches {
          var i, r :| 0 <= i < |init| && r in records && r.id == p.id && RecordKey(r) == init[i].key;
          assert steps[i] == init[i];
        } else {
          assert p in last.batch.patches;
        }
      }
    }
  }

  /** No record is patched twice by a plan. */
  lemma PlanPatches(dns: Dns, zone: Zone, changes: seq<Change>)
    requires UniqueIds(zone.records) && Steps(dns, zone, changes).Some?
    ensures UniquePatches(Joined(Steps(dns, zone, changes).value).patches)
  {
    StepsWellFormed(dns, zone, changes);
    var steps := Steps(dns, zone, changes).value;
    forall i | 0 <= i < |steps| ensures OwnPatches(steps[i], zone.records) {
      assert PlanChange(dns, zone, changes[i]) == Some(steps[i]);
      if steps[i].upsert {
        UpsertPatches(zone.records, steps[i].key, steps[i].expected);
      }
    }
    JoinedPatches(steps, zone.records);
  }
}
