/** The planner as it runs, and the theorems about the plans it accepts. */
module CloudflarePlans {
  import opened Options
  import opened CloudflareRecords
  import opened CloudflareReconcile
  import opened CloudflarePlanner
  import Text

  lemma {:induction false} CollectDistinct(planned: seq<Option<Step>>)
    requires Collect(planned).Some?
    ensures |Collect(planned).value| == |planned| && DistinctKeys(Collect(planned).value)
  {
    if planned != [] {
      var n := |planned| - 1;
      CollectDistinct(planned[..n]);
      var before, steps := Collect(planned[..n]).value, Collect(planned).value;
      assert forall i :: 0 <= i < n ==> steps[i] == before[i];
    }
  }

  lemma {:induction false} CollectAt(planned: seq<Option<Step>>, i: nat)
    requires Collect(planned).Some? && i < |planned| == |Collect(planned).value|
    ensures planned[i] == Some(Collect(planned).value[i])
  {
    var n := |planned| - 1;
    CollectDistinct(planned[..n]);
    if i < n {
      CollectAt(planned[..n], i);
      assert planned[..n][i] == planned[i];
    }
  }

  lemma StepsWellFormed(dns: Dns, zone: Zone, changes: seq<Change>)
    requires UniqueIds(zone.records) && Steps(dns, zone, changes).Some?
    ensures var steps := Steps(dns, zone, changes).value;
            && |steps| == |changes|
            && DistinctKeys(steps)
            && (forall i :: 0 <= i < |steps| ==> PlanChange(dns, zone, changes[i]) == Some(steps[i]))
            && (forall i :: 0 <= i < |steps| ==> Confined(steps[i], zone.records))
  {
    var planned := Planned(dns, zone, changes);
    CollectDistinct(planned);
    var steps := Steps(dns, zone, changes).value;
    forall i | 0 <= i < |steps|
      ensures PlanChange(dns, zone, changes[i]) == Some(steps[i])
      ensures Confined(steps[i], zone.records)
    {
      CollectAt(planned, i);
      PlanChangeConfined(dns, zone, changes[i]);
    }
  }

  /** After a step, its RRset has the expected values and TTLs. */
  lemma StepCorrect(dns: Dns, zone: Zone, change: Change)
    requires UniqueIds(zone.records) && PlanChange(dns, zone, change).Some?
    ensures var step := PlanChange(dns, zone, change).value;
            Signatures(ForgetAll(Survivors(RRset(zone.records, step.key), step.batch))) +
            Signatures(step.batch.creates) == Signatures(step.expected)
  {
    var step := PlanChange(dns, zone, change).value;
    var existing := RRset(zone.records, step.key);
    if step.upsert {
      UniqueRRset(zone.records, step.key);
      ReconcileCorrect(existing, step.expected);
    } else {
      AllDropped(existing, existing);
    }
  }

  lemma {:induction false} UniqueRRset(records: seq<Record>, key: Key)
    requires UniqueIds(records)
    ensures UniqueIds(RRset(records, key))
  {
    if records != [] {
      UniqueRRset(records[1..], key);
      forall r | r in RRset(records[1..], key) ensures r.id != records[0].id {
        RRsetMembers(records[1..], key, r);
        var j :| 0 <= j < |records[1..]| && records[1..][j] == r;
        assert records[j + 1] == r;
      }
    }
  }

  /** What `planMatches` decides about one RRset. */
  ghost predicate RRsetMatches(records: seq<Record>, expected: seq<Operation>, key: Key) {
    Signatures(ForgetAll(RRset(records, key))) == Signatures(OpsOf(expected, key))
  }

  /** Executing the batch of accepted changes gives every changed RRset the expected
      values and TTLs, and leaves every other RRset exactly as it was. */
  lemma PlanCorrect(dns: Dns, zone: Zone, changes: seq<Change>, ids: seq<string>, key: Key)
    requires UniqueIds(zone.records) && Steps(dns, zone, changes).Some?
    requires |ids| == |Joined(Steps(dns, zone, changes).value).creates|
    ensures var steps := Steps(dns, zone, changes).value;
            var after := Execute(zone.records, Joined(steps), ids);
            && (HasKey(steps, key) ==> RRsetMatches(after, ExpectedOf(steps), key))
            && (!HasKey(steps, key) ==> RRset(after, key) == RRset(zone.records, key))
  {
    var steps := Steps(dns, zone, changes).value;
    StepsWellFormed(dns, zone, changes);
    ExecutedRRset(zone.records, steps, ids, key);
    if HasKey(steps, key) {
      var i :| 0 <= i < |steps| && steps[i].key == key;
      StepBatchAt(steps, i);
      StepCorrect(dns, zone, changes[i]);
      ExpectedAt(zone.records, steps, i);
      BagConcat(ForgetAll(Survivors(RRset(zone.records, key), steps[i].batch)), steps[i].batch.creates);
    } else {
      StepBatchNone(steps, key);
      EmptyBatch(RRset(zone.records, key));
    }
  }

  lemma {:induction false} EmptyBatch(records: seq<Record>)
    ensures Survivors(records, Batch([], [], [])) == records
  {
    if records != [] {
      EmptyBatch(records[1..]);
    }
  }

  /** The RRset of a key in the executed zone, up to the identifiers of created
      records: what its own batch leaves, then what it creates. */
  lemma ExecutedRRset(records: seq<Record>, steps: seq<Step>, ids: seq<string>, key: Key)
    requires DistinctKeys(steps) && |ids| == |Joined(steps).creates|
    requires forall i :: 0 <= i < |steps| ==> Confined(steps[i], records)
    ensures var left := Survivors(RRset(records, key), StepBatch(steps, key));
            && ForgetAll(RRset(Execute(records, Joined(steps), ids), key)) ==
                 ForgetAll(left) + StepBatch(steps, key).creates
            && (StepBatch(steps, key).creates == [] ==> RRset(Execute(records, Joined(steps), ids), key) == left)
  {
    var batch := Joined(steps);
    RRsetConcat(Survivors(records, batch), Created(batch.creates, ids), key);
    LocalEffect(records, records, steps, key);
    CreatedOps(batch.creates, ids, key);
    JoinedCreates(records, steps, key);
    ForgetConcat(Survivors(RRset(records, key), StepBatch(steps, key)), RRset(Created(batch.creates, ids), key));
  }

  // ------------------------------------------------------------ record types

  function TypesAt(records: seq<Record>, owner: string): set<string> {
    set r | r in records && r.name == owner :: r.rtype
  }

  /** The types the planner tracks for an owner through the changes. */
  function TrackedTypes(records: seq<Record>, steps: seq<Step>, owner: string): set<string> {
    if steps == [] then TypesAt(records, owner)
    else
      var n := |steps| - 1;
      var before := TrackedTypes(records, steps[..n], owner);
      if steps[n].key.name != owner then before
      else if steps[n].upsert then before + {steps[n].key.rtype}
      else before - {steps[n].key.rtype}
  }

  lemma TypePresent(records: seq<Record>, owner: string, rtype: string)
    ensures rtype in TypesAt(records, owner) <==> RRset(records, Key(owner, rtype)) != []
  {
    var set_ := RRset(records, Key(owner, rtype));
    if rtype in TypesAt(records, owner) {
      var r :| r in records && r.name == owner && r.rtype == rtype;
      RRsetMembers(records, Key(owner, rtype), r);
    }
    if set_ != [] {
      RRsetMembers(records, Key(owner, rtype), set_[0]);
      assert set_[0] in records && set_[0].name == owner;
    }
  }

  lemma {:induction false} TrackedType(records: seq<Record>, steps: seq<Step>, owner: string, rtype: string)
    requires DistinctKeys(steps)
    ensures !HasKey(steps, Key(owner, rtype)) ==>
              (rtype in TrackedTypes(records, steps, owner) <==> rtype in TypesAt(records, owner))
    ensures forall i :: 0 <= i < |steps| && steps[i].key == Key(owner, rtype) ==>
              (rtype in TrackedTypes(records, steps, owner) <==> steps[i].upsert)
  {
    if steps != [] {
      var n, key := |steps| - 1, Key(owner, rtype);
      TrackedType(records, steps[..n], owner, rtype);
      assert forall i :: 0 <= i < n ==> steps[..n][i] == steps[i];
      assert steps[n].key == key || HasKey(steps[..n], key) ==> HasKey(steps, key);
      if !HasKey(steps, key) {
        assert steps[n].key != key;
      }
    }
  }

  /** An accepted upsert leaves records in its RRset, a delete leaves none. */
  lemma StepFills(dns: Dns, zone: Zone, change: Change)
    requires PlanChange(dns, zone, change).Some?
    ensures var step := PlanChange(dns, zone, change).value; step.upsert <==> step.expected != []
  {
    var step := PlanChange(dns, zone, change).value;
    if step.upsert {
      DesiredKeys(dns, step.key, change.ttl, change.records, Inherited(RRset(zone.records, step.key), change.provider));
    }
  }

  /** The tracked types are the types present once the plan is executed. */
  lemma TypeTracking(dns: Dns, zone: Zone, changes: seq<Change>, ids: seq<string>, owner: string)
    requires UniqueIds(zone.records) && Steps(dns, zone, changes).Some?
    requires |ids| == |Joined(Steps(dns, zone, changes).value).creates|
    ensures TrackedTypes(zone.records, Steps(dns, zone, changes).value, owner) ==
            TypesAt(Execute(zone.records, Joined(Steps(dns, zone, changes).value), ids), owner)
  {
    var steps := Steps(dns, zone, changes).value;
    var after := Execute(zone.records, Joined(steps), ids);
    StepsWellFormed(dns, zone, changes);
    forall rtype ensures rtype in TrackedTypes(zone.records, steps, owner) <==> rtype in TypesAt(after, owner) {
      var key := Key(owner, rtype);
      TrackedType(zone.records, steps, owner, rtype);
      TypePresent(after, owner, rtype);
      PlanCorrect(dns, zone, changes, ids, key);
      if HasKey(steps, key) {
        var i :| 0 <= i < |steps| && steps[i].key == key;
        StepFills(dns, zone, changes[i]);
        ExpectedAt(zone.records, steps, i);
        BagSize(ForgetAll(RRset(after, key)));
        BagSize(steps[i].expected);
      } else {
        TypePresent(zone.records, owner, rtype);
      }
    }
  }

  /** The CNAME rule at an owner whose types go from `before` to `after`. */
  predicate CnameRule(before: set<string>, after: set<string>) {
    "CNAME" in after && |after| > 1 ==> after == before
  }

  /** When `planChanges` accepts a request. */
  ghost predicate Acceptable(dns: Dns, zone: Zone, request: Request) {
    && Text.TrimSpace(request.expectedRevision) != "" && request.expectedRevision == zone.revision
    && 1 <= |request.changes| <= 100
    && Steps(dns, zone, request.changes).Some?
    && var steps := Steps(dns, zone, request.changes).value;
       forall owner :: CnameRule(TypesAt(zone.records, owner), TrackedTypes(zone.records, steps, owner))
  }

  function PlanFor(dns: Dns, zone: Zone, request: Request): Plan
    requires Steps(dns, zone, request.changes).Some?
  {
    var steps := Steps(dns, zone, request.changes).value;
    Plan(Joined(steps), ExpectedOf(steps), request.changes)
  }

  /** An accepted request never puts a CNAME next to other types at an owner whose
      types it changes. */
  lemma CnameSafety(dns: Dns, zone: Zone, request: Request, ids: seq<string>, owner: string)
    requires UniqueIds(zone.records) && Acceptable(dns, zone, request)
    requires |ids| == |PlanFor(dns, zone, request).batch.creates|
    ensures var after := TypesAt(Execute(zone.records, PlanFor(dns, zone, request).batch, ids), owner);
            after != TypesAt(zone.records, owner) ==> "CNAME" !in after || after == {"CNAME"}
  {
    TypeTracking(dns, zone, request.changes, ids, owner);
    var after := TypesAt(Execute(zone.records, PlanFor(dns, zone, request).batch, ids), owner);
    assert CnameRule(TypesAt(zone.records, owner), after);
    if "CNAME" in after && |after| == 1 {
      assert after - {"CNAME"} == {} by {
        assert after == {"CNAME"} + (after - {"CNAME"});
      }
    }
  }

  // ------------------------------------------------------------- the planner

  /** `sameTypeSet` decides whether two sets of types are equal. */
  method SameTypeSet(left: set<string>, right: set<string>) returns (same: bool)
    ensures same <==> left == right
  {
    if |left| != |right| {
      return false;
    }
    var pending := left;
    while pending != {}
      invariant pending <= left
      invariant left - pending <= right
      decreases |pending|
    {
      var value :| value in pending;
      if value !in right {
        return false;
      }
      pending := pending - {value};
    }
    assert left <= right;
    assert right == left + (right - left);
    same := true;
  }

  function Find<K, V>(m: map<K, V>, k: K, default: V): V {
    if k in m then m[k] else default
  }

  method GroupRecords(records: seq<Record>) returns (existing: map<Key, seq<Record>>, types: map<string, set<string>>)
    ensures forall key :: Find(existing, key, []) == RRset(records, key)
    ensures forall owner :: Find(types, owner, {}) == TypesAt(records, owner)
  {
    existing, types := map[], map[];
    for i := 0 to |records|
      invariant forall key :: Find(existing, key, []) == RRset(records[..i], key)
      invariant forall owner :: Find(types, owner, {}) == TypesAt(records[..i], owner)
    {
      var record := records[i];
      ghost var e0, t0 := existing, types;
      existing := existing[RecordKey(record) := Find(existing, RecordKey(record), []) + [record]];
      types := types[record.name := Find(types, record.name, {}) + {record.rtype}];
      forall key ensures Find(existing, key, []) == RRset(records[..i + 1], key) {
        assert Find(e0, key, []) == RRset(records[..i], key);
        GroupStep(records, i, key);
      }
      forall owner ensures Find(types, owner, {}) == TypesAt(records[..i + 1], owner) {
        assert Find(t0, owner, {}) == TypesAt(records[..i], owner);
        TypeStep(records, i, owner);
      }
    }
    assert records[..|records|] == records;
  }

  lemma GroupStep(records: seq<Record>, i: nat, key: Key)
    requires i < |records|
    ensures RRset(records[..i + 1], key) ==
            if RecordKey(records[i]) == key then RRset(records[..i], key) + [records[i]] else RRset(records[..i], key)
  {
    assert records[..i + 1] == records[..i] + [records[i]];
    RRsetConcat(records[..i], [records[i]], key);
  }

  lemma TypeStep(records: seq<Record>, i: nat, owner: string)
    requires i < |records|
    ensures TypesAt(records[..i + 1], owner) ==
            if records[i].name == owner then TypesAt(records[..i], owner) + {records[i].rtype}
                else TypesAt(records[..i], owner)
  {
    assert records[..i + 1] == records[..i] + [records[i]];
  }

  method DesiredRecords(
    dns: Dns, key: Key, ttl: nat, values: seq<string>, provider: Provider)
    returns (r: Option<seq<Operation>>)
    ensures r == Desired(dns, key, ttl, values, provider)
  {
    var desired := [];
    for i := 0 to |values|
      invariant Desired(dns, key, ttl, values[..i], provider) == Some(desired)
    {
      assert values[..i + 1][..i] == values[..i];
      var op := CreateOperation(dns, key, ttl, values[i], provider);
      if op.None? || op.value in desired {
        DesiredPrefix(dns, key, ttl, values, i + 1, provider);
        return None;
      }
      desired := desired + [op.value];
    }
    assert values[..|values|] == values;
    r := Some(desired);
  }

  lemma {:induction false} DesiredPrefix(dns: Dns, key: Key, ttl: nat, values: seq<string>, i: nat, provider: Provider)
    requires i <= |values| && Desired(dns, key, ttl, values[..i], provider).None?
    ensures Desired(dns, key, ttl, values, provider).None?
    decreases |values| - i
  {
    if i == |values| {
      assert values[..i] == values;
    } else {
      assert values[..i + 1][..i] == values[..i];
      DesiredPrefix(dns, key, ttl, values, i + 1, provider);
    }
  }

  method PlanOne(dns: Dns, zone: Zone, existing: map<Key, seq<Record>>, change: Change) returns (r: Option<Step>)
    requires forall key :: Find(existing, key, []) == RRset(zone.records, key)
    ensures r == PlanChange(dns, zone, change)
  {
    var key := PlannedKey(dns, zone.name, change);
    if key.None? {
      return None;
    }
    var records := Find(existing, key.value, []);
    var action := Text.ToLower(Text.TrimSpace(change.action));
    if action == "delete" {
      return PlanDelete(key.value, records, change);
    }
    if action != "upsert" || !ValidTTL(change.ttl) || change.records == [] {
      return None;
    }
    var desired := DesiredRecords(dns, key.value, change.ttl, change.records, Inherited(records, change.provider));
    if desired.None? {
      return None;
    }
    var edit := ReconcileRRset(records, desired.value);
    if edit.None? {
      return None;
    }
    r := Some(Step(key.value, true, BatchOf(edit.value), desired.value));
  }

  lemma {:induction false} CollectPrefix(planned: seq<Option<Step>>, i: nat)
    requires i <= |planned| && Collect(planned[..i]).None?
    ensures Collect(planned).None?
    decreases |planned| - i
  {
    if i == |planned| {
      assert planned[..i] == planned;
    } else {
      assert planned[..i + 1][..i] == planned[..i];
      CollectPrefix(planned, i + 1);
    }
  }

  /** The type sets the planner keeps, after one more step. */
  function TypesAfter(types: map<string, set<string>>, s: Step): map<string, set<string>> {
    var before := Find(types, s.key.name, {});
    types[s.key.name := if s.upsert then before + {s.key.rtype} else before - {s.key.rtype}]
  }

  ghost predicate Tracks(types: map<string, set<string>>, records: seq<Record>, steps: seq<Step>) {
    forall owner :: Find(types, owner, {}) == TrackedTypes(records, steps, owner)
  }

  lemma TracksStep(types: map<string, set<string>>, records: seq<Record>, steps: seq<Step>, s: Step)
    requires Tracks(types, records, steps)
    ensures Tracks(TypesAfter(types, s), records, steps + [s])
  {
    assert (steps + [s])[..|steps|] == steps;
    forall owner ensures Find(TypesAfter(types, s), owner, {}) == TrackedTypes(records, steps + [s], owner) {
      assert Find(types, owner, {}) == TrackedTypes(records, steps, owner);
    }
  }

  ghost predicate Seen(seen: set<Key>, steps: seq<Step>) {
    forall key :: key in seen <==> HasKey(steps, key)
  }

  lemma SeenStep(seen: set<Key>, steps: seq<Step>, s: Step)
    requires Seen(seen, steps)
    ensures Seen(seen + {s.key}, steps + [s])
  {
    forall key ensures HasKey(steps + [s], key) <==> HasKey(steps, key) || key == s.key {
      if HasKey(steps, key) {
        var i :| 0 <= i < |steps| && steps[i].key == key;
        assert (steps + [s])[i].key == key;
      }
      assert (steps + [s])[|steps|] == s;
    }
  }

  lemma JoinedStep(steps: seq<Step>, s: Step)
    ensures Joined(steps + [s]) == Join(Joined(steps), s.batch)
    ensures ExpectedOf(steps + [s]) == ExpectedOf(steps) + s.expected
  {
    assert (steps + [s])[..|steps|] == steps;
  }

  lemma CollectStep(planned: seq<Option<Step>>, i: nat, steps: seq<Step>)
    requires i < |planned| && Collect(planned[..i]) == Some(steps)
    ensures Collect(planned[..i + 1]) ==
            if planned[i].None? || HasKey(steps, planned[i].value.key) then None else Some(steps + [planned[i].value])
  {
    assert planned[..i + 1][..i] == planned[..i];
  }

  /** The loop of `planChanges` over the changes. */
  method PlanSteps(
    dns: Dns, zone: Zone, existing: map<Key, seq<Record>>, types: map<string, set<string>>, changes: seq<Change>)
    returns (r: Option<Plan>, finalTypes: map<string, set<string>>)
    requires forall key :: Find(existing, key, []) == RRset(zone.records, key)
    requires forall owner :: Find(types, owner, {}) == TypesAt(zone.records, owner)
    ensures r.Some? <==> Steps(dns, zone, changes).Some?
    ensures r.Some? ==> r.value == PlanFor(dns, zone, Request("", changes))
    ensures r.Some? ==> Tracks(finalTypes, zone.records, Steps(dns, zone, changes).value)
  {
    finalTypes := types;
    var batch, expected := Batch([], [], []), [];
    ghost var steps, planned := [], Planned(dns, zone, changes);
    var seen: set<Key> := {};
    for i := 0 to |changes|
      invariant Collect(planned[..i]) == Some(steps)
      invariant Seen(seen, steps)
      invariant batch == Joined(steps) && expected == ExpectedOf(steps)
      invariant Tracks(finalTypes, zone.records, steps)
    {
      var step := PlanOne(dns, zone, existing, changes[i]);
      CollectStep(planned, i, steps);
      if step.None? || step.value.key in seen {
        CollectPrefix(planned, i + 1);
        return None, finalTypes;
      }
      var s := step.value;
      SeenStep(seen, steps, s);
      JoinedStep(steps, s);
      TracksStep(finalTypes, zone.records, steps, s);
      seen := seen + {s.key};
      batch := Join(batch, s.batch);
      expected := expected + s.expected;
      finalTypes := TypesAfter(finalTypes, s);
      steps := steps + [s];
    }
    assert planned[..|changes|] == planned;
    r := Some(Plan(batch, expected, changes));
  }

  /** `planChanges`: it accepts exactly the acceptable requests, with the plan that
      joins the steps of all changes. */
  method PlanChanges(dns: Dns, zone: Zone, request: Request) returns (r: Option<Plan>)
    ensures r.Some? <==> Acceptable(dns, zone, request)
    ensures r.Some? ==> r.value == PlanFor(dns, zone, request)
  {
    if Text.TrimSpace(request.expectedRevision) == "" || request.expectedRevision != zone.revision {
      return None;
    }
    if |request.changes| == 0 || |request.changes| > 100 {
      return None;
    }
    var existing, initialTypes := GroupRecords(zone.records);
    var plan, finalTypes := PlanSteps(dns, zone, existing, initialTypes, request.changes);
    if plan.None? {
      return None;
    }
    var ok := CnameRuleHolds(initialTypes, finalTypes);
    if !ok {
      return None;
    }
    r := plan;
  }

  method CnameRuleHolds(initialTypes: map<string, set<string>>, finalTypes: map<string, set<string>>) returns (ok: bool)
    ensures ok <==> forall owner :: CnameRule(Find(initialTypes, owner, {}), Find(finalTypes, owner, {}))
  {
    var owners := finalTypes.Keys;
    while owners != {}
      invariant owners <= finalTypes.Keys
      invariant forall owner :: owner in finalTypes && owner !in owners ==>
                  CnameRule(Find(initialTypes, owner, {}), finalTypes[owner])
      decreases |owners|
    {
      var owner :| owner in owners;
      owners := owners - {owner};
      var types := finalTypes[owner];
      if "CNAME" in types && |types| > 1 {
        var same := SameTypeSet(types, Find(initialTypes, owner, {}));
        if !same {
          assert !CnameRule(Find(initialTypes, owner, {}), Find(finalTypes, owner, {}));
          return false;
        }
      }
    }
    ok := true;
  }
}
