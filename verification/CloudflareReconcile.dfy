/** Turning an existing RRset into a desired one with as few deletes and creates as
    possible (`reconcileRRset`). */
module CloudflareReconcile {
  import opened Options
  import opened CloudflareRecords
  import Sets
  import Text

  predicate BlankId(r: Record) {
    Text.TrimSpace(r.id) == ""
  }

  /** A matched record that is not yet as wanted. */
  predicate NeedsPatch(r: Record, wanted: Operation) {
    r.ttl != wanted.ttl || r.proxied != wanted.proxied || r.comment != wanted.comment || r.tags != wanted.tags
  }

  /** The edits for one RRset; `dropped` are the records to delete. */
  datatype Edit = Edit(dropped: seq<Record>, patches: seq<Patch>, creates: seq<Operation>)

  function Without<T>(s: seq<T>, i: nat): seq<T>
    requires i < |s|
  {
    s[..i] + s[i + 1..]
  }

  function FirstMatch(records: seq<Record>, wanted: Operation): (r: Option<nat>)
    ensures r.Some? ==> r.value < |records| && SameRecordValue(records[r.value], wanted)
    ensures r.None? ==> forall i :: 0 <= i < |records| ==> !SameRecordValue(records[i], wanted)
  {
    if records == [] then None
    else if SameRecordValue(records[0], wanted) then Some(0)
    else
      match FirstMatch(records[1..], wanted)
      case None => None
      case Some(i) => Some(i + 1)
  }

  function PatchesFor(r: Record, wanted: Operation): seq<Patch> {
    if NeedsPatch(r, wanted) then [Patch(r.id, wanted)] else []
  }

  /** Match each desired record to the first existing one of the same value. */
  function Reconcile(existing: seq<Record>, desired: seq<Operation>): Edit {
    if desired == [] then Edit(existing, [], [])
    else
      var wanted := desired[0];
      match FirstMatch(existing, wanted)
      case None =>
        var e := Reconcile(existing, desired[1..]);
        Edit(e.dropped, e.patches, [wanted] + e.creates)
      case Some(i) =>
        var e := Reconcile(Without(existing, i), desired[1..]);
        Edit(e.dropped, PatchesFor(existing[i], wanted) + e.patches, e.creates)
  }

  method FindMatch(records: seq<Record>, wanted: Operation) returns (r: Option<nat>)
    ensures r == FirstMatch(records, wanted)
  {
    var i := 0;
    while i < |records|
      invariant 0 <= i <= |records|
      invariant forall j :: 0 <= j < i ==> !SameRecordValue(records[j], wanted)
    {
      if SameRecordValue(records[i], wanted) {
        FirstMatchAt(records, wanted, i);
        return Some(i);
      }
      i := i + 1;
    }
    r := None;
  }

  lemma {:induction false} FirstMatchAt(records: seq<Record>, wanted: Operation, i: nat)
    requires i < |records| && SameRecordValue(records[i], wanted)
    requires forall j :: 0 <= j < i ==> !SameRecordValue(records[j], wanted)
    ensures FirstMatch(records, wanted) == Some(i)
  {
    if i > 0 {
      FirstMatchAt(records[1..], wanted, i - 1);
    }
  }

  function Prefixed(patches: seq<Patch>, creates: seq<Operation>, e: Edit): Edit {
    Edit(e.dropped, patches + e.patches, creates + e.creates)
  }

  lemma ReconcileStep(
    remaining: seq<Record>, desired: seq<Operation>, j: nat, patches: seq<Patch>, creates: seq<Operation>)
    requires j < |desired|
    ensures var next := FirstMatch(remaining, desired[j]);
            Prefixed(patches, creates, Reconcile(remaining, desired[j..])) ==
            if next.None? then Prefixed(patches, creates + [desired[j]], Reconcile(remaining, desired[j + 1..]))
            else Prefixed(patches + PatchesFor(remaining[next.value], desired[j]), creates,
                          Reconcile(Without(remaining, next.value), desired[j + 1..]))
  {
    assert desired[j..][1..] == desired[j + 1..];
    var next := FirstMatch(remaining, desired[j]);
    if next.None? {
      var e := Reconcile(remaining, desired[j + 1..]);
      assert creates + ([desired[j]] + e.creates) == creates + [desired[j]] + e.creates;
    } else {
      var e, p := Reconcile(Without(remaining, next.value), desired[j + 1..]),
          PatchesFor(remaining[next.value], desired[j]);
      assert patches + (p + e.patches) == patches + p + e.patches;
    }
  }

  /** `reconcileRRset`; None is its error, given exactly when an existing record has
      no identifier. */
  method ReconcileRRset(existing: seq<Record>, desired: seq<Operation>) returns (r: Option<Edit>)
    ensures r.Some? <==> forall x :: x in existing ==> !BlankId(x)
    ensures r.Some? ==> r.value == Reconcile(existing, desired)
  {
    var remaining := existing;
    var patches: seq<Patch>, creates: seq<Operation> := [], [];
    assert desired[0..] == desired;
    for j := 0 to |desired|
      invariant Prefixed(patches, creates, Reconcile(remaining, desired[j..])) == Reconcile(existing, desired)
      invariant forall x :: x in remaining ==> x in existing
      invariant forall x :: x in existing ==> x in remaining || !BlankId(x)
    {
      var wanted := desired[j];
      ReconcileStep(remaining, desired, j, patches, creates);
      var next := FindMatch(remaining, wanted);
      if next.None? {
        creates := creates + [wanted];
        continue;
      }
      var record := remaining[next.value];
      if BlankId(record) {
        assert record in existing;
        return None;
      }
      remaining := Without(remaining, next.value);
      patches := patches + PatchesFor(record, wanted);
    }
    assert desired[|desired|..] == [];
    var k := 0;
    while k < |remaining|
      invariant 0 <= k <= |remaining|
      invariant forall i :: 0 <= i < k ==> !BlankId(remaining[i])
    {
      if BlankId(remaining[k]) {
        return None;
      }
      k := k + 1;
    }
    r := Some(Edit(remaining, patches, creates));
  }

  function DeletesOf(records: seq<Record>): seq<Delete> {
    seq(|records|, i requires 0 <= i < |records| => DeleteOf(records[i]))
  }

  function BatchOf(e: Edit): Batch {
    Batch(DeletesOf(e.dropped), e.patches, e.creates)
  }

  lemma DeletesOfRecords(records: seq<Record>, id: string)
    ensures Deletes(DeletesOf(records), id) <==> exists r :: r in records && r.id == id
  {
    if Deletes(DeletesOf(records), id) {
      var i :| 0 <= i < |records| && DeletesOf(records)[i].id == id;
      assert records[i] in records;
    }
    if r :| r in records && r.id == id {
      var i :| 0 <= i < |records| && records[i] == r;
      assert DeletesOf(records)[i].id == id;
    }
  }

  /** The edits touch existing records only, and keep the desired RRset's key. */
  lemma {:induction false} EditConfined(existing: seq<Record>, desired: seq<Operation>, id: string)
    ensures forall r :: r in Reconcile(existing, desired).dropped ==> r in existing
    ensures PatchFor(Reconcile(existing, desired).patches, id).Some? ==> exists r :: r in existing && r.id == id
    ensures PatchFor(Reconcile(existing, desired).patches, id).Some? ==>
              PatchFor(Reconcile(existing, desired).patches, id).value in desired
    ensures forall op :: op in Reconcile(existing, desired).creates ==> op in desired
  {
    if desired != [] {
      var wanted := desired[0];
      var next := FirstMatch(existing, wanted);
      if next.None? {
        EditConfined(existing, desired[1..], id);
      } else {
        EditConfined(Without(existing, next.value), desired[1..], id);
        PatchConcat(PatchesFor(existing[next.value], wanted),
            Reconcile(Without(existing, next.value), desired[1..]).patches, id);
        assert existing[next.value] in existing;
        assert wanted in desired;
      }
    }
  }

  // -------------------------------------------------------------- correctness

  lemma PatchedSignature(r: Record, wanted: Operation)
    requires SameRecordValue(r, wanted)
    ensures SignatureOf(Forget(Patched(r, wanted))) == SignatureOf(wanted)
    ensures !NeedsPatch(r, wanted) ==> SignatureOf(Forget(r)) == SignatureOf(wanted)
  {
  }

  lemma UniqueWithout(records: seq<Record>, i: nat)
    requires UniqueIds(records) && i < |records|
    ensures UniqueIds(Without(records, i))
    ensures forall r :: r in Without(records, i) ==> r in records && r.id != records[i].id
  {
    var rest := Without(records, i);
    assert forall j :: 0 <= j < |rest| ==> rest[j] == if j < i then records[j] else records[j + 1];
  }

  /** The batch for a matched record and the rest decides on the rest like the
      batch for the rest, and makes the matched record as wanted. */
  lemma MatchedBatch(existing: seq<Record>, i: nat, wanted: Operation, desired: seq<Operation>)
    requires UniqueIds(existing) && i < |existing| && SameRecordValue(existing[i], wanted)
    ensures var rest, e' := Without(existing, i), Reconcile(Without(existing, i), desired);
            var batch := BatchOf(Edit(e'.dropped, PatchesFor(existing[i], wanted) + e'.patches, e'.creates));
            && Survivors(rest, batch) == Survivors(rest, BatchOf(e'))
            && !Deletes(batch.deletes, existing[i].id)
            && SignatureOf(Forget(Apply(existing[i], batch.patches))) == SignatureOf(wanted)
            && Apply(existing[i], batch.patches) ==
                 if PatchesFor(existing[i], wanted) == [] then existing[i] else Patched(existing[i], wanted)
  {
    var r, rest, e' := existing[i], Without(existing, i), Reconcile(Without(existing, i), desired);
    var batch := BatchOf(Edit(e'.dropped, PatchesFor(r, wanted) + e'.patches, e'.creates));
    UniqueWithout(existing, i);
    forall x | x in rest ensures PatchFor(batch.patches, x.id) == PatchFor(e'.patches, x.id) {
      PatchConcat(PatchesFor(r, wanted), e'.patches, x.id);
    }
    SurvivorsAgree(rest, batch, BatchOf(e'));
    EditConfined(rest, desired, r.id);
    DeletesOfRecords(e'.dropped, r.id);
    PatchConcat(PatchesFor(r, wanted), e'.patches, r.id);
    PatchedSignature(r, wanted);
  }

  lemma SurvivorsAt(existing: seq<Record>, i: nat, batch: Batch)
    requires i < |existing| && !Deletes(batch.deletes, existing[i].id)
    ensures Signatures(ForgetAll(Survivors(existing, batch))) ==
            multiset{SignatureOf(Forget(Apply(existing[i], batch.patches)))}
                + Signatures(ForgetAll(Survivors(Without(existing, i), batch)))
    ensures multiset(ForgetAll(Survivors(existing, batch))) ==
            multiset{Forget(Apply(existing[i], batch.patches))}
                + multiset(ForgetAll(Survivors(Without(existing, i), batch)))
  {
    var a, r, b := existing[..i], existing[i], existing[i + 1..];
    assert existing == a + ([r] + b);
    SurvivorsConcat(a, [r] + b, batch);
    SurvivorsConcat(a, b, batch);
    var sa, sb, x := Survivors(a, batch), Survivors(b, batch), Apply(r, batch.patches);
    assert ([r] + b)[1..] == b;
    assert Survivors([r] + b, batch) == [x] + sb;
    ForgetConcat(sa, [x] + sb);
    ForgetConcat(sa, sb);
    assert ([x] + sb)[1..] == sb;
    assert ForgetAll([x] + sb) == [Forget(x)] + ForgetAll(sb);
    BagConcat(ForgetAll(sa), [Forget(x)] + ForgetAll(sb));
    BagConcat([Forget(x)], ForgetAll(sb));
    BagConcat(ForgetAll(sa), ForgetAll(sb));
    assert [Forget(x)][1..] == [];
  }

  /** Executing the edits gives the desired values and TTLs, each as often as
      desired. */
  lemma {:induction false} ReconcileCorrect(existing: seq<Record>, desired: seq<Operation>)
    requires UniqueIds(existing)
    ensures var e := Reconcile(existing, desired);
            Signatures(ForgetAll(Survivors(existing, BatchOf(e)))) + Signatures(e.creates) == Signatures(desired)
  {
    if desired == [] {
      AllDropped(existing, existing);
    } else {
      var wanted := desired[0];
      var next := FirstMatch(existing, wanted);
      if next.None? {
        ReconcileCorrect(existing, desired[1..]);
        var e' := Reconcile(existing, desired[1..]);
        SurvivorsAgree(existing, BatchOf(Reconcile(existing, desired)), BatchOf(e'));
        assert ([wanted] + e'.creates)[1..] == e'.creates;
      } else {
        UniqueWithout(existing, next.value);
        ReconcileCorrect(Without(existing, next.value), desired[1..]);
        MatchedBatch(existing, next.value, wanted, desired[1..]);
        SurvivorsAt(existing, next.value, BatchOf(Reconcile(existing, desired)));
      }
    }
  }

  lemma {:induction false} AllDropped(part: seq<Record>, existing: seq<Record>)
    requires forall r :: r in part ==> r in existing
    ensures Survivors(part, BatchOf(Edit(existing, [], []))) == []
  {
    if part != [] {
      assert part[0] in part;
      DeletesOfRecords(existing, part[0].id);
      AllDropped(part[1..], existing);
    }
  }

  // ---------------------------------------------------------------- minimality

  lemma {:induction false} ValuesAt(existing: seq<Record>, i: nat)
    requires i < |existing|
    ensures Values(ForgetAll(existing)) == multiset{ValueOf(Forget(existing[i]))}
            + Values(ForgetAll(Without(existing, i)))
  {
    if i == 0 {
      assert Without(existing, 0) == existing[1..];
    } else {
      ValuesAt(existing[1..], i - 1);
      assert Without(existing, i)[1..] == Without(existing[1..], i - 1);
    }
  }

  lemma MissingValue(v: Value, have: multiset<Value>, want: multiset<Value>)
    requires v !in have
    ensures have - (multiset{v} + want) == have - want
    ensures multiset{v} + want - have == multiset{v} + (want - have)
  {
  }

  lemma SharedValue(v: Value, have: multiset<Value>, want: multiset<Value>)
    ensures (multiset{v} + have) - (multiset{v} + want) == have - want
  {
  }

  lemma {:induction false} NoSuchValue(records: seq<Record>, wanted: Operation)
    requires forall i :: 0 <= i < |records| ==> !SameRecordValue(records[i], wanted)
    ensures ValueOf(wanted) !in Values(ForgetAll(records))
  {
    if records != [] {
      SameValue(records[0], wanted);
      NoSuchValue(records[1..], wanted);
    }
  }

  /** The greedy match finds the whole multiset intersection by value: only values
      that are not wanted are deleted, only values that are missing are created. */
  lemma {:induction false} ReconcileExact(existing: seq<Record>, desired: seq<Operation>)
    ensures var e, have, want := Reconcile(existing, desired), Values(ForgetAll(existing)), Values(desired);
            Values(ForgetAll(e.dropped)) == have - want && Values(e.creates) == want - have
  {
    if desired != [] {
      var wanted, want := desired[0], Values(desired[1..]);
      var next := FirstMatch(existing, wanted);
      if next.None? {
        ReconcileExact(existing, desired[1..]);
        NoSuchValue(existing, wanted);
        MissingValue(ValueOf(wanted), Values(ForgetAll(existing)), want);
        var e' := Reconcile(existing, desired[1..]);
        assert ([wanted] + e'.creates)[1..] == e'.creates;
      } else {
        var rest := Without(existing, next.value);
        ReconcileExact(rest, desired[1..]);
        ValuesAt(existing, next.value);
        SameValue(existing[next.value], wanted);
        SharedValue(ValueOf(wanted), Values(ForgetAll(rest)), want);
        SharedValue(ValueOf(wanted), want, Values(ForgetAll(rest)));
      }
    }
  }

  /** A batch that keeps the values of the records it does not delete. */
  ghost predicate KeepsValues(existing: seq<Record>, batch: Batch) {
    forall r :: r in existing ==> ValueOf(Forget(Apply(r, batch.patches))) == ValueOf(Forget(r))
  }

  lemma {:induction false} SurvivorValues(existing: seq<Record>, batch: Batch)
    requires KeepsValues(existing, batch)
    ensures Values(ForgetAll(Survivors(existing, batch))) <= Values(ForgetAll(existing))
  {
    if existing != [] {
      assert existing[0] in existing;
      SurvivorValues(existing[1..], batch);
      var rest := Survivors(existing[1..], batch);
      var x := Apply(existing[0], batch.patches);
      assert ([x] + rest)[1..] == rest;
    }
  }

  lemma BagMinimum(have: multiset<Value>, want: multiset<Value>, kept: multiset<Value>, made: multiset<Value>)
    requires kept <= have && kept + made == want
    ensures |have| - |kept| >= |have - want| && |made| >= |want - have|
  {
    assert kept <= have * want;
    assert have == (have - want) + have * want;
    assert want == (want - have) + have * want;
    assert have * want == kept + (have * want - kept);
  }

  /** The identifiers of the records that a batch removes. */
  ghost function RemovedIds(existing: seq<Record>, batch: Batch): (r: set<string>)
    ensures forall id :: id in r ==> Deletes(batch.deletes, id) && exists x :: x in existing && x.id == id
  {
    if existing == [] then {}
    else if Deletes(batch.deletes, existing[0].id) then RemovedIds(existing[1..], batch) + {existing[0].id}
    else RemovedIds(existing[1..], batch)
  }

  lemma {:induction false} RemovedCount(existing: seq<Record>, batch: Batch)
    requires UniqueIds(existing)
    ensures |RemovedIds(existing, batch)| == |existing| - |Survivors(existing, batch)|
  {
    if existing != [] {
      RemovedCount(existing[1..], batch);
      assert existing[0].id !in RemovedIds(existing[1..], batch);
    }
  }

  function DeleteIds(deletes: seq<Delete>): set<string> {
    set d | d in deletes :: d.id
  }

  lemma {:induction false} DeleteIdCount(deletes: seq<Delete>)
    ensures |DeleteIds(deletes)| <= |deletes|
  {
    if deletes != [] {
      DeleteIdCount(deletes[1..]);
      assert deletes == [deletes[0]] + deletes[1..];
      assert DeleteIds(deletes) == DeleteIds(deletes[1..]) + {deletes[0].id};
    }
  }

  /** A batch removes no more records than it has deletes. */
  lemma DeletesEnough(existing: seq<Record>, batch: Batch)
    requires UniqueIds(existing)
    ensures |existing| - |Survivors(existing, batch)| <= |batch.deletes|
  {
    RemovedCount(existing, batch);
    DeleteIdCount(batch.deletes);
    Sets.SubsetSize(RemovedIds(existing, batch), DeleteIds(batch.deletes));
  }

  /** No batch that keeps the values of the records it patches, and yields the desired
      values, removes fewer records, deletes fewer or creates fewer. */
  lemma ReconcileMinimal(existing: seq<Record>, desired: seq<Operation>, batch: Batch)
    requires KeepsValues(existing, batch)
    requires Values(ForgetAll(Survivors(existing, batch))) + Values(batch.creates) == Values(desired)
    ensures |existing| - |Survivors(existing, batch)| >= |Reconcile(existing, desired).dropped|
    ensures UniqueIds(existing) ==> |batch.deletes| >= |Reconcile(existing, desired).dropped|
    ensures |batch.creates| >= |Reconcile(existing, desired).creates|
  {
    var e, kept := Reconcile(existing, desired), ForgetAll(Survivors(existing, batch));
    ReconcileExact(existing, desired);
    SurvivorValues(existing, batch);
    BagMinimum(Values(ForgetAll(existing)), Values(desired), Values(kept), Values(batch.creates));
    BagSize(ForgetAll(existing));
    BagSize(kept);
    BagSize(batch.creates);
    BagSize(ForgetAll(e.dropped));
    BagSize(e.creates);
    if UniqueIds(existing) {
      DeletesEnough(existing, batch);
    }
  }
}
