/** Checking that an applied plan shows: greedy matching and `planMatches`. */
module CloudflareApply {
  import opened Options
  import opened CloudflareRecords
  import opened CloudflarePlanner
  import opened CloudflarePlans

  // ----------------------------------------------------------- greedy matching

  ghost function Chosen<S>(actual: seq<S>, used: seq<bool>): multiset<S>
    requires |used| == |actual|
  {
    if actual == [] then multiset{}
    else (if used[0] then multiset{actual[0]} else multiset{}) + Chosen(actual[1..], used[1..])
  }

  lemma {:induction false} ChooseOne<S>(actual: seq<S>, used: seq<bool>, i: nat)
    requires |used| == |actual| && i < |actual| && !used[i]
    ensures Chosen(actual, used[i := true]) == Chosen(actual, used) + multiset{actual[i]}
  {
    if i > 0 {
      ChooseOne(actual[1..], used[1..], i - 1);
      assert used[i := true][1..] == used[1..][i - 1 := true];
    } else {
      assert used[0 := true][1..] == used[1..];
    }
  }

  lemma {:induction false} ChosenBound<S>(actual: seq<S>, used: seq<bool>, w: S)
    requires |used| == |actual|
    ensures Chosen(actual, used)[w] <= multiset(actual)[w]
    ensures (forall i :: 0 <= i < |actual| && !used[i] ==> actual[i] != w) ==>
              Chosen(actual, used)[w] == multiset(actual)[w]
  {
    if actual != [] {
      ChosenBound(actual[1..], used[1..], w);
      assert actual == [actual[0]] + actual[1..];
    }
  }

  lemma {:induction false} NoneChosen<S>(actual: seq<S>, used: seq<bool>)
    requires |used| == |actual| && forall i :: 0 <= i < |used| ==> !used[i]
    ensures Chosen(actual, used) == multiset{}
  {
    if actual != [] {
      NoneChosen(actual[1..], used[1..]);
    }
  }

  lemma NoMatch<S>(actual: seq<S>, used: seq<bool>, wanted: seq<S>, j: nat)
    requires |used| == |actual| && j < |wanted|
    requires Chosen(actual, used) == multiset(wanted[..j])
    requires forall i :: 0 <= i < |actual| && !used[i] ==> actual[i] != wanted[j]
    ensures multiset(actual) != multiset(wanted)
  {
    ChosenBound(actual, used, wanted[j]);
    assert wanted == wanted[..j] + ([wanted[j]] + wanted[j + 1..]);
    assert multiset(wanted)[wanted[j]] >= multiset(wanted[..j])[wanted[j]] + 1;
  }

  lemma FullMatch<S(!new)>(actual: seq<S>, used: seq<bool>, wanted: seq<S>)
    requires |used| == |actual| == |wanted| && Chosen(actual, used) == multiset(wanted)
    ensures multiset(actual) == multiset(wanted)
  {
    var chosen, all := Chosen(actual, used), multiset(actual);
    forall w ensures chosen[w] <= all[w] {
      ChosenBound(actual, used, w);
    }
    assert chosen <= all;
    assert all == chosen + (all - chosen);
  }

  lemma MatchStep<S>(actual: seq<S>, used: seq<bool>, wanted: seq<S>, j: nat, i: nat)
    requires |used| == |actual| && j < |wanted| && i < |actual| && !used[i] && actual[i] == wanted[j]
    requires Chosen(actual, used) == multiset(wanted[..j])
    ensures Chosen(actual, used[i := true]) == multiset(wanted[..j + 1])
  {
    ChooseOne(actual, used, i);
    assert wanted[..j + 1] == wanted[..j] + [wanted[j]];
  }

  /** The matching loop with a `used` flag per candidate finds a perfect match
      exactly when both sides have the same elements, each equally often. */
  method MatchAll<S(==,!new)>(actual: seq<S>, wanted: seq<S>) returns (ok: bool)
    requires |actual| == |wanted|
    ensures ok <==> multiset(actual) == multiset(wanted)
  {
    var used := new bool[|actual|](_ => false);
    NoneChosen(actual, used[..]);
    for j := 0 to |wanted|
      invariant fresh(used) && used.Length == |actual|
      invariant Chosen(actual, used[..]) == multiset(wanted[..j])
    {
      var found := FindUnused(actual, used, wanted[j]);
      if found.None? {
        NoMatch(actual, used[..], wanted, j);
        return false;
      }
      MatchStep(actual, used[..], wanted, j, found.value);
      ghost var before := used[..];
      used[found.value] := true;
      assert used[..] == before[found.value := true];
    }
    assert wanted[..|wanted|] == wanted;
    FullMatch(actual, used[..], wanted);
    ok := true;
  }

  method FindUnused<S(==)>(actual: seq<S>, used: array<bool>, w: S) returns (r: Option<nat>)
    requires used.Length == |actual|
    ensures r.Some? ==> r.value < |actual| && !used[r.value] && actual[r.value] == w
    ensures r.None? ==> forall i :: 0 <= i < |actual| && !used[i] ==> actual[i] != w
  {
    for i := 0 to |actual|
      invariant forall k :: 0 <= k < i && !used[k] ==> actual[k] != w
    {
      if !used[i] && actual[i] == w {
        return Some(i);
      }
    }
    r := None;
  }

  // -------------------------------------------------------------- planMatches

  function SignatureList(ops: seq<Operation>): seq<Signature> {
    seq(|ops|, i requires 0 <= i < |ops| => SignatureOf(ops[i]))
  }

  lemma {:induction false} SignatureBag(ops: seq<Operation>)
    ensures multiset(SignatureList(ops)) == Signatures(ops)
  {
    if ops != [] {
      SignatureBag(ops[1..]);
      assert SignatureList(ops) == [SignatureOf(ops[0])] + SignatureList(ops[1..]);
    }
  }

  /** The RRset that `planMatches` looks up for a change. */
  function MatchedKey(dns: Dns, zone: string, change: Change): Key {
    var owner := ChangeOwner(dns, zone, change.name);
    Key(if owner.Some? then owner.value else "", PlannedType(change))
  }

  method PlanMatches(dns: Dns, zone: string, records: seq<Record>, plan: Plan) returns (ok: bool)
    ensures ok <==> forall i :: 0 <= i < |plan.changes| ==>
              RRsetMatches(records, plan.expected, MatchedKey(dns, zone, plan.changes[i]))
  {
    for i := 0 to |plan.changes|
      invariant forall k :: 0 <= k < i ==> RRsetMatches(records, plan.expected, MatchedKey(dns, zone, plan.changes[k]))
    {
      var key := MatchedKey(dns, zone, plan.changes[i]);
      var matches := CheckRRset(records, plan.expected, key);
      if !matches {
        return false;
      }
    }
    ok := true;
  }

  method CheckRRset(records: seq<Record>, wanted: seq<Operation>, key: Key) returns (ok: bool)
    ensures ok <==> RRsetMatches(records, wanted, key)
  {
    var actual, expected := ForgetAll(RRset(records, key)), OpsOf(wanted, key);
    BagSize(actual);
    BagSize(expected);
    if |actual| != |expected| {
      return false;
    }
    SignatureBag(actual);
    SignatureBag(expected);
    ok := MatchAll(SignatureList(actual), SignatureList(expected));
  }

  /** Planning a change and executing the plan makes `planMatches` true, whatever
      identifiers the created records get. */
  method PlanThenExecute(
    dns: Dns, zone: Zone, request: Request, ids: seq<string>)
    returns (plan: Option<Plan>, matched: bool)
    requires UniqueIds(zone.records)
    requires Acceptable(dns, zone, request) ==> |ids| == |PlanFor(dns, zone, request).batch.creates|
    ensures plan.Some? <==> Acceptable(dns, zone, request)
    ensures plan.Some? ==> matched
  {
    plan := PlanChanges(dns, zone, request);
    if plan.None? {
      return None, false;
    }
    var after := Execute(zone.records, plan.value.batch, ids);
    matched := PlanMatches(dns, zone.name, after, plan.value);
    forall i | 0 <= i < |request.changes|
      ensures RRsetMatches(after, plan.value.expected, MatchedKey(dns, zone.name, request.changes[i]))
    {
      var key := MatchedKey(dns, zone.name, request.changes[i]);
      ChangedKey(dns, zone, request.changes, i);
      PlanCorrect(dns, zone, request.changes, ids, key);
    }
  }

  /** The key that a change is planned under is the one it is checked under. */
  lemma ChangedKey(dns: Dns, zone: Zone, changes: seq<Change>, i: nat)
    requires Steps(dns, zone, changes).Some? && i < |changes|
    ensures |Steps(dns, zone, changes).value| == |changes|
    ensures Steps(dns, zone, changes).value[i].key == MatchedKey(dns, zone.name, changes[i])
    ensures HasKey(Steps(dns, zone, changes).value, MatchedKey(dns, zone.name, changes[i]))
    ensures PlannedType(changes[i]) != ""
  {
    var planned := Planned(dns, zone, changes);
    CollectDistinct(planned);
    CollectAt(planned, i);
    PlannedUnder(dns, zone, changes[i]);
  }

  lemma PlannedUnder(dns: Dns, zone: Zone, change: Change)
    requires PlanChange(dns, zone, change).Some?
    ensures PlanChange(dns, zone, change).value.key == MatchedKey(dns, zone.name, change) && PlannedType(change) != ""
  {
    PlansKey(dns, zone, change);
    KeyMatched(dns, zone.name, change);
  }

  lemma PlansKey(dns: Dns, zone: Zone, change: Change)
    requires PlanChange(dns, zone, change).Some?
    ensures PlannedKey(dns, zone.name, change) == Some(PlanChange(dns, zone, change).value.key)
  {
  }

  lemma KeyMatched(dns: Dns, zone: string, change: Change)
    requires PlannedKey(dns, zone, change).Some?
    ensures PlannedKey(dns, zone, change) == Some(MatchedKey(dns, zone, change)) && PlannedType(change) != ""
  {
    var owner, rtype := ChangeOwner(dns, zone, change.name), PlannedType(change);
    assert owner.Some? && rtype in SUPPORTED_TYPES;
  }
}
