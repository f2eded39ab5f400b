/** What a request asks of each single record, told by fields, and that executing its
    plan does it. */
module CloudflareFulfilment {
  import opened Options
  import opened CloudflareRecords
  import opened CloudflareReconcile
  import opened CloudflarePlanner
  import opened CloudflarePlans
  import opened CloudflareApply
  import opened CloudflareRollback
  import Bags
  import Text

  /** Two operations carry the same data: MX records by text and priority, the others by
      trimmed text. */
  ghost predicate SameData(a: Operation, b: Operation) {
    && a.name == b.name && a.rtype == b.rtype
    && if a.rtype == "MX" then a.content == b.content && a.priority == b.priority
       else Text.TrimSpace(a.content) == Text.TrimSpace(b.content)
  }

  /** The settings of a record that was `r` before: those that the operation gives, and
      its own where the operation leaves them out. */
  ghost predicate Settled(r: Record, have: Operation, wanted: Operation) {
    && (if wanted.proxied.Some? then have.proxied == wanted.proxied else have.proxied == r.proxied)
    && (if wanted.comment != "" then have.comment == wanted.comment else have.comment == r.comment)
    && (if wanted.tags != [] then have.tags == wanted.tags else have.tags == r.tags)
  }

  /** A record is as an operation asks: it is what the operation says, or it has the same
      data and TTL and was there before. */
  ghost predicate Fulfils(before: seq<Record>, have: Operation, wanted: Operation) {
    || have == wanted
    || (&& SameData(have, wanted) && have.ttl == wanted.ttl
        && exists r :: r in before && SameData(Forget(r), wanted) && Settled(r, have, wanted))
  }

  ghost predicate InTurn(before: seq<Record>, have: seq<Operation>, wanted: seq<Operation>) {
    |have| == |wanted| && forall i :: 0 <= i < |have| ==> Fulfils(before, have[i], wanted[i])
  }

  ghost predicate Arranged(before: seq<Record>, order: seq<Operation>, have: seq<Operation>, wanted: seq<Operation>) {
    multiset(order) == multiset(have) && InTurn(before, order, wanted)
  }

  /** The records can be paired one to one with the operations that they fulfil. */
  ghost predicate Paired(before: seq<Record>, have: seq<Operation>, wanted: seq<Operation>) {
    exists order :: Arranged(before, order, have, wanted)
  }

  lemma PairMore(
    before: seq<Record>, rest: seq<Operation>, wanted: seq<Operation>, h: Operation, w: Operation,
    have: seq<Operation>)
    requires Paired(before, rest, wanted) && Fulfils(before, h, w)
    requires multiset(have) == multiset{h} + multiset(rest)
    ensures Paired(before, have, [w] + wanted)
  {
    var order :| Arranged(before, order, rest, wanted);
    assert InTurn(before, [h] + order, [w] + wanted);
    assert Arranged(before, [h] + order, have, [w] + wanted);
  }

  /** A matched record fulfils its operation, patched where that is needed. */
  lemma MatchedFulfils(before: seq<Record>, r: Record, wanted: Operation)
    requires r in before && SameRecordValue(r, wanted)
    ensures Fulfils(before, Forget(if PatchesFor(r, wanted) == [] then r else Patched(r, wanted)), wanted)
  {
    var after := if PatchesFor(r, wanted) == [] then r else Patched(r, wanted);
    assert SameData(Forget(after), wanted) && after.ttl == wanted.ttl;
    assert Settled(r, Forget(after), wanted);
  }

  /** The settings of a matched record become those of the operation exactly if the
      operation leaves out none that the record has: what is left out is not cleared. */
  lemma SettingsReached(r: Record, wanted: Operation)
    requires SameRecordValue(r, wanted)
    ensures var after := Apply(r, PatchesFor(r, wanted));
            (after.proxied == wanted.proxied && after.comment == wanted.comment && after.tags == wanted.tags) <==>
            && (wanted.proxied.None? ==> r.proxied.None?)
            && (wanted.comment == "" ==> r.comment == "")
            && (wanted.tags == [] ==> r.tags == [])
  {
    assert NeedsPatch(r, wanted) ==> PatchFor([Patch(r.id, wanted)], r.id) == Some(wanted);
  }

  /** What an RRset holds, up to identifiers, once its edits are executed. */
  function Edited(existing: seq<Record>, desired: seq<Operation>): seq<Operation> {
    var e := Reconcile(existing, desired);
    ForgetAll(Survivors(existing, BatchOf(e))) + e.creates
  }

  lemma EditedUnmatched(existing: seq<Record>, wanted: Operation, rest: seq<Operation>)
    requires FirstMatch(existing, wanted).None?
    ensures multiset(Edited(existing, [wanted] + rest)) == multiset{wanted} + multiset(Edited(existing, rest))
  {
    var desired := [wanted] + rest;
    assert desired[1..] == rest;
    var e, e' := Reconcile(existing, desired), Reconcile(existing, rest);
    SurvivorsAgree(existing, BatchOf(e), BatchOf(e'));
  }

  lemma EditedMatched(existing: seq<Record>, i: nat, wanted: Operation, rest: seq<Operation>)
    requires UniqueIds(existing) && FirstMatch(existing, wanted) == Some(i)
    ensures var r := existing[i];
            multiset(Edited(existing, [wanted] + rest)) ==
            multiset{Forget(if PatchesFor(r, wanted) == [] then r else Patched(r, wanted))}
                + multiset(Edited(Without(existing, i), rest))
  {
    var desired := [wanted] + rest;
    assert desired[1..] == rest;
    MatchedBatch(existing, i, wanted, rest);
    SurvivorsAt(existing, i, BatchOf(Reconcile(existing, desired)));
  }

  /** Executing the edits for an RRset gives records that fulfil the desired ones. */
  lemma {:induction false} ReconcileFulfils(before: seq<Record>, existing: seq<Record>, desired: seq<Operation>)
    requires UniqueIds(existing) && forall r :: r in existing ==> r in before
    ensures Paired(before, Edited(existing, desired), desired)
  {
    if desired == [] {
      AllDropped(existing, existing);
      BagSize(ForgetAll(Survivors(existing, BatchOf(Reconcile(existing, desired)))));
      assert Arranged(before, [], Edited(existing, desired), []);
      return;
    }
    var wanted, rest := desired[0], desired[1..];
    assert desired == [wanted] + rest;
    var next := FirstMatch(existing, wanted);
    if next.None? {
      ReconcileFulfils(before, existing, rest);
      EditedUnmatched(existing, wanted, rest);
      PairMore(before, Edited(existing, rest), rest, wanted, wanted, Edited(existing, desired));
    } else {
      var i, r := next.value, existing[next.value];
      UniqueWithout(existing, i);
      ReconcileFulfils(before, Without(existing, i), rest);
      EditedMatched(existing, i, wanted, rest);
      MatchedFulfils(before, r, wanted);
      PairMore(before, Edited(Without(existing, i), rest), rest,
          Forget(if PatchesFor(r, wanted) == [] then r else Patched(r, wanted)), wanted, Edited(existing, desired));
    }
  }

  /** After an accepted plan, the records of every planned RRset can be paired one to one
      with the expected operations, each fulfilling its own. */
  lemma PlanFulfils(dns: Dns, zone: Zone, changes: seq<Change>, ids: seq<string>, key: Key)
    requires UniqueIds(zone.records) && Steps(dns, zone, changes).Some?
    requires |ids| == |Joined(Steps(dns, zone, changes).value).creates|
    requires HasKey(Steps(dns, zone, changes).value, key)
    ensures var steps := Steps(dns, zone, changes).value;
            Paired(RRset(zone.records, key), ForgetAll(RRset(Execute(zone.records, Joined(steps), ids), key)),
                   OpsOf(ExpectedOf(steps), key))
  {
    var steps := Steps(dns, zone, changes).value;
    StepsWellFormed(dns, zone, changes);
    ExecutedRRset(zone.records, steps, ids, key);
    var i :| 0 <= i < |steps| && steps[i].key == key;
    StepBatchAt(steps, i);
    ExpectedAt(zone.records, steps, i);
    StepFulfils(dns, zone, changes[i]);
  }

  lemma StepFulfils(dns: Dns, zone: Zone, change: Change)
    requires UniqueIds(zone.records) && PlanChange(dns, zone, change).Some?
    ensures var step := PlanChange(dns, zone, change).value;
            var existing := RRset(zone.records, step.key);
            Paired(existing, ForgetAll(Survivors(existing, step.batch)) + step.batch.creates, step.expected)
  {
    var step := PlanChange(dns, zone, change).value;
    var existing := RRset(zone.records, step.key);
    UniqueRRset(zone.records, step.key);
    ReconcileFulfils(existing, existing, step.expected);
    StepEdits(dns, zone, change);
  }

  /** A step edits its RRset as the reconciliation with what it expects does. */
  lemma StepEdits(dns: Dns, zone: Zone, change: Change)
    requires PlanChange(dns, zone, change).Some?
    ensures var step := PlanChange(dns, zone, change).value;
            step.batch == BatchOf(Reconcile(RRset(zone.records, step.key), step.expected))
  {
  }

  // ------------------------------------------------- the request, by its fields

  /** All records of an RRset agree on their tags, joined as `strings.Join` does. */
  ghost predicate AgreeOnTags(records: seq<Record>) {
    forall r :: r in records ==> JoinTags(r.tags) == JoinTags(records[0].tags)
  }

  /** A record is as a change asks for one of its values. Settings that the change
      leaves open stay as they were if all records of the RRset agreed on them. */
  ghost predicate AsRequested(
    dns: Dns, key: Key, before: seq<Record>, change: Change, value: string, have: Operation)
  {
    var data := dns.parse(key.rtype, Text.TrimSpace(value));
    && have.name == key.name && have.rtype == key.rtype && have.ttl == change.ttl
    && data.Some? && Text.TrimSpace(have.content) == Text.TrimSpace(data.value.content)
    && (key.rtype == "MX" ==> have.content == data.value.content && have.priority == data.value.priority)
    && ProxiedAsRequested(before, change.provider, have)
    && CommentAsRequested(before, change.provider, have)
    && TagsAsRequested(before, change.provider, have)
  }

  ghost predicate ProxiedAsRequested(before: seq<Record>, asked: Provider, have: Operation) {
    match asked.proxied
    case Some(p) => have.proxied == Some(p)
    case None =>
      before != [] && before[0].proxied.Some? && (forall r :: r in before ==> r.proxied == before[0].proxied) ==>
          have.proxied == before[0].proxied
  }

  ghost predicate CommentAsRequested(before: seq<Record>, asked: Provider, have: Operation) {
    match asked.comment
    case Some(c) => c != "" ==> have.comment == c
    case None =>
      before != [] && (forall r :: r in before ==> r.comment == before[0].comment) ==>
          have.comment == before[0].comment
  }

  ghost predicate TagsAsRequested(before: seq<Record>, asked: Provider, have: Operation) {
    match asked.tags
    case Some(t) => t != [] ==> Text.SortedStrings(have.tags) && multiset(have.tags) == multiset(t)
    case None =>
      before != [] && AgreeOnTags(before) && before[0].tags != [] ==>
          Text.SortedStrings(have.tags) && multiset(have.tags) == multiset(before[0].tags)
  }

  /** The RRset of a change is as the change asks: gone, or one record for each value. */
  ghost predicate ChangeDone(dns: Dns, zone: Zone, change: Change, post: seq<Record>) {
    match PlannedKey(dns, zone.name, change)
    case None => false
    case Some(key) =>
      if Text.ToLower(Text.TrimSpace(change.action)) == "delete" then RRset(post, key) == []
      else exists order :: Answers(dns, key, RRset(zone.records, key), change, ForgetAll(RRset(post, key)), order)
  }

  ghost predicate Answers(
    dns: Dns, key: Key, before: seq<Record>, change: Change, have: seq<Operation>, order: seq<Operation>)
  {
    && multiset(order) == multiset(have) && |order| == |change.records|
    && forall k :: 0 <= k < |order| ==> AsRequested(dns, key, before, change, change.records[k], order[k])
  }

  lemma DesiredNext(dns: Dns, key: Key, ttl: nat, values: seq<string>, provider: Provider)
    requires values != []
    ensures var n := |values| - 1;
            var all, before := Desired(dns, key, ttl, values, provider), Desired(dns, key, ttl, values[..n], provider);
            var op := CreateOperation(dns, key, ttl, values[n], provider);
            && (all.Some? <==> before.Some? && op.Some? && op.value !in before.value)
            && (all.Some? ==> all.value == before.value + [op.value])
  {
  }

  lemma {:induction false} DesiredSize(dns: Dns, key: Key, ttl: nat, values: seq<string>, provider: Provider)
    requires Desired(dns, key, ttl, values, provider).Some?
    ensures |Desired(dns, key, ttl, values, provider).value| == |values|
  {
    if values != [] {
      DesiredNext(dns, key, ttl, values, provider);
      DesiredSize(dns, key, ttl, values[..|values| - 1], provider);
    }
  }

  lemma {:induction false} DesiredAt(
    dns: Dns, key: Key, ttl: nat, values: seq<string>, provider: Provider, k: nat)
    requires Desired(dns, key, ttl, values, provider).Some? && k < |values|
    ensures var desired := Desired(dns, key, ttl, values, provider).value;
            |desired| == |values| && CreateOperation(dns, key, ttl, values[k], provider) == Some(desired[k])
  {
    var n := |values| - 1;
    var before := values[..n];
    DesiredNext(dns, key, ttl, values, provider);
    DesiredSize(dns, key, ttl, before, provider);
    if k < n {
      DesiredAt(dns, key, ttl, before, provider, k);
      assert before[k] == values[k];
    }
  }

  lemma SettingsAsRequested(before: seq<Record>, asked: Provider, have: Operation, op: Operation)
    requires Fulfils(before, have, op) && op.proxied == Inherited(before, asked).proxied
    requires op.comment ==
             if Inherited(before, asked).comment.Some? then Inherited(before, asked).comment.value else ""
    requires op.tags ==
             if Inherited(before, asked).tags.Some? then Text.SortStrings(Inherited(before, asked).tags.value) else []
    ensures ProxiedAsRequested(before, asked, have) && CommentAsRequested(before, asked, have)
    ensures TagsAsRequested(before, asked, have)
  {
    var given := Inherited(before, asked);
    if given.tags.Some? && given.tags.value != [] {
      Text.SortStringsSorted(given.tags.value);
      assert given.tags.value[0] in multiset(op.tags);
    }
  }

  lemma ValueAsRequested(
    dns: Dns, key: Key, before: seq<Record>, change: Change, value: string, have: Operation, op: Operation)
    requires CreateOperation(dns, key, change.ttl, value, Inherited(before, change.provider)) == Some(op)
    requires Fulfils(before, have, op)
    ensures AsRequested(dns, key, before, change, value, have)
  {
    SettingsAsRequested(before, change.provider, have, op);
  }

  /** When the records of the planned RRsets are paired with the expected operations,
      every change is done. */
  lemma ChangeFulfilled(dns: Dns, zone: Zone, changes: seq<Change>, post: seq<Record>, i: nat)
    requires UniqueIds(zone.records) && Steps(dns, zone, changes).Some? && i < |changes|
    requires var steps := Steps(dns, zone, changes).value;
             forall key :: HasKey(steps, key) ==>
                 Paired(RRset(zone.records, key), ForgetAll(RRset(post, key)), OpsOf(ExpectedOf(steps), key))
    ensures ChangeDone(dns, zone, changes[i], post)
  {
    var steps, change := Steps(dns, zone, changes).value, changes[i];
    StepsWellFormed(dns, zone, changes);
    var step := steps[i];
    var key, before := step.key, RRset(zone.records, step.key);
    ExpectedAt(zone.records, steps, i);
    assert HasKey(steps, key);
    var order :| Arranged(before, order, ForgetAll(RRset(post, key)), step.expected);
    assert |order| == |multiset(order)| == |ForgetAll(RRset(post, key))|;
    StepOf(dns, zone, change);
    if step.upsert {
      forall k | 0 <= k < |change.records|
        ensures AsRequested(dns, key, before, change, change.records[k], order[k])
      {
        DesiredAt(dns, key, change.ttl, change.records, Inherited(before, change.provider), k);
        ValueAsRequested(dns, key, before, change, change.records[k], order[k], step.expected[k]);
      }
      assert Answers(dns, key, before, change, ForgetAll(RRset(post, key)), order);
    }
  }

  lemma StepOf(dns: Dns, zone: Zone, change: Change)
    requires PlanChange(dns, zone, change).Some?
    ensures var step := PlanChange(dns, zone, change).value;
            && PlannedKey(dns, zone.name, change) == Some(step.key)
            && (step.upsert <==> Text.ToLower(Text.TrimSpace(change.action)) != "delete")
            && (step.upsert ==>
                  Desired(dns, step.key, change.ttl, change.records,
                          Inherited(RRset(zone.records, step.key), change.provider)) == Some(step.expected)
                  && |step.expected| == |change.records|)
            && (!step.upsert ==> step.expected == [])
  {
    var step := PlanChange(dns, zone, change).value;
    if step.upsert {
      DesiredKeys(dns, step.key, change.ttl, change.records, Inherited(RRset(zone.records, step.key), change.provider));
    }
  }

  // -------------------------------------------------------- what the checks see

  ghost predicate SameSetting(a: Operation, b: Operation) {
    SameData(a, b) && a.ttl == b.ttl
  }

  /** The records of an RRset are in one-to-one correspondence with the expected
      operations, of the same data and TTL. */
  ghost predicate Corresponds(have: seq<Operation>, wanted: seq<Operation>) {
    exists order :: Ordered(order, have, wanted)
  }

  ghost predicate Ordered(order: seq<Operation>, have: seq<Operation>, wanted: seq<Operation>) {
    && multiset(order) == multiset(have) && |order| == |wanted|
    && forall i :: 0 <= i < |order| ==> SameSetting(order[i], wanted[i])
  }

  lemma SignatureTells(a: Operation, b: Operation)
    ensures SignatureOf(a) == SignatureOf(b) <==> SameSetting(a, b)
  {
  }

  lemma SignaturesMapped(ops: seq<Operation>)
    ensures multiset(Bags.MapSeq(SignatureOf, ops)) == Signatures(ops)
  {
    SignatureBag(ops);
    assert Bags.MapSeq(SignatureOf, ops) == SignatureList(ops);
  }

  /** The check of an applied plan looks for exactly that. */
  lemma PlanShown(records: seq<Record>, expected: seq<Operation>, key: Key)
    ensures RRsetMatches(records, expected, key) <==>
            Corresponds(ForgetAll(RRset(records, key)), OpsOf(expected, key))
  {
    var have, wanted := ForgetAll(RRset(records, key)), OpsOf(expected, key);
    SignaturesMapped(have);
    SignaturesMapped(wanted);
    if RRsetMatches(records, expected, key) {
      var order := Bags.MapPairs(SignatureOf, have, wanted);
      assert |Bags.MapSeq(SignatureOf, order)| == |Bags.MapSeq(SignatureOf, wanted)|;
      forall i | 0 <= i < |order| ensures SameSetting(order[i], wanted[i]) {
        assert Bags.MapSeq(SignatureOf, order)[i] == Bags.MapSeq(SignatureOf, wanted)[i];
        SignatureTells(order[i], wanted[i]);
      }
      assert Ordered(order, have, wanted);
    }
    if order :| Ordered(order, have, wanted) {
      forall i | 0 <= i < |order| ensures SignatureOf(order[i]) == SignatureOf(wanted[i]) {
        SignatureTells(order[i], wanted[i]);
      }
      assert Bags.MapSeq(SignatureOf, order) == Bags.MapSeq(SignatureOf, wanted);
      Bags.MapPermutes(SignatureOf, order, have);
    }
  }

  /** The same for the check of a rollback: content, TTL, proxying and priority. */
  ghost predicate AlikeRecords(a: seq<Record>, b: seq<Record>) {
    exists order :: OrderedAlike(order, a, b)
  }

  ghost predicate OrderedAlike(order: seq<Record>, a: seq<Record>, b: seq<Record>) {
    && multiset(order) == multiset(a) && |order| == |b|
    && forall i :: 0 <= i < |order| ==>
         && order[i].content == b[i].content && order[i].ttl == b[i].ttl
         && order[i].proxied == b[i].proxied && order[i].priority == b[i].priority
  }

  lemma OriginalShown(left: seq<Record>, right: seq<Record>, key: Key)
    ensures SameDetails(left, right, key) <==> AlikeRecords(RRset(left, key), RRset(right, key))
  {
    var a, b := RRset(left, key), RRset(right, key);
    assert Details(a) == Bags.MapSeq(DetailOf, a) && Details(b) == Bags.MapSeq(DetailOf, b);
    if SameDetails(left, right, key) {
      var order := Bags.MapPairs(DetailOf, a, b);
      assert |Bags.MapSeq(DetailOf, order)| == |Bags.MapSeq(DetailOf, b)|;
      forall i | 0 <= i < |order| ensures DetailOf(order[i]) == DetailOf(b[i]) {
        assert Bags.MapSeq(DetailOf, order)[i] == Bags.MapSeq(DetailOf, b)[i];
      }
      assert OrderedAlike(order, a, b);
    }
    if order :| OrderedAlike(order, a, b) {
      forall i | 0 <= i < |order| ensures DetailOf(order[i]) == DetailOf(b[i]) {
      }
      assert Bags.MapSeq(DetailOf, order) == Bags.MapSeq(DetailOf, b);
      Bags.MapPermutes(DetailOf, order, a);
    }
  }

  // -------------------------------------------------------- what is accepted

  ghost function OperationsFor(
    dns: Dns, key: Key, ttl: nat, values: seq<string>, provider: Provider): seq<Option<Operation>>
  {
    seq(|values|, k requires 0 <= k < |values| => CreateOperation(dns, key, ttl, values[k], provider))
  }

  /** Each is there, and no two are the same. */
  ghost predicate Usable(ops: seq<Option<Operation>>) {
    && (forall k :: 0 <= k < |ops| ==> ops[k].Some?)
    && (forall j, k :: 0 <= j < k < |ops| ==> ops[j] != ops[k])
  }

  lemma UsableNext(before: seq<Option<Operation>>, op: Option<Operation>)
    ensures Usable(before + [op]) <==> Usable(before) && op.Some? && op !in before
  {
    var all := before + [op];
    assert all[|before|] == op && forall k :: 0 <= k < |before| ==> all[k] == before[k];
  }

  /** The values of a change are accepted exactly if each of them is, and no two give the
      same operation. */
  lemma {:induction false} DesiredExactly(dns: Dns, key: Key, ttl: nat, values: seq<string>, provider: Provider)
    ensures Desired(dns, key, ttl, values, provider).Some? <==> Usable(OperationsFor(dns, key, ttl, values, provider))
  {
    if values != [] {
      var n := |values| - 1;
      var before := values[..n];
      var earlier := OperationsFor(dns, key, ttl, before, provider);
      var last := CreateOperation(dns, key, ttl, values[n], provider);
      DesiredExactly(dns, key, ttl, before, provider);
      DesiredNext(dns, key, ttl, values, provider);
      assert OperationsFor(dns, key, ttl, values, provider) == earlier + [last];
      UsableNext(earlier, last);
      if Desired(dns, key, ttl, before, provider).Some? {
        DesiredOps(dns, key, ttl, before, provider, last);
      }
    }
  }

  lemma DesiredOps(
    dns: Dns, key: Key, ttl: nat, values: seq<string>, provider: Provider, op: Option<Operation>)
    requires Desired(dns, key, ttl, values, provider).Some?
    ensures op in OperationsFor(dns, key, ttl, values, provider) <==>
            op.Some? && op.value in Desired(dns, key, ttl, values, provider).value
  {
    var ops, all := Desired(dns, key, ttl, values, provider).value, OperationsFor(dns, key, ttl, values, provider);
    DesiredSize(dns, key, ttl, values, provider);
    forall k | 0 <= k < |values| ensures all[k] == Some(ops[k]) {
      DesiredAt(dns, key, ttl, values, provider, k);
    }
    if op.Some? && op.value in ops {
      var k :| 0 <= k < |ops| && ops[k] == op.value;
      assert all[k] == op;
    }
  }

  /** Which owner a change names: "@" is the zone, a name in the zone is itself, any other
      is relative to the zone; case, white space and one final dot do not matter. */
  lemma OwnerNamed(dns: Dns, zone: string, name: string)
    ensures var n := Text.TrimSuffix(Text.ToLower(Text.TrimSpace(name)), ".");
            var inside := n == zone || Text.HasSuffix(n, "." + zone);
            match ChangeOwner(dns, zone, name)
            case Some(owner) => owner == (if n == "@" then zone else if inside then n else n + "." + zone)
            case None => n == "" || !dns.isDomain(if inside then n else n + "." + zone)
  {
    var n := CanonicalName(name);
    if !InZone(n, zone) {
      assert n + "." + zone == n + ("." + zone);
      assert (n + "." + zone)[|n|..] == "." + zone;
    }
  }
}
