/** Applying a request at the provider: send the batch, wait until it shows, and
    compensate if it does not. */
module CloudflareService {
  import opened Options
  import opened CloudflareRecords
  import opened CloudflarePlanner
  import opened CloudflarePlans
  import opened CloudflareApply
  import opened CloudflareRollback
  import opened CloudflareCompensation
  import opened CloudflareFulfilment

  datatype Error = ConfirmationRequired | ListFailed | PlanRefused | AuditNotWritable | BatchFailed | VerificationFailed

  /** How sending a batch may end; the answer can be lost after it took effect. */
  datatype Sent = Done | FailedBefore | FailedAfter

  /** What a poll of the records shows: nothing, the records as they are, or records
      from some other time. */
  datatype Poll = Failed | Fresh | Stale(records: seq<Record>)

  /** How the provider and the file system answer during one call. */
  datatype World = World(
    listed: Poll, auditWritable: bool, batch: Sent, polls: seq<Poll>, dnsVerified: bool,
    relisted: Poll, rollback: Sent, rollbackPolls: seq<Poll>)

  datatype Result = Result(accepted: bool, apiVerified: bool, dnsVerified: bool, rolledBack: bool)

  ghost predicate GivesIds(assign: (seq<Record>, nat) -> seq<string>) {
    forall records, n: nat :: |assign(records, n)| == n
  }

  /** The identifiers that the provider gives to created records keep all identifiers
      different. */
  ghost predicate KeepsIdsUnique(assign: (seq<Record>, nat) -> seq<string>)
    requires GivesIds(assign)
  {
    forall records, batch: Batch :: UniqueIds(records) ==>
        UniqueIds(Execute(records, batch, assign(records, |batch.creates|)))
  }

  /** The condition that `planMatches` checks. */
  ghost predicate PlanShows(dns: Dns, zone: string, plan: Plan, records: seq<Record>) {
    forall i :: 0 <= i < |plan.changes| ==> RRsetMatches(records, plan.expected, MatchedKey(dns, zone, plan.changes[i]))
  }

  /** The condition that `affectedRecordsMatch` checks. */
  ghost predicate OriginalShows(original: seq<Record>, affected: set<Key>, records: seq<Record>) {
    forall key :: key in affected ==> SameDetails(records, original, key)
  }

  function Shown(poll: Poll, records: seq<Record>): Option<seq<Record>> {
    match poll
    case Failed => None
    case Fresh => Some(records)
    case Stale(old_) => Some(old_)
  }

  /** One of the polls shows the planned records. */
  ghost predicate PlanSeen(dns: Dns, zone: string, plan: Plan, polls: seq<Poll>, records: seq<Record>) {
    exists i :: 0 <= i < |polls| && Shown(polls[i], records).Some?
        && PlanShows(dns, zone, plan, Shown(polls[i], records).value)
  }

  /** One of the polls shows the original records. */
  ghost predicate OriginalSeen(original: seq<Record>, affected: set<Key>, polls: seq<Poll>, records: seq<Record>) {
    exists i :: 0 <= i < |polls| && Shown(polls[i], records).Some?
        && OriginalShows(original, affected, Shown(polls[i], records).value)
  }

  predicate IsEmpty(batch: Batch) {
    |batch.deletes| == 0 && |batch.patches| == 0 && |batch.creates| == 0
  }

  // ---------------------------------------------------------------- outcomes

  /** The records after an accepted batch that did not show in time: the rollback deletes
      what its own listing shows. */
  ghost predicate Compensated(
    dns: Dns, original: Zone, changes: seq<Change>, applied: seq<Record>, ids: seq<string>, post: seq<Record>, w: World,
    rolledBack: bool)
  {
    var affected, latest := Affected(dns, original.name, changes), Shown(w.relisted, applied);
    if latest.None? || w.rollback == FailedBefore then post == applied && !rolledBack
    else
      && |ids| == |RollbackBatch(original.records, latest.value, affected).creates|
      && post == Execute(applied, RollbackBatch(original.records, latest.value, affected), ids)
      && (rolledBack <==> w.rollback == Done && OriginalSeen(original.records, affected, w.rollbackPolls, post))
  }

  /** What `ApplyChanges` answers, and leaves at the provider, once a request with
      something to do has been planned from the listed zone; `before` are the records that
      were really there, and `applied` those after the batch. */
  ghost predicate Applied(
    dns: Dns, original: Zone, before: seq<Record>, plan: Plan, applied: seq<Record>, ids: seq<string>,
    post: seq<Record>,
    w: World, r: Result, e: Option<Error>)
  {
    if !w.auditWritable || w.batch == FailedBefore then
      post == before && r == Result(false, false, false, false) && e.Some?
    else if w.batch == FailedAfter then
      post == applied && r == Result(false, false, false, false) && e == Some(BatchFailed)
    else if PlanSeen(dns, original.name, plan, w.polls, applied) then
      post == applied && r == Result(true, true, w.dnsVerified, false) && e.None?
    else
      && r.accepted && !r.apiVerified && !r.dnsVerified && e == Some(VerificationFailed)
      && Compensated(dns, original, plan.changes, applied, ids, post, w, r.rolledBack)
  }

  class Client {
    const dns: Dns
    const zone: string
    /** The revision of a list of records. */
    const revisionOf: seq<Record> -> string
    const assign: (seq<Record>, nat) -> seq<string>
    /** The records of the zone at the provider. */
    var records: seq<Record>

    ghost predicate Valid()
      reads this
    {
      UniqueIds(records) && GivesIds(assign) && KeepsIdsUnique(assign)
    }

    constructor (
      dns: Dns, zone: string, revisionOf: seq<Record> -> string, assign: (seq<Record>, nat) -> seq<string>,
      records: seq<Record>)
      requires UniqueIds(records) && GivesIds(assign) && KeepsIdsUnique(assign)
      ensures Valid() && this.records == records && this.zone == zone && this.dns == dns
    {
      this.dns, this.zone, this.revisionOf, this.assign, this.records := dns, zone, revisionOf, assign, records;
    }

    /** A zone as a listing shows it. */
    function Listed(listing: seq<Record>): Zone {
      Zone(zone, revisionOf(listing), listing)
    }

    /** `sendBatch` */
    method SendBatch(batch: Batch, sent: Sent) returns (ok: bool)
      requires Valid()
      modifies this
      ensures Valid() && ok == (sent == Done)
      ensures |assign(old(records), |batch.creates|)| == |batch.creates|
      ensures records == if sent == FailedBefore then old(records)
              else Execute(old(records), batch, assign(old(records), |batch.creates|))
    {
      if sent != FailedBefore {
        records := Execute(records, batch, assign(records, |batch.creates|));
      }
      ok := sent == Done;
    }

    /** `waitForAPI` */
    method WaitForPlan(plan: Plan, polls: seq<Poll>) returns (ok: bool)
      ensures ok <==> PlanSeen(dns, zone, plan, polls, records)
    {
      for n := 0 to |polls|
        invariant forall i :: 0 <= i < n && Shown(polls[i], records).Some? ==>
                    !PlanShows(dns, zone, plan, Shown(polls[i], records).value)
      {
        var seen := Shown(polls[n], records);
        if seen.Some? {
          var matches := PlanMatches(dns, zone, seen.value, plan);
          if matches {
            return true;
          }
        }
      }
      return false;
    }

    method WaitForOriginal(original: seq<Record>, affected: set<Key>, polls: seq<Poll>) returns (ok: bool)
      ensures ok <==> OriginalSeen(original, affected, polls, records)
    {
      for n := 0 to |polls|
        invariant forall i :: 0 <= i < n && Shown(polls[i], records).Some? ==>
                    !OriginalShows(original, affected, Shown(polls[i], records).value)
      {
        var seen := Shown(polls[n], records);
        if seen.Some? {
          var matches := AffectedRecordsMatch(seen.value, original, affected);
          if matches {
            return true;
          }
        }
      }
      return false;
    }

    /** `rollback` */
    method Rollback(original: Zone, changes: seq<Change>, w: World) returns (ok: bool, ghost ids: seq<string>)
      requires Valid() && original.name == zone
      modifies this
      ensures Valid() && Compensated(dns, original, changes, old(records), ids, records, w, ok)
    {
      ids := [];
      var latest := Shown(w.relisted, records);
      if latest.None? {
        return false, ids;
      }
      var affected := Affected(dns, zone, changes);
      var batch := BuildRollback(original.records, latest.value, affected);
      ids := assign(records, |batch.creates|);
      var sent := SendBatch(batch, w.rollback);
      if !sent {
        return false, ids;
      }
      ok := WaitForOriginal(original.records, affected, w.rollbackPolls);
    }

    /** The part of `ApplyChanges` after planning, for a plan with something to do. */
    method Carry(original: Zone, plan: Plan, w: World) returns (r: Result, e: Option<Error>, ghost ids: seq<string>)
      requires Valid() && original.name == zone
      modifies this
      ensures Valid() && |assign(old(records), |plan.batch.creates|)| == |plan.batch.creates|
      ensures var applied := Execute(old(records), plan.batch, assign(old(records), |plan.batch.creates|));
              Applied(dns, original, old(records), plan, applied, ids, records, w, r, e)
    {
      r, ids := Result(false, false, false, false), [];
      if !w.auditWritable {
        return r, Some(AuditNotWritable), ids;
      }
      var sent := SendBatch(plan.batch, w.batch);
      if !sent {
        return r, Some(BatchFailed), ids;
      }
      var shows := WaitForPlan(plan, w.polls);
      if shows {
        return Result(true, true, w.dnsVerified, false), None, ids;
      }
      var undone;
      undone, ids := Rollback(original, plan.changes, w);
      return Result(true, false, false, undone), Some(VerificationFailed), ids;
    }

    /** `ApplyChanges` */
    method ApplyChanges(request: Request, confirm: bool, w: World)
      returns (r: Option<Result>, e: Option<Error>, ghost ids: seq<string>)
      requires Valid()
      modifies this
      ensures Valid()
      ensures var listing := Shown(w.listed, old(records));
              if !confirm || listing.None? || !Acceptable(dns, Listed(listing.value), request)
              then r.None? && e.Some? && records == old(records)
              else
                && r.Some?
                && var plan := PlanFor(dns, Listed(listing.value), request);
                   if IsEmpty(plan.batch)
                   then r.value == Result(true, true, true, false) && e.None? && records == old(records)
                   else
                     && |assign(old(records), |plan.batch.creates|)| == |plan.batch.creates|
                     && var applied := Execute(old(records), plan.batch, assign(old(records), |plan.batch.creates|));
                        Applied(dns, Listed(listing.value), old(records), plan, applied, ids, records, w, r.value, e)
    {
      ids := [];
      if !confirm {
        return None, Some(ConfirmationRequired), ids;
      }
      var listing := Shown(w.listed, records);
      if listing.None? {
        return None, Some(ListFailed), ids;
      }
      var current := Listed(listing.value);
      var plan := PlanChanges(dns, current, request);
      if plan.None? {
        return None, Some(PlanRefused), ids;
      }
      if IsEmpty(plan.value.batch) {
        return Some(Result(true, true, true, false)), None, ids;
      }
      var result;
      result, e, ids := Carry(current, plan.value, w);
      r := Some(result);
    }
  }

  // ------------------------------------------------------------ all or nothing

  /** Every RRset is as the changes ask, record by record, or as it was if they do not
      name it. */
  ghost predicate AllChanged(dns: Dns, original: Zone, changes: seq<Change>, post: seq<Record>)
    requires Steps(dns, original, changes).Some?
  {
    var steps := Steps(dns, original, changes).value;
    forall key ::
      && (HasKey(steps, key) ==>
            && RRsetMatches(post, ExpectedOf(steps), key)
            && Paired(RRset(original.records, key), ForgetAll(RRset(post, key)), OpsOf(ExpectedOf(steps), key)))
      && (!HasKey(steps, key) ==> RRset(post, key) == RRset(original.records, key))
  }

  /** That means, by the fields of the request, that each of its changes is done. */
  lemma AllChangesDone(dns: Dns, original: Zone, changes: seq<Change>, post: seq<Record>, i: nat)
    requires UniqueIds(original.records) && Steps(dns, original, changes).Some? && i < |changes|
    requires AllChanged(dns, original, changes, post)
    ensures ChangeDone(dns, original, changes[i], post)
  {
    ChangeFulfilled(dns, original, changes, post, i);
  }

  lemma AppliedAll(dns: Dns, original: Zone, changes: seq<Change>, ids: seq<string>)
    requires UniqueIds(original.records) && Steps(dns, original, changes).Some?
    requires |ids| == |Joined(Steps(dns, original, changes).value).creates|
    ensures var steps := Steps(dns, original, changes).value;
            AllChanged(dns, original, changes, Execute(original.records, Joined(steps), ids))
  {
    forall key ensures var steps := Steps(dns, original, changes).value;
                       var after := Execute(original.records, Joined(steps), ids);
                       && (HasKey(steps, key) ==>
                             && RRsetMatches(after, ExpectedOf(steps), key)
                             && Paired(RRset(original.records, key), ForgetAll(RRset(after, key)),
                                       OpsOf(ExpectedOf(steps), key)))
                       && (!HasKey(steps, key) ==> RRset(after, key) == RRset(original.records, key))
    {
      PlanCorrect(dns, original, changes, ids, key);
      if HasKey(Steps(dns, original, changes).value, key) {
        PlanFulfils(dns, original, changes, ids, key);
      }
    }
  }

  /** A plan with nothing to do is answered as verified at once, and rightly: the zone
      already is as the changes ask. */
  lemma NothingToDo(dns: Dns, original: Zone, request: Request)
    requires UniqueIds(original.records) && Acceptable(dns, original, request)
    requires IsEmpty(PlanFor(dns, original, request).batch)
    ensures AllChanged(dns, original, request.changes, original.records)
  {
    var batch := PlanFor(dns, original, request).batch;
    AppliedAll(dns, original, request.changes, []);
    EmptyExecute(original.records, batch);
  }

  lemma EmptyExecute(records: seq<Record>, batch: Batch)
    requires IsEmpty(batch)
    ensures Execute(records, batch, []) == records
  {
    assert batch == Batch([], [], []);
    EmptyBatch(records);
  }

  /** With trimmed types, the applied zone differs from the original at affected RRsets
      only. */
  lemma AgreesOutside(dns: Dns, original: Zone, changes: seq<Change>, ids: seq<string>, key: Key)
    requires UniqueIds(original.records) && Steps(dns, original, changes).Some?
    requires |ids| == |Joined(Steps(dns, original, changes).value).creates|
    requires key !in Affected(dns, original.name, changes)
    requires forall i :: 0 <= i < |changes| ==> TypeTrimmed(changes[i])
    ensures var applied := Execute(original.records, Joined(Steps(dns, original, changes).value), ids);
            RRset(applied, key) == RRset(original.records, key)
  {
    var steps := Steps(dns, original, changes).value;
    PlanCorrect(dns, original, changes, ids, key);
    if HasKey(steps, key) {
      CollectDistinct(Planned(dns, original, changes));
      var i: nat :| i < |steps| && steps[i].key == key;
      ChangedKey(dns, original, changes, i);
      RollbackReaches(dns, original, changes, i);
    }
  }

  /** The rollback batch took effect. */
  predicate RollsBack(w: World, applied: seq<Record>, r: Result) {
    r.accepted && !r.apiVerified && Shown(w.relisted, applied).Some? && w.rollback != FailedBefore
  }

  /** Whatever fails on the way, for a request with trimmed record types: a verified zone
      has all changes; a zone that was not rolled back has all changes or none; and one
      that was has none exactly when the listing of the rollback named the affected
      records that were really there, as a current listing does. */
  lemma AllOrNothing(
    dns: Dns, original: Zone, request: Request, ids: seq<string>, ids': seq<string>, post: seq<Record>, w: World,
    r: Result, e: Option<Error>)
    requires UniqueIds(original.records) && Acceptable(dns, original, request)
    requires |ids| == |PlanFor(dns, original, request).batch.creates|
    requires UniqueIds(Execute(original.records, PlanFor(dns, original, request).batch, ids))
    requires var plan := PlanFor(dns, original, request);
             var applied := Execute(original.records, plan.batch, ids);
             Applied(dns, original, original.records, plan, applied, ids', post, w, r, e)
    requires forall i :: 0 <= i < |request.changes| ==> TypeTrimmed(request.changes[i])
    ensures var applied := Execute(original.records, PlanFor(dns, original, request).batch, ids);
            if RollsBack(w, applied, r) then
              NoneChanged(original.records, post) <==>
              NamesAffected(Shown(w.relisted, applied).value, applied, Affected(dns, original.name, request.changes))
            else AllChanged(dns, original, request.changes, post) || NoneChanged(original.records, post)
    ensures r.apiVerified ==> AllChanged(dns, original, request.changes, post)
    ensures r.rolledBack ==> RollsBack(w, Execute(original.records, PlanFor(dns, original, request).batch, ids), r)
    ensures !w.relisted.Stale? ==>
              && (AllChanged(dns, original, request.changes, post) || NoneChanged(original.records, post))
              && (r.rolledBack ==> NoneChanged(original.records, post))
  {
    var applied := Execute(original.records, PlanFor(dns, original, request).batch, ids);
    AppliedAll(dns, original, request.changes, ids);
    if r.accepted && !r.apiVerified {
      CompensatedExactly(dns, original, request.changes, ids, ids', post, w, r.rolledBack);
      CurrentNames(applied, Affected(dns, original.name, request.changes));
    }
  }

  /** A compensation that took effect left nothing changed exactly when its listing named
      the affected records; one that did not left all changed. */
  lemma CompensatedExactly(
    dns: Dns, original: Zone, changes: seq<Change>, ids: seq<string>, ids': seq<string>, post: seq<Record>, w: World,
    rolledBack: bool)
    requires UniqueIds(original.records) && Steps(dns, original, changes).Some?
    requires |ids| == |Joined(Steps(dns, original, changes).value).creates|
    requires var applied := Execute(original.records, Joined(Steps(dns, original, changes).value), ids);
             Compensated(dns, original, changes, applied, ids', post, w, rolledBack)
    requires forall i :: 0 <= i < |changes| ==> TypeTrimmed(changes[i])
    ensures var applied := Execute(original.records, Joined(Steps(dns, original, changes).value), ids);
            var latest := Shown(w.relisted, applied);
            if latest.None? || w.rollback == FailedBefore then post == applied && !rolledBack
            else
              NoneChanged(original.records, post) <==>
              NamesAffected(latest.value, applied, Affected(dns, original.name, changes))
  {
    var applied := Execute(original.records, Joined(Steps(dns, original, changes).value), ids);
    var affected, latest := Affected(dns, original.name, changes), Shown(w.relisted, applied);
    if latest.Some? && w.rollback != FailedBefore {
      forall key | key !in affected ensures ForgetAll(RRset(applied, key)) == ForgetAll(RRset(original.records, key)) {
        AgreesOutside(dns, original, changes, ids, key);
      }
      RestoresExactly(original.records, applied, latest.value, affected, ids');
    }
  }

  /** An accepted batch is verified as soon as one poll shows the records as they are. */
  lemma FreshPollVerifies(
    dns: Dns, original: Zone, request: Request, ids: seq<string>, ids': seq<string>, post: seq<Record>, w: World,
    r: Result, e: Option<Error>)
    requires UniqueIds(original.records) && Acceptable(dns, original, request)
    requires |ids| == |PlanFor(dns, original, request).batch.creates|
    requires var plan := PlanFor(dns, original, request);
             var applied := Execute(original.records, plan.batch, ids);
             Applied(dns, original, original.records, plan, applied, ids', post, w, r, e)
    requires Fresh in w.polls
    ensures r.accepted ==> r.apiVerified && e.None?
  {
    var plan := PlanFor(dns, original, request);
    var applied := Execute(original.records, plan.batch, ids);
    forall i | 0 <= i < |plan.changes|
      ensures RRsetMatches(applied, plan.expected, MatchedKey(dns, original.name, plan.changes[i]))
    {
      ChangedKey(dns, original, request.changes, i);
      PlanCorrect(dns, original, request.changes, ids, MatchedKey(dns, original.name, plan.changes[i]));
    }
    var i :| 0 <= i < |w.polls| && w.polls[i] == Fresh;
    assert Shown(w.polls[i], applied) == Some(applied) && PlanShows(dns, original.name, plan, applied);
  }
}
