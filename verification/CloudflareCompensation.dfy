/** When the compensating rollback restores a zone, whatever listing it was built from. */
module CloudflareCompensation {
  import opened CloudflareRecords
  import opened CloudflareReconcile
  import opened CloudflareOrder
  import opened CloudflareRollback

  /** Every RRset has its original records, up to identifiers. */
  ghost predicate NoneChanged(original: seq<Record>, post: seq<Record>) {
    forall key :: ForgetAll(RRset(post, key)) == ForgetAll(RRset(original, key))
  }

  /** A listing names, by identifier, exactly those of the records that are affected. */
  ghost predicate NamesAffected(latest: seq<Record>, records: seq<Record>, affected: set<Key>) {
    forall r :: r in records ==> (Deletes(DeletesOf(Select(latest, affected)), r.id) <==> RecordKey(r) in affected)
  }

  /** A current listing does. */
  lemma CurrentNames(records: seq<Record>, affected: set<Key>)
    requires UniqueIds(records)
    ensures NamesAffected(records, records, affected)
  {
    forall r | r in records ensures Deletes(DeletesOf(Select(records, affected)), r.id) <==> RecordKey(r) in affected {
      DeletedByRollback(records, affected, r);
    }
  }

  lemma {:induction false} KeptRRset(records: seq<Record>, batch: Batch, key: Key)
    requires batch.patches == []
    ensures RRset(Survivors(records, batch), key) == Survivors(RRset(records, key), batch)
  {
    if records != [] {
      KeptRRset(records[1..], batch, key);
      var r, rest, set_ := records[0], Survivors(records[1..], batch), RRset(records[1..], key);
      assert Apply(r, batch.patches) == r;
      assert ([r] + rest)[1..] == rest && ([r] + set_)[1..] == set_;
    }
  }

  /** Nothing survives exactly if all is deleted, and all survives exactly if nothing is. */
  lemma {:induction false} SurvivorCount(records: seq<Record>, batch: Batch)
    requires batch.patches == []
    ensures |Survivors(records, batch)| <= |records|
    ensures Survivors(records, batch) == [] <==> forall r :: r in records ==> Deletes(batch.deletes, r.id)
    ensures |Survivors(records, batch)| == |records| <==> forall r :: r in records ==> !Deletes(batch.deletes, r.id)
    ensures |Survivors(records, batch)| == |records| ==> Survivors(records, batch) == records
  {
    if records != [] {
      SurvivorCount(records[1..], batch);
      assert records == [records[0]] + records[1..];
      assert records[0] in records;
    }
  }

  /** The rollback at one RRset that agrees with the original if it is not affected. */
  lemma RestoresAt(
    original: seq<Record>, records: seq<Record>, latest: seq<Record>, affected: set<Key>, ids: seq<string>, key: Key)
    requires |ids| == |RollbackBatch(original, latest, affected).creates|
    requires key !in affected ==> ForgetAll(RRset(records, key)) == ForgetAll(RRset(original, key))
    ensures var batch := RollbackBatch(original, latest, affected);
            ForgetAll(RRset(Execute(records, batch, ids), key)) == ForgetAll(RRset(original, key)) <==>
            forall r :: r in RRset(records, key) ==> (Deletes(batch.deletes, r.id) <==> key in affected)
  {
    var batch, mine := RollbackBatch(original, latest, affected), RRset(records, key);
    var left, back := ForgetAll(Survivors(mine, batch)), ForgetAll(RRset(original, key));
    ExecutedOps(records, batch, ids, key);
    KeptRRset(records, batch, key);
    SurvivorCount(mine, batch);
    SelectedOps(original, affected, key);
    if key in affected {
      assert |left + back| == |left| + |back|;
      assert left == [] ==> left + back == back;
    } else {
      assert left + [] == left;
    }
  }

  /** Where the records differ from the original at affected RRsets only, the rollback
      restores every RRset exactly when its listing names the affected records. */
  lemma RestoresExactly(
    original: seq<Record>, records: seq<Record>, latest: seq<Record>, affected: set<Key>, ids: seq<string>)
    requires |ids| == |RollbackBatch(original, latest, affected).creates|
    requires forall key :: key !in affected ==> ForgetAll(RRset(records, key)) == ForgetAll(RRset(original, key))
    ensures NoneChanged(original, Execute(records, RollbackBatch(original, latest, affected), ids)) <==>
            NamesAffected(latest, records, affected)
  {
    var batch := RollbackBatch(original, latest, affected);
    var post := Execute(records, batch, ids);
    if NamesAffected(latest, records, affected) {
      forall key ensures ForgetAll(RRset(post, key)) == ForgetAll(RRset(original, key)) {
        RestoresAt(original, records, latest, affected, ids, key);
        forall r | r in RRset(records, key) ensures Deletes(batch.deletes, r.id) <==> key in affected {
          RRsetMembers(records, key, r);
        }
      }
    }
    if NoneChanged(original, post) {
      forall r | r in records ensures Deletes(batch.deletes, r.id) <==> RecordKey(r) in affected {
        RestoresAt(original, records, latest, affected, ids, RecordKey(r));
        RRsetMembers(records, RecordKey(r), r);
      }
    }
  }
}
