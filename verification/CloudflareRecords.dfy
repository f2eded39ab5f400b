/** Cloudflare DNS records, and the meaning of a batch of deletes, patches and
    creates over them. */
module CloudflareRecords {
  import opened Options
  import Text

  datatype Record = Record(
    id: string, name: string, rtype: string, content: string, ttl: nat,
    proxied: Option<bool>, priority: Option<nat>, comment: string, tags: seq<string>)

  /** A record without its identifier: what a create or a patch carries. */
  datatype Operation = Operation(
    name: string, rtype: string, content: string, ttl: nat,
    proxied: Option<bool>, priority: Option<nat>, comment: string, tags: seq<string>)

  datatype Delete = Delete(id: string, name: string, rtype: string, content: string)

  datatype Patch = Patch(id: string, op: Operation)

  datatype Batch = Batch(deletes: seq<Delete>, patches: seq<Patch>, creates: seq<Operation>)

  /** An RRset is named by owner and type. */
  datatype Key = Key(name: string, rtype: string)

  function RecordKey(r: Record): Key {
    Key(r.name, r.rtype)
  }

  function OpKey(op: Operation): Key {
    Key(op.name, op.rtype)
  }

  function Forget(r: Record): Operation {
    Operation(r.name, r.rtype, r.content, r.ttl, r.proxied, r.priority, r.comment, r.tags)
  }

  function DeleteOf(r: Record): Delete {
    Delete(r.id, r.name, r.rtype, r.content)
  }

  // ------------------------------------------------------------ record values

  /** `sameRecordValue` */
  predicate SameRecordValue(record: Record, wanted: Operation) {
    if record.name != wanted.name || record.rtype != wanted.rtype then false
    else if record.rtype == "MX" then record.content == wanted.content && record.priority == wanted.priority
    else Text.TrimSpace(record.content) == Text.TrimSpace(wanted.content)
  }

  /** What `sameRecordValue` compares, as a value of its own. */
  datatype Value = Value(key: Key, content: string, priority: Option<nat>)

  function ValueOf(op: Operation): Value {
    if op.rtype == "MX" then Value(OpKey(op), op.content, op.priority)
    else Value(OpKey(op), Text.TrimSpace(op.content), None)
  }

  lemma SameValue(record: Record, wanted: Operation)
    ensures SameRecordValue(record, wanted) <==> ValueOf(Forget(record)) == ValueOf(wanted)
  {
  }

  /** What `planMatches` compares: the value and the TTL. */
  datatype Signature = Signature(value: Value, ttl: nat)

  function SignatureOf(op: Operation): Signature {
    Signature(ValueOf(op), op.ttl)
  }

  // ------------------------------------------------------------------- RRsets

  function RRset(records: seq<Record>, key: Key): seq<Record> {
    if records == [] then []
    else if RecordKey(records[0]) == key then [records[0]] + RRset(records[1..], key)
    else RRset(records[1..], key)
  }

  function OpsOf(ops: seq<Operation>, key: Key): seq<Operation> {
    if ops == [] then []
    else if OpKey(ops[0]) == key then [ops[0]] + OpsOf(ops[1..], key)
    else OpsOf(ops[1..], key)
  }

  function ForgetAll(records: seq<Record>): (r: seq<Operation>)
    ensures |r| == |records|
  {
    if records == [] then [] else [Forget(records[0])] + ForgetAll(records[1..])
  }

  ghost function Values(ops: seq<Operation>): multiset<Value> {
    if ops == [] then multiset{} else multiset{ValueOf(ops[0])} + Values(ops[1..])
  }

  ghost function Signatures(ops: seq<Operation>): multiset<Signature> {
    if ops == [] then multiset{} else multiset{SignatureOf(ops[0])} + Signatures(ops[1..])
  }

  ghost predicate UniqueIds(records: seq<Record>) {
    forall i, j :: 0 <= i < j < |records| ==> records[i].id != records[j].id
  }

  // ----------------------------------------------------------------- executor

  predicate Deletes(deletes: seq<Delete>, id: string) {
    exists i :: 0 <= i < |deletes| && deletes[i].id == id
  }

  function PatchFor(patches: seq<Patch>, id: string): Option<Operation> {
    if patches == [] then None
    else if patches[0].id == id then Some(patches[0].op)
    else PatchFor(patches[1..], id)
  }

  /** A patch sets the fields it carries. Empty optional fields are left out of the
      request, so they keep their old values; the TTL is always carried. */
  function Patched(r: Record, op: Operation): Record {
    r.(name := op.name, rtype := op.rtype, ttl := op.ttl,
       content := if op.content == "" then r.content else op.content,
       proxied := if op.proxied.None? then r.proxied else op.proxied,
       priority := if op.priority.None? then r.priority else op.priority,
       comment := if op.comment == "" then r.comment else op.comment,
       tags := if op.tags == [] then r.tags else op.tags)
  }

  function Apply(r: Record, patches: seq<Patch>): Record {
    match PatchFor(patches, r.id)
    case None => r
    case Some(op) => Patched(r, op)
  }

  /** The records of a zone that a batch leaves, patched. */
  function Survivors(zone: seq<Record>, batch: Batch): seq<Record> {
    if zone == [] then []
    else
      var rest := Survivors(zone[1..], batch);
      if Deletes(batch.deletes, zone[0].id) then rest else [Apply(zone[0], batch.patches)] + rest
  }

  function Created(ops: seq<Operation>, ids: seq<string>): seq<Record>
    requires |ids| == |ops|
  {
    if ops == [] then []
    else
      var op := ops[0];
      [Record(ids[0], op.name, op.rtype, op.content, op.ttl, op.proxied, op.priority, op.comment, op.tags)]
          + Created(ops[1..], ids[1..])
  }

  /** A zone after a batch; `ids` are the identifiers given to created records. */
  function Execute(zone: seq<Record>, batch: Batch, ids: seq<string>): seq<Record>
    requires |ids| == |batch.creates|
  {
    Survivors(zone, batch) + Created(batch.creates, ids)
  }

  // -------------------------------------------------------------------- lemmas

  lemma {:induction false} RRsetConcat(a: seq<Record>, b: seq<Record>, key: Key)
    ensures RRset(a + b, key) == RRset(a, key) + RRset(b, key)
  {
    if a == [] {
      assert a + b == b;
    } else {
      assert (a + b)[1..] == a[1..] + b;
      RRsetConcat(a[1..], b, key);
    }
  }

  lemma {:induction false} OpsConcat(a: seq<Operation>, b: seq<Operation>, key: Key)
    ensures OpsOf(a + b, key) == OpsOf(a, key) + OpsOf(b, key)
  {
    if a == [] {
      assert a + b == b;
    } else {
      assert (a + b)[1..] == a[1..] + b;
      OpsConcat(a[1..], b, key);
    }
  }

  lemma {:induction false} ForgetConcat(a: seq<Record>, b: seq<Record>)
    ensures ForgetAll(a + b) == ForgetAll(a) + ForgetAll(b)
  {
    if a == [] {
      assert a + b == b;
    } else {
      assert (a + b)[1..] == a[1..] + b;
      ForgetConcat(a[1..], b);
    }
  }

  lemma {:induction false} BagConcat(a: seq<Operation>, b: seq<Operation>)
    ensures Signatures(a + b) == Signatures(a) + Signatures(b)
    ensures Values(a + b) == Values(a) + Values(b)
  {
    if a == [] {
      assert a + b == b;
    } else {
      assert (a + b)[1..] == a[1..] + b;
      BagConcat(a[1..], b);
    }
  }

  lemma {:induction false} BagSize(ops: seq<Operation>)
    ensures |Signatures(ops)| == |ops| && |Values(ops)| == |ops|
  {
    if ops != [] {
      BagSize(ops[1..]);
    }
  }

  lemma {:induction false} PatchConcat(a: seq<Patch>, b: seq<Patch>, id: string)
    ensures PatchFor(a + b, id) == if PatchFor(a, id).Some? then PatchFor(a, id) else PatchFor(b, id)
  {
    if a == [] {
      assert a + b == b;
    } else {
      assert (a + b)[1..] == a[1..] + b;
      PatchConcat(a[1..], b, id);
    }
  }

  lemma DeletesConcat(a: seq<Delete>, b: seq<Delete>, id: string)
    ensures Deletes(a + b, id) <==> Deletes(a, id) || Deletes(b, id)
  {
    if Deletes(a, id) {
      var i :| 0 <= i < |a| && a[i].id == id;
      assert (a + b)[i].id == id;
    }
    if Deletes(b, id) {
      var i :| 0 <= i < |b| && b[i].id == id;
      assert (a + b)[|a| + i].id == id;
    }
  }

  lemma {:induction false} SurvivorsConcat(a: seq<Record>, b: seq<Record>, batch: Batch)
    ensures Survivors(a + b, batch) == Survivors(a, batch) + Survivors(b, batch)
  {
    if a == [] {
      assert a + b == b;
    } else {
      assert (a + b)[1..] == a[1..] + b;
      SurvivorsConcat(a[1..], b, batch);
    }
  }

  /** Two batches that decide alike on every record of a zone leave the same. */
  lemma {:induction false} SurvivorsAgree(zone: seq<Record>, a: Batch, b: Batch)
    requires forall r :: r in zone ==> (Deletes(a.deletes, r.id) <==> Deletes(b.deletes, r.id))
    requires forall r :: r in zone ==> PatchFor(a.patches, r.id) == PatchFor(b.patches, r.id)
    ensures Survivors(zone, a) == Survivors(zone, b)
  {
    if zone != [] {
      assert zone[0] in zone;
      SurvivorsAgree(zone[1..], a, b);
    }
  }

  lemma {:induction false} CreatedOps(ops: seq<Operation>, ids: seq<string>, key: Key)
    requires |ids| == |ops|
    ensures ForgetAll(RRset(Created(ops, ids), key)) == OpsOf(ops, key)
  {
    if ops != [] {
      CreatedOps(ops[1..], ids[1..], key);
      var rest := Created(ops[1..], ids[1..]);
      assert Created(ops, ids)[1..] == rest;
      var first := Created(ops, ids)[0];
      assert Forget(first) == ops[0];
      if OpKey(ops[0]) == key {
        assert ([first] + RRset(rest, key))[1..] == RRset(rest, key);
      }
    }
  }

  lemma {:induction false} RRsetMembers(records: seq<Record>, key: Key, r: Record)
    ensures r in RRset(records, key) <==> r in records && RecordKey(r) == key
  {
    if records != [] {
      RRsetMembers(records[1..], key, r);
      assert records == [records[0]] + records[1..];
    }
  }
}
