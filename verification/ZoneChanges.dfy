/** RRset changes of a zone: applying them, grouping records into RRsets, and the
    difference between two versions. */
module ZoneChanges {
  import opened Options
  import opened ZoneRecords
  import Text

  datatype Change = Change(action: string, name: string, rtype: string, ttl: nat, records: seq<string>)

  datatype RRset = RRset(name: string, rtype: nat, ttl: nat, records: seq<string>)

  datatype RRKey = RRKey(name: string, rtype: nat)

  /** The text side of the DNS library: type mnemonics, owner names within a zone, and
      record data, which parses to its canonical text. */
  datatype Codec = Codec(
    typeCode: string -> Option<nat>,
    typeName: nat -> string,
    owner: (string, string) -> Option<string>,
    parse: (nat, string) -> Option<string>)

  function KeyOf(lib: Library, rr: RR): RRKey {
    RRKey(lib.canonical(rr.name), rr.rtype)
  }

  function SetKey(s: RRset): RRKey {
    RRKey(s.name, s.rtype)
  }

  /** Types that a change must not name: NONE, SOA, and the query types. */
  predicate Unchangeable(code: nat) {
    code == 0 || code == TYPE_SOA || code == 255 || code == 252 || code == 251
  }

  /** A change that passed the checks: remove the RRset, and put `data` in its place
      unless it is a deletion. */
  datatype Edit = Edit(key: RRKey, ttl: nat, data: Option<seq<string>>)

  function ParseAll(codec: Codec, code: nat, values: seq<string>): Option<seq<string>> {
    if values == [] then Some([])
    else
      var n := |values| - 1;
      match ParseAll(codec, code, values[..n])
      case None => None
      case Some(before) =>
        match codec.parse(code, Text.TrimSpace(values[n]))
        case None => None
        case Some(data) => Some(before + [data])
  }

  function ParseChange(codec: Codec, zone: string, change: Change): Option<Edit> {
    var action, code, owner :=
        Text.ToLower(change.action), codec.typeCode(change.rtype), codec.owner(zone, change.name);
    if action != "upsert" && action != "delete" then None
    else if code.None? || Unchangeable(code.value) || owner.None? then None
    else if action == "delete" then
      if change.records != [] then None else Some(Edit(RRKey(owner.value, code.value), 0, None))
    else if change.records == [] then None
    else
      match ParseAll(codec, code.value, change.records)
      case None => None
      case Some(data) => Some(Edit(RRKey(owner.value, code.value), change.ttl, Some(data)))
  }

  function NewRecords(key: RRKey, ttl: nat, data: seq<string>): seq<RR> {
    seq(|data|, i requires 0 <= i < |data| => RR(key.name, CLASS_IN, key.rtype, ttl, 0, data[i]))
  }

  /** The records that are not in an RRset. */
  function Except(lib: Library, rrs: seq<RR>, key: RRKey): seq<RR> {
    if rrs == [] then []
    else
      var n := |rrs| - 1;
      if KeyOf(lib, rrs[n]) == key then Except(lib, rrs[..n], key) else Except(lib, rrs[..n], key) + [rrs[n]]
  }

  function ApplyEdit(lib: Library, rrs: seq<RR>, e: Edit): seq<RR> {
    Except(lib, rrs, e.key) + if e.data.Some? then NewRecords(e.key, e.ttl, e.data.value) else []
  }

  /** `applyChange`; None is its error. */
  function ApplyChange(lib: Library, codec: Codec, zone: string, rrs: seq<RR>, change: Change): Option<seq<RR>> {
    match ParseChange(codec, zone, change)
    case None => None
    case Some(e) => Some(ApplyEdit(lib, rrs, e))
  }

  /** Compaction in place: the kept records move to the front, in order. */
  method Compact(lib: Library, rrs: array<RR>, key: RRKey) returns (n: nat)
    modifies rrs
    ensures n <= rrs.Length && rrs[..n] == Except(lib, old(rrs[..]), key)
  {
    n := 0;
    ghost var was := rrs[..];
    for i := 0 to rrs.Length
      invariant n <= i
      invariant rrs[..n] == Except(lib, was[..i], key)
      invariant forall j :: i <= j < rrs.Length ==> rrs[j] == was[j]
    {
      assert was[..i + 1][..i] == was[..i];
      if KeyOf(lib, rrs[i]) == key {
        continue;
      }
      rrs[n] := rrs[i];
      n := n + 1;
    }
    assert was[..rrs.Length] == was;
  }

  method ParseRecords(codec: Codec, code: nat, values: seq<string>) returns (r: Option<seq<string>>)
    ensures r == ParseAll(codec, code, values)
  {
    var data := [];
    for i := 0 to |values|
      invariant ParseAll(codec, code, values[..i]) == Some(data)
    {
      assert values[..i + 1][..i] == values[..i];
      var parsed := codec.parse(code, Text.TrimSpace(values[i]));
      if parsed.None? {
        ParsePrefix(codec, code, values, i + 1);
        return None;
      }
      data := data + [parsed.value];
    }
    assert values[..|values|] == values;
    r := Some(data);
  }

  lemma {:induction false} ParsePrefix(codec: Codec, code: nat, values: seq<string>, i: nat)
    requires i <= |values| && ParseAll(codec, code, values[..i]).None?
    ensures ParseAll(codec, code, values).None?
    decreases |values| - i
  {
    if i == |values| {
      assert values[..i] == values;
    } else {
      assert values[..i + 1][..i] == values[..i];
      ParsePrefix(codec, code, values, i + 1);
    }
  }

  /** The steps of `applyChange` over its own copy of the records. */
  method RunChange(lib: Library, codec: Codec, zone: string, rrs: seq<RR>, change: Change) returns (r: Option<seq<RR>>)
    ensures r == ApplyChange(lib, codec, zone, rrs, change)
  {
    var action := Text.ToLower(change.action);
    var code, owner := codec.typeCode(change.rtype), codec.owner(zone, change.name);
    if (action != "upsert" && action != "delete") || code.None? || Unchangeable(code.value) || owner.None? {
      return None;
    }
    var key := RRKey(owner.value, code.value);
    var work := new RR[|rrs|](i requires 0 <= i < |rrs| => rrs[i]);
    assert work[..] == rrs;
    var n := Compact(lib, work, key);
    if action == "delete" {
      return if change.records != [] then None else Some(work[..n] + []);
    }
    if change.records == [] {
      return None;
    }
    var data := ParseRecords(codec, code.value, change.records);
    if data.None? {
      return None;
    }
    r := Some(work[..n] + NewRecords(key, change.ttl, data.value));
  }

  // ----------------------------------------------------------------- grouping

  function Records(lib: Library, rrs: seq<RR>, key: RRKey): seq<RR> {
    if rrs == [] then []
    else
      var n := |rrs| - 1;
      if KeyOf(lib, rrs[n]) == key then Records(lib, rrs[..n], key) + [rrs[n]] else Records(lib, rrs[..n], key)
  }

  function DataOf(rrs: seq<RR>): seq<string> {
    seq(|rrs|, i requires 0 <= i < |rrs| => rrs[i].data)
  }

  datatype Group = Group(ttl: nat, records: seq<string>)

  /** An RRset as the API shows it: the TTL of its first record, its data sorted. */
  function GroupOf(lib: Library, rrs: seq<RR>, key: RRKey): Option<Group> {
    var rs := Records(lib, rrs, key);
    if rs == [] then None else Some(Group(rs[0].ttl, Text.SortStrings(DataOf(rs))))
  }

  ghost predicate UniqueSets(sets: seq<RRset>) {
    forall i, j :: 0 <= i < j < |sets| ==> SetKey(sets[i]) != SetKey(sets[j])
  }

  ghost predicate HasSet(sets: seq<RRset>, key: RRKey) {
    exists i :: 0 <= i < |sets| && SetKey(sets[i]) == key
  }

  /** The list of all RRsets of a zone. */
  ghost predicate Groups(lib: Library, sets: seq<RRset>, rrs: seq<RR>) {
    && UniqueSets(sets)
    && (forall i :: 0 <= i < |sets| ==> GroupOf(lib, rrs, SetKey(sets[i])) == Some(Group(sets[i].ttl, sets[i].records)))
    && (forall key :: !HasSet(sets, key) ==> GroupOf(lib, rrs, key).None?)
  }

  function FindGroup(m: map<RRKey, Group>, key: RRKey): Option<Group> {
    if key in m then Some(m[key]) else None
  }

  /** The data of an RRset in file order, with the TTL of the first record. */
  function RawGroup(lib: Library, rrs: seq<RR>, key: RRKey): Option<Group> {
    var rs := Records(lib, rrs, key);
    if rs == [] then None else Some(Group(rs[0].ttl, DataOf(rs)))
  }

  lemma RawGroupStep(lib: Library, rrs: seq<RR>, i: nat, key: RRKey)
    requires i < |rrs|
    ensures RawGroup(lib, rrs[..i + 1], key) ==
            if KeyOf(lib, rrs[i]) != key then RawGroup(lib, rrs[..i], key)
            else
              match RawGroup(lib, rrs[..i], key)
              case None => Some(Group(rrs[i].ttl, [rrs[i].data]))
              case Some(g) => Some(Group(g.ttl, g.records + [rrs[i].data]))
  {
    assert rrs[..i + 1][..i] == rrs[..i];
    var rs := Records(lib, rrs[..i], key);
    assert DataOf(rs + [rrs[i]]) == DataOf(rs) + [rrs[i].data];
    assert rs == [] ==> DataOf(rs + [rrs[i]]) == [rrs[i].data];
  }

  /** `groupRRsets` */
  method GroupRRsets(lib: Library, rrs: seq<RR>) returns (sets: seq<RRset>)
    ensures Groups(lib, sets, rrs)
  {
    var m: map<RRKey, Group> := map[];
    for i := 0 to |rrs|
      invariant forall key :: FindGroup(m, key) == RawGroup(lib, rrs[..i], key)
    {
      ghost var before := m;
      var k := KeyOf(lib, rrs[i]);
      m := m[k := if k in m then Group(m[k].ttl, m[k].records + [rrs[i].data]) else Group(rrs[i].ttl, [rrs[i].data])];
      forall key ensures FindGroup(m, key) == RawGroup(lib, rrs[..i + 1], key) {
        assert FindGroup(before, key) == RawGroup(lib, rrs[..i], key);
        RawGroupStep(lib, rrs, i, key);
      }
    }
    assert rrs[..|rrs|] == rrs;
    sets := ListGroups(m);
    forall key | !HasSet(sets, key) ensures GroupOf(lib, rrs, key).None? {
      assert FindGroup(m, key) == RawGroup(lib, rrs, key);
    }
    forall i | 0 <= i < |sets| ensures GroupOf(lib, rrs, SetKey(sets[i])) == Some(Group(sets[i].ttl, sets[i].records)) {
      assert FindGroup(m, SetKey(sets[i])) == RawGroup(lib, rrs, SetKey(sets[i]));
    }
  }

  method ListGroups(m: map<RRKey, Group>) returns (sets: seq<RRset>)
    ensures UniqueSets(sets)
    ensures forall i :: 0 <= i < |sets| ==>
              SetKey(sets[i]) in m && sets[i].ttl == m[SetKey(sets[i])].ttl
                  && sets[i].records == Text.SortStrings(m[SetKey(sets[i])].records)
    ensures forall key :: key in m ==> HasSet(sets, key)
  {
    sets := [];
    var pending := m.Keys;
    while pending != {}
      invariant pending <= m.Keys
      invariant UniqueSets(sets)
      invariant forall i :: 0 <= i < |sets| ==> SetKey(sets[i]) in m && SetKey(sets[i]) !in pending
      invariant forall i :: 0 <= i < |sets| ==>
                  (sets[i].ttl == m[SetKey(sets[i])].ttl
                      && sets[i].records == Text.SortStrings(m[SetKey(sets[i])].records))
      invariant forall key :: key in m && key !in pending ==> HasSet(sets, key)
      decreases |pending|
    {
      var key :| key in pending;
      pending := pending - {key};
      ghost var before := sets;
      sets := sets + [RRset(key.name, key.rtype, m[key].ttl, Text.SortStrings(m[key].records))];
      forall k | HasSet(before, k) ensures HasSet(sets, k) {
        var i :| 0 <= i < |before| && SetKey(before[i]) == k;
        assert SetKey(sets[i]) == k;
      }
      assert SetKey(sets[|before|]) == key;
    }
  }

  // --------------------------------------------------------------- difference

  function Upsert(codec: Codec, s: RRset): Change {
    Change("upsert", s.name, codec.typeName(s.rtype), s.ttl, s.records)
  }

  function Removal(codec: Codec, s: RRset): Change {
    Change("delete", s.name, codec.typeName(s.rtype), 0, [])
  }

  predicate Unchanged(from: seq<RRset>, s: RRset) {
    s in from
  }

  predicate Present(sets: seq<RRset>, key: RRKey) {
    exists s :: s in sets && SetKey(s) == key
  }

  /** The sets of `to` that have to be written. */
  function ToWrite(from: seq<RRset>, to: seq<RRset>): seq<RRset> {
    if to == [] then []
    else
      var n := |to| - 1;
      ToWrite(from, to[..n]) + if to[n].rtype == TYPE_SOA || Unchanged(from, to[n]) then [] else [to[n]]
  }

  /** The sets of `from` that have to go. */
  function ToRemove(from: seq<RRset>, to: seq<RRset>): seq<RRset> {
    if from == [] then []
    else
      var n := |from| - 1;
      ToRemove(from[..n], to) + if from[n].rtype == TYPE_SOA || Present(to, SetKey(from[n])) then [] else [from[n]]
  }

  function Upserts(codec: Codec, sets: seq<RRset>): seq<Change> {
    seq(|sets|, i requires 0 <= i < |sets| => Upsert(codec, sets[i]))
  }

  function Removals(codec: Codec, sets: seq<RRset>): seq<Change> {
    seq(|sets|, i requires 0 <= i < |sets| => Removal(codec, sets[i]))
  }

  function Diff(codec: Codec, from: seq<RRset>, to: seq<RRset>): seq<Change> {
    Upserts(codec, ToWrite(from, to)) + Removals(codec, ToRemove(from, to))
  }

  /** The sets of `from` whose keys `to` has not yet used up. */
  ghost predicate Remaining(existing: map<RRKey, RRset>, from: seq<RRset>, to: seq<RRset>) {
    && (forall s :: s in from && !Present(to, SetKey(s)) ==> SetKey(s) in existing && existing[SetKey(s)] == s)
    && (forall key :: key in existing ==> existing[key] in from && SetKey(existing[key]) == key && !Present(to, key))
  }

  method IndexSets(from: seq<RRset>) returns (existing: map<RRKey, RRset>)
    requires UniqueSets(from)
    ensures Remaining(existing, from, [])
  {
    existing := map[];
    for i := 0 to |from|
      invariant forall j :: 0 <= j < i ==> SetKey(from[j]) in existing && existing[SetKey(from[j])] == from[j]
      invariant forall key :: key in existing ==> existing[key] in from && SetKey(existing[key]) == key
    {
      existing := existing[SetKey(from[i]) := from[i]];
    }
  }

  lemma WriteStep(codec: Codec, from: seq<RRset>, to: seq<RRset>, i: nat)
    requires i < |to|
    ensures Upserts(codec, ToWrite(from, to[..i + 1])) ==
            Upserts(codec, ToWrite(from, to[..i])) +
            if to[i].rtype == TYPE_SOA || Unchanged(from, to[i]) then [] else [Upsert(codec, to[i])]
  {
    assert to[..i + 1][..i] == to[..i];
  }

  lemma RemoveStep(codec: Codec, from: seq<RRset>, to: seq<RRset>, i: nat)
    requires i < |from|
    ensures Removals(codec, ToRemove(from[..i + 1], to)) ==
            Removals(codec, ToRemove(from[..i], to)) +
            if from[i].rtype == TYPE_SOA || Present(to, SetKey(from[i])) then [] else [Removal(codec, from[i])]
  {
    assert from[..i + 1][..i] == from[..i];
  }

  method DiffUpserts(
    codec: Codec, from: seq<RRset>, to: seq<RRset>)
    returns (changes: seq<Change>, existing: map<RRKey, RRset>)
    requires UniqueSets(from) && UniqueSets(to)
    ensures changes == Upserts(codec, ToWrite(from, to))
    ensures Remaining(existing, from, to)
  {
    existing := IndexSets(from);
    changes := [];
    for i := 0 to |to|
      invariant Remaining(existing, from, to[..i])
      invariant changes == Upserts(codec, ToWrite(from, to[..i]))
    {
      var s := to[i];
      RemainingStep(existing, from, to, i);
      WriteStep(codec, from, to, i);
      var same := SetKey(s) in existing && existing[SetKey(s)].ttl == s.ttl && existing[SetKey(s)].records == s.records;
      existing := existing - {SetKey(s)};
      if s.rtype == TYPE_SOA || same {
        continue;
      }
      changes := changes + [Upsert(codec, s)];
    }
    assert to[..|to|] == to;
  }

  /** `diffRRsets` */
  method DiffRRsets(codec: Codec, from: seq<RRset>, to: seq<RRset>) returns (changes: seq<Change>)
    requires UniqueSets(from) && UniqueSets(to)
    ensures changes == Diff(codec, from, to)
  {
    var upserts, existing := DiffUpserts(codec, from, to);
    var removals := [];
    for i := 0 to |from|
      invariant removals == Removals(codec, ToRemove(from[..i], to))
    {
      var s := from[i];
      RemoveStep(codec, from, to, i);
      StillThere(existing, from, to, s);
      if SetKey(s) in existing && s.rtype != TYPE_SOA {
        removals := removals + [Removal(codec, s)];
      }
    }
    assert from[..|from|] == from;
    changes := upserts + removals;
  }

  lemma StillThere(existing: map<RRKey, RRset>, from: seq<RRset>, to: seq<RRset>, s: RRset)
    requires Remaining(existing, from, to) && s in from
    ensures SetKey(s) in existing <==> !Present(to, SetKey(s))
  {
  }

  lemma PresentStep(to: seq<RRset>, i: nat, key: RRKey)
    requires i < |to|
    ensures Present(to[..i + 1], key) <==> Present(to[..i], key) || SetKey(to[i]) == key
  {
    assert to[..i + 1] == to[..i] + [to[i]];
    if SetKey(to[i]) == key {
      assert to[i] in to[..i + 1];
    }
  }

  lemma RemainingStep(existing: map<RRKey, RRset>, from: seq<RRset>, to: seq<RRset>, i: nat)
    requires UniqueSets(from) && UniqueSets(to) && i < |to| && Remaining(existing, from, to[..i])
    ensures Remaining(existing - {SetKey(to[i])}, from, to[..i + 1])
    ensures Unchanged(from, to[i]) <==>
            SetKey(to[i]) in existing && existing[SetKey(to[i])].ttl == to[i].ttl
                && existing[SetKey(to[i])].records == to[i].records
  {
    forall key ensures Present(to[..i + 1], key) <==> Present(to[..i], key) || SetKey(to[i]) == key {
      PresentStep(to, i, key);
    }
    forall s | s in to[..i] ensures SetKey(s) != SetKey(to[i]) {
      var j :| 0 <= j < i && to[..i][j] == s;
    }
  }

  // ------------------------------------------------------- diff, then apply

  function ParseChanges(codec: Codec, zone: string, changes: seq<Change>): seq<Option<Edit>> {
    seq(|changes|, i requires 0 <= i < |changes| => ParseChange(codec, zone, changes[i]))
  }

  /** The edits in turn; None at the first change that did not parse. */
  function ApplyParsed(lib: Library, rrs: seq<RR>, edits: seq<Option<Edit>>): Option<seq<RR>> {
    if edits == [] then Some(rrs)
    else
      var n := |edits| - 1;
      ApplyOne(lib, ApplyParsed(lib, rrs, edits[..n]), edits[n])
  }

  function ApplyOne(lib: Library, rrs: Option<seq<RR>>, edit: Option<Edit>): Option<seq<RR>> {
    if rrs.None? || edit.None? then None else Some(ApplyEdit(lib, rrs.value, edit.value))
  }

  /** The loop of `Apply` over the changes of a request. */
  function ApplyAll(lib: Library, codec: Codec, zone: string, rrs: seq<RR>, changes: seq<Change>): Option<seq<RR>> {
    ApplyParsed(lib, rrs, ParseChanges(codec, zone, changes))
  }

  lemma ApplyNext(lib: Library, rrs: seq<RR>, edits: seq<Option<Edit>>, i: nat)
    requires i < |edits|
    ensures ApplyParsed(lib, rrs, edits[..i + 1]) == ApplyOne(lib, ApplyParsed(lib, rrs, edits[..i]), edits[i])
  {
    assert edits[..i + 1][..i] == edits[..i];
  }

  method RunAt(
    lib: Library, codec: Codec, zone: string, rrs: seq<RR>, changes: seq<Change>, i: nat)
    returns (r: Option<seq<RR>>)
    requires i < |changes|
    ensures r == ApplyOne(lib, Some(rrs), ParseChanges(codec, zone, changes)[i])
  {
    r := RunChange(lib, codec, zone, rrs, changes[i]);
  }

  method RunChanges(
    lib: Library, codec: Codec, zone: string, rrs: seq<RR>, changes: seq<Change>)
    returns (r: Option<seq<RR>>)
    ensures r == ApplyAll(lib, codec, zone, rrs, changes)
  {
    var current := rrs;
    ghost var edits := ParseChanges(codec, zone, changes);
    for i := 0 to |changes|
      invariant ApplyParsed(lib, rrs, edits[..i]) == Some(current)
    {
      var next := RunAt(lib, codec, zone, current, changes, i);
      ApplyNext(lib, rrs, edits, i);
      if next.None? {
        ApplyPrefix(lib, rrs, edits, i + 1);
        return None;
      }
      current := next.value;
    }
    assert edits[..|changes|] == edits;
    r := Some(current);
  }

  lemma {:induction false} ApplyPrefix(lib: Library, rrs: seq<RR>, edits: seq<Option<Edit>>, i: nat)
    requires i <= |edits| && ApplyParsed(lib, rrs, edits[..i]).None?
    ensures ApplyParsed(lib, rrs, edits).None?
    decreases |edits| - i
  {
    if i == |edits| {
      assert edits[..i] == edits;
    } else {
      assert edits[..i + 1][..i] == edits[..i];
      ApplyPrefix(lib, rrs, edits, i + 1);
    }
  }

  function ApplyEdits(lib: Library, rrs: seq<RR>, edits: seq<Edit>): seq<RR> {
    if edits == [] then rrs
    else ApplyEdit(lib, ApplyEdits(lib, rrs, edits[..|edits| - 1]), edits[|edits| - 1])
  }

  lemma {:induction false} RecordsConcat(lib: Library, a: seq<RR>, b: seq<RR>, key: RRKey)
    ensures Records(lib, a + b, key) == Records(lib, a, key) + Records(lib, b, key)
  {
    if b == [] {
      assert a + b == a;
    } else {
      var n := |b| - 1;
      assert (a + b)[..|a + b| - 1] == a + b[..n];
      RecordsConcat(lib, a, b[..n], key);
    }
  }

  lemma {:induction false} RecordsExcept(lib: Library, rrs: seq<RR>, gone: RRKey, key: RRKey)
    ensures Records(lib, Except(lib, rrs, gone), key) == if key == gone then [] else Records(lib, rrs, key)
  {
    if rrs != [] {
      var n := |rrs| - 1;
      RecordsExcept(lib, rrs[..n], gone, key);
      var rest := Except(lib, rrs[..n], gone);
      assert (rest + [rrs[n]])[..|rest|] == rest;
    }
  }

  lemma {:induction false} RecordsNew(lib: Library, owner: RRKey, ttl: nat, data: seq<string>, key: RRKey)
    requires lib.canonical(owner.name) == owner.name
    ensures Records(lib, NewRecords(owner, ttl, data), key) == if key == owner then NewRecords(owner, ttl, data) else []
  {
    if data != [] {
      var n := |data| - 1;
      RecordsNew(lib, owner, ttl, data[..n], key);
      assert NewRecords(owner, ttl, data)[..n] == NewRecords(owner, ttl, data[..n]);
    }
  }

  /** What an edit leaves of its RRset. */
  function EditGroup(e: Edit): Option<Group> {
    if e.data.None? || e.data.value == [] then None else Some(Group(e.ttl, Text.SortStrings(e.data.value)))
  }

  /** The filter and append of `applyChange` refine the update of one RRset. */
  lemma ApplyEditEffect(lib: Library, rrs: seq<RR>, e: Edit, key: RRKey)
    requires lib.canonical(e.key.name) == e.key.name
    ensures GroupOf(lib, ApplyEdit(lib, rrs, e), key) == if key == e.key then EditGroup(e) else GroupOf(lib, rrs, key)
    ensures key != e.key ==> Records(lib, ApplyEdit(lib, rrs, e), key) == Records(lib, rrs, key)
  {
    EditedRecords(lib, rrs, e, key);
    if key == e.key && e.data.Some? {
      assert DataOf(NewRecords(e.key, e.ttl, e.data.value)) == e.data.value;
    }
  }

  lemma EditedRecords(lib: Library, rrs: seq<RR>, e: Edit, key: RRKey)
    requires lib.canonical(e.key.name) == e.key.name
    ensures Records(lib, ApplyEdit(lib, rrs, e), key) ==
            if key != e.key then Records(lib, rrs, key)
            else if e.data.Some? then NewRecords(e.key, e.ttl, e.data.value) else []
  {
    var new_ := if e.data.Some? then NewRecords(e.key, e.ttl, e.data.value) else [];
    RecordsConcat(lib, Except(lib, rrs, e.key), new_, key);
    RecordsExcept(lib, rrs, e.key, key);
    if e.data.Some? {
      RecordsNew(lib, e.key, e.ttl, e.data.value, key);
    }
    var kept := Records(lib, rrs, key);
    assert kept + [] == kept && [] + new_ == new_;
  }

  ghost predicate DistinctEdits(edits: seq<Edit>) {
    forall i, j :: 0 <= i < j < |edits| ==> edits[i].key != edits[j].key
  }

  /** Edits of different RRsets act independently. */
  lemma {:induction false} ApplyEditsEffect(lib: Library, rrs: seq<RR>, edits: seq<Edit>, key: RRKey)
    requires DistinctEdits(edits)
    requires forall i :: 0 <= i < |edits| ==> lib.canonical(edits[i].key.name) == edits[i].key.name
    ensures forall i :: 0 <= i < |edits| && edits[i].key == key ==>
              GroupOf(lib, ApplyEdits(lib, rrs, edits), key) == EditGroup(edits[i])
    ensures (forall i :: 0 <= i < |edits| ==> edits[i].key != key) ==>
              Records(lib, ApplyEdits(lib, rrs, edits), key) == Records(lib, rrs, key)
  {
    if edits != [] {
      var n := |edits| - 1;
      ApplyEditsEffect(lib, rrs, edits[..n], key);
      assert forall i :: 0 <= i < n ==> edits[..n][i] == edits[i];
      ApplyEditEffect(lib, ApplyEdits(lib, rrs, edits[..n]), edits[n], key);
    }
  }

  // --------------------------------------------------------- what a change does

  lemma {:induction false} ExceptCount(lib: Library, rrs: seq<RR>, key: RRKey, rr: RR)
    requires rr.rtype != key.rtype
    ensures multiset(Except(lib, rrs, key))[rr] == multiset(rrs)[rr]
  {
    if rrs != [] {
      var n := |rrs| - 1;
      ExceptCount(lib, rrs[..n], key, rr);
      assert rrs == rrs[..n] + [rrs[n]];
    }
  }

  lemma EditKeeps(lib: Library, rrs: seq<RR>, e: Edit, rr: RR)
    requires rr.rtype != e.key.rtype
    ensures multiset(ApplyEdit(lib, rrs, e))[rr] == multiset(rrs)[rr]
  {
    ExceptCount(lib, rrs, e.key, rr);
    if e.data.Some? {
      assert rr !in NewRecords(e.key, e.ttl, e.data.value);
    }
  }

  /** Accepted changes leave the SOA alone, and query types as they do. */
  lemma SoaKept(lib: Library, codec: Codec, zone: string, rrs: seq<RR>, changes: seq<Change>, rr: RR)
    requires ApplyAll(lib, codec, zone, rrs, changes).Some? && rr.rtype in {0, TYPE_SOA, 251, 252, 255}
    ensures multiset(ApplyAll(lib, codec, zone, rrs, changes).value)[rr] == multiset(rrs)[rr]
  {
    forall i | 0 <= i < |changes| && ParseChanges(codec, zone, changes)[i].Some?
      ensures ParseChanges(codec, zone, changes)[i].value.key.rtype != rr.rtype
    {
    }
    ParsedKeep(lib, rrs, ParseChanges(codec, zone, changes), rr);
  }

  lemma {:induction false} ParsedKeep(lib: Library, rrs: seq<RR>, edits: seq<Option<Edit>>, rr: RR)
    requires ApplyParsed(lib, rrs, edits).Some?
    requires forall i :: 0 <= i < |edits| && edits[i].Some? ==> edits[i].value.key.rtype != rr.rtype
    ensures multiset(ApplyParsed(lib, rrs, edits).value)[rr] == multiset(rrs)[rr]
  {
    if edits != [] {
      var n := |edits| - 1;
      ParsedKeep(lib, rrs, edits[..n], rr);
      EditKeeps(lib, ApplyParsed(lib, rrs, edits[..n]).value, edits[n].value, rr);
    }
  }

  ghost predicate CanonicalEdits(lib: Library, edits: seq<Option<Edit>>) {
    forall j :: 0 <= j < |edits| && edits[j].Some? ==>
        lib.canonical(edits[j].value.key.name) == edits[j].value.key.name
  }

  ghost predicate Unnamed(edits: seq<Option<Edit>>, i: nat, key: RRKey) {
    forall j :: i <= j < |edits| && edits[j].Some? ==> edits[j].value.key != key
  }

  /** The last of some edits that names an RRset decides it; an RRset that none of them
      names keeps its records. */
  lemma {:induction false} LastEditDecides(lib: Library, rrs: seq<RR>, edits: seq<Option<Edit>>, i: nat, key: RRKey)
    requires ApplyParsed(lib, rrs, edits).Some? && i <= |edits|
    requires CanonicalEdits(lib, edits) && Unnamed(edits, i, key)
    requires i > 0 ==> edits[i - 1].Some? && edits[i - 1].value.key == key
    ensures var after := ApplyParsed(lib, rrs, edits).value;
            if i > 0 then GroupOf(lib, after, key) == EditGroup(edits[i - 1].value)
            else Records(lib, after, key) == Records(lib, rrs, key)
  {
    if edits != [] {
      var n := |edits| - 1;
      ApplyEditEffect(lib, ApplyParsed(lib, rrs, edits[..n]).value, edits[n].value, key);
      if i <= n {
        LastEditDecides(lib, rrs, edits[..n], i, key);
      }
    }
  }

  /** What a change asks of its RRset: gone, or these values with this TTL. */
  ghost predicate AsAsked(codec: Codec, code: nat, change: Change, group: Option<Group>) {
    if Text.ToLower(change.action) == "delete" then group.None?
    else
      && group.Some? && group.value.ttl == change.ttl && Text.SortedStrings(group.value.records)
      && exists data :: Reads(codec, code, change.records, data) && multiset(group.value.records) == multiset(data)
  }

  ghost predicate Reads(codec: Codec, code: nat, values: seq<string>, data: seq<string>) {
    |data| == |values| &&
    forall k :: 0 <= k < |values| ==> codec.parse(code, Text.TrimSpace(values[k])) == Some(data[k])
  }

  lemma {:induction false} ParsedReads(codec: Codec, code: nat, values: seq<string>)
    requires ParseAll(codec, code, values).Some?
    ensures Reads(codec, code, values, ParseAll(codec, code, values).value)
  {
    if values != [] {
      ParsedReads(codec, code, values[..|values| - 1]);
    }
  }

  lemma EditAsked(codec: Codec, zone: string, change: Change)
    requires ParseChange(codec, zone, change).Some?
    ensures var e := ParseChange(codec, zone, change).value;
            && codec.owner(zone, change.name) == Some(e.key.name) && codec.typeCode(change.rtype) == Some(e.key.rtype)
            && AsAsked(codec, e.key.rtype, change, EditGroup(e))
  {
    var e := ParseChange(codec, zone, change).value;
    if e.data.Some? {
      ParsedReads(codec, e.key.rtype, change.records);
      Text.SortStringsSorted(e.data.value);
    }
  }

  /** The last change of a request that names an RRset gets what it asks for, and RRsets
      that are not named keep their records. */
  lemma ChangesTaken(
    lib: Library, codec: Codec, zone: string, rrs: seq<RR>, changes: seq<Change>, i: nat, key: RRKey)
    requires ApplyAll(lib, codec, zone, rrs, changes).Some? && i <= |changes|
    requires forall j :: 0 <= j < |changes| && codec.owner(zone, changes[j].name).Some? ==>
        lib.canonical(codec.owner(zone, changes[j].name).value) == codec.owner(zone, changes[j].name).value
    requires forall j :: i <= j < |changes| ==> !Names(codec, zone, changes[j], key)
    requires i > 0 ==> Names(codec, zone, changes[i - 1], key)
    ensures var after := ApplyAll(lib, codec, zone, rrs, changes).value;
            if i > 0 then AsAsked(codec, key.rtype, changes[i - 1], GroupOf(lib, after, key))
            else Records(lib, after, key) == Records(lib, rrs, key)
  {
    EditsCanonical(lib, codec, zone, changes);
    EditsUnnamed(codec, zone, changes, i, key);
    AllParsed(lib, rrs, ParseChanges(codec, zone, changes));
    LastEditDecides(lib, rrs, ParseChanges(codec, zone, changes), i, key);
    if i > 0 {
      LastAsked(lib, codec, zone, changes, i - 1, key);
    }
  }

  lemma LastAsked(lib: Library, codec: Codec, zone: string, changes: seq<Change>, i: nat, key: RRKey)
    requires i < |changes| && ParseChanges(codec, zone, changes)[i].Some? && Names(codec, zone, changes[i], key)
    ensures var e := ParseChanges(codec, zone, changes)[i].value;
            e.key == key && AsAsked(codec, key.rtype, changes[i], EditGroup(e))
  {
    EditNames(codec, zone, changes[i], key);
  }

  lemma EditsCanonical(lib: Library, codec: Codec, zone: string, changes: seq<Change>)
    requires forall j :: 0 <= j < |changes| && codec.owner(zone, changes[j].name).Some? ==>
        lib.canonical(codec.owner(zone, changes[j].name).value) == codec.owner(zone, changes[j].name).value
    ensures CanonicalEdits(lib, ParseChanges(codec, zone, changes))
  {
    var edits := ParseChanges(codec, zone, changes);
    forall j | 0 <= j < |edits| && edits[j].Some?
      ensures lib.canonical(edits[j].value.key.name) == edits[j].value.key.name
    {
      EditAsked(codec, zone, changes[j]);
    }
  }

  lemma EditsUnnamed(codec: Codec, zone: string, changes: seq<Change>, i: nat, key: RRKey)
    requires forall j :: i <= j < |changes| ==> !Names(codec, zone, changes[j], key)
    ensures Unnamed(ParseChanges(codec, zone, changes), i, key)
  {
    var edits := ParseChanges(codec, zone, changes);
    forall j | i <= j < |edits| && edits[j].Some? ensures edits[j].value.key != key {
      EditNames(codec, zone, changes[j], key);
    }
  }

  lemma EditNames(codec: Codec, zone: string, change: Change, key: RRKey)
    requires ParseChange(codec, zone, change).Some?
    ensures var e := ParseChange(codec, zone, change).value;
            && codec.owner(zone, change.name) == Some(e.key.name)
            && (e.key == key <==> Names(codec, zone, change, key))
            && (e.key == key ==> AsAsked(codec, key.rtype, change, EditGroup(e)))
  {
    EditAsked(codec, zone, change);
  }

  /** A change names an RRset by its owner and type. */
  ghost predicate Names(codec: Codec, zone: string, change: Change, key: RRKey) {
    codec.owner(zone, change.name) == Some(key.name) && codec.typeCode(change.rtype) == Some(key.rtype)
  }

  lemma {:induction false} AllParsed(lib: Library, rrs: seq<RR>, edits: seq<Option<Edit>>)
    requires ApplyParsed(lib, rrs, edits).Some?
    ensures forall i :: 0 <= i < |edits| ==> edits[i].Some?
  {
    if edits != [] {
      AllParsed(lib, rrs, edits[..|edits| - 1]);
      assert forall i :: 0 <= i < |edits| - 1 ==> edits[..|edits| - 1][i] == edits[i];
    }
  }
}
