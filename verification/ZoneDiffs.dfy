/** The difference of two zone versions, applied to the first, gives the second. */
module ZoneDiffs {
  import opened Options
  import opened ZoneRecords
  import opened ZoneChanges
  import Text

  /** RRsets whose printed form the library reads back: type, owner and data. */
  ghost predicate Reversible(lib: Library, codec: Codec, zone: string, s: RRset) {
    && codec.typeCode(codec.typeName(s.rtype)) == Some(s.rtype) && !Unchangeable(s.rtype)
    && codec.owner(zone, s.name) == Some(s.name) && lib.canonical(s.name) == s.name
    && s.records != []
    && forall i :: 0 <= i < |s.records| ==> codec.parse(s.rtype, Text.TrimSpace(s.records[i])) == Some(s.records[i])
  }

  lemma {:induction false} ParseBack(codec: Codec, code: nat, values: seq<string>)
    requires forall i :: 0 <= i < |values| ==> codec.parse(code, Text.TrimSpace(values[i])) == Some(values[i])
    ensures ParseAll(codec, code, values) == Some(values)
  {
    if values != [] {
      var n := |values| - 1;
      assert forall i :: 0 <= i < n ==> values[..n][i] == values[i];
      ParseBack(codec, code, values[..n]);
      assert values == values[..n] + [values[n]];
    }
  }

  function UpsertEdit(s: RRset): Edit {
    Edit(SetKey(s), s.ttl, Some(s.records))
  }

  function RemovalEdit(s: RRset): Edit {
    Edit(SetKey(s), 0, None)
  }

  lemma UpsertParses(lib: Library, codec: Codec, zone: string, s: RRset)
    requires Reversible(lib, codec, zone, s)
    ensures ParseChange(codec, zone, Upsert(codec, s)) == Some(UpsertEdit(s))
  {
    assert Text.ToLower("upsert") == "upsert";
    ParseBack(codec, s.rtype, s.records);
  }

  lemma RemovalParses(lib: Library, codec: Codec, zone: string, s: RRset)
    requires Reversible(lib, codec, zone, s)
    ensures ParseChange(codec, zone, Removal(codec, s)) == Some(RemovalEdit(s))
  {
    assert Text.ToLower("delete") == "delete";
  }

  lemma {:induction false} WriteMembers(from: seq<RRset>, to: seq<RRset>, s: RRset)
    ensures s in ToWrite(from, to) <==> s in to && s.rtype != TYPE_SOA && s !in from
  {
    if to != [] {
      var n := |to| - 1;
      WriteMembers(from, to[..n], s);
      assert to == to[..n] + [to[n]];
    }
  }

  lemma {:induction false} RemoveMembers(from: seq<RRset>, to: seq<RRset>, s: RRset)
    ensures s in ToRemove(from, to) <==> s in from && s.rtype != TYPE_SOA && !Present(to, SetKey(s))
  {
    if from != [] {
      var n := |from| - 1;
      RemoveMembers(from[..n], to, s);
      assert from == from[..n] + [from[n]];
    }
  }

  lemma {:induction false} WriteUnique(from: seq<RRset>, to: seq<RRset>)
    requires UniqueSets(to)
    ensures UniqueSets(ToWrite(from, to))
  {
    if to != [] {
      var n := |to| - 1;
      WriteUnique(from, to[..n]);
      forall s | s in ToWrite(from, to[..n]) ensures SetKey(s) != SetKey(to[n]) {
        WriteMembers(from, to[..n], s);
      }
    }
  }

  lemma {:induction false} RemoveUnique(from: seq<RRset>, to: seq<RRset>)
    requires UniqueSets(from)
    ensures UniqueSets(ToRemove(from, to))
  {
    if from != [] {
      var n := |from| - 1;
      RemoveUnique(from[..n], to);
      forall s | s in ToRemove(from[..n], to) ensures SetKey(s) != SetKey(from[n]) {
        RemoveMembers(from[..n], to, s);
      }
    }
  }

  function UpsertEdits(sets: seq<RRset>): seq<Edit> {
    seq(|sets|, i requires 0 <= i < |sets| => UpsertEdit(sets[i]))
  }

  function RemovalEdits(sets: seq<RRset>): seq<Edit> {
    seq(|sets|, i requires 0 <= i < |sets| => RemovalEdit(sets[i]))
  }

  function DiffEdits(from: seq<RRset>, to: seq<RRset>): seq<Edit> {
    UpsertEdits(ToWrite(from, to)) + RemovalEdits(ToRemove(from, to))
  }

  lemma EditAt(from: seq<RRset>, to: seq<RRset>, i: nat)
    requires i < |DiffEdits(from, to)|
    ensures var w := ToWrite(from, to);
            if i < |w| then DiffEdits(from, to)[i] == UpsertEdit(w[i])
            else i - |w| < |ToRemove(from, to)| && DiffEdits(from, to)[i] == RemovalEdit(ToRemove(from, to)[i - |w|])
  {
    assert |UpsertEdits(ToWrite(from, to))| == |ToWrite(from, to)|;
  }

  /** No RRset is changed twice. */
  lemma DiffDistinct(from: seq<RRset>, to: seq<RRset>)
    requires UniqueSets(from) && UniqueSets(to)
    ensures DistinctEdits(DiffEdits(from, to))
  {
    var w, r, edits := ToWrite(from, to), ToRemove(from, to), DiffEdits(from, to);
    WriteUnique(from, to);
    RemoveUnique(from, to);
    forall i, j | 0 <= i < j < |edits| ensures edits[i].key != edits[j].key {
      EditAt(from, to, i);
      EditAt(from, to, j);
      if j < |w| {
        assert SetKey(w[i]) != SetKey(w[j]);
      } else if i >= |w| {
        assert SetKey(r[i - |w|]) != SetKey(r[j - |w|]);
      } else {
        WriteMembers(from, to, w[i]);
        RemoveMembers(from, to, r[j - |w|]);
        assert w[i] in to;
      }
    }
  }

  lemma DiffParses(lib: Library, codec: Codec, zone: string, from: seq<RRset>, to: seq<RRset>, i: nat)
    requires forall s :: s in from + to && s.rtype != TYPE_SOA ==> Reversible(lib, codec, zone, s)
    requires i < |DiffEdits(from, to)|
    ensures |Diff(codec, from, to)| == |DiffEdits(from, to)|
    ensures ParseChange(codec, zone, Diff(codec, from, to)[i]) == Some(DiffEdits(from, to)[i])
    ensures lib.canonical(DiffEdits(from, to)[i].key.name) == DiffEdits(from, to)[i].key.name
  {
    var w, r := ToWrite(from, to), ToRemove(from, to);
    EditAt(from, to, i);
    if i < |w| {
      WriteMembers(from, to, w[i]);
      UpsertParses(lib, codec, zone, w[i]);
    } else {
      RemoveMembers(from, to, r[i - |w|]);
      RemovalParses(lib, codec, zone, r[i - |w|]);
    }
  }

  lemma {:induction false} ApplyParsedEdits(lib: Library, rrs: seq<RR>, parsed: seq<Option<Edit>>, edits: seq<Edit>)
    requires |parsed| == |edits| && forall i :: 0 <= i < |edits| ==> parsed[i] == Some(edits[i])
    ensures ApplyParsed(lib, rrs, parsed) == Some(ApplyEdits(lib, rrs, edits))
  {
    if edits != [] {
      var n := |edits| - 1;
      ApplyParsedEdits(lib, rrs, parsed[..n], edits[..n]);
    }
  }

  /** The group of a key in a zone, from the list of its RRsets. */
  lemma GroupListed(lib: Library, sets: seq<RRset>, rrs: seq<RR>, s: RRset)
    requires Groups(lib, sets, rrs) && s in sets
    ensures GroupOf(lib, rrs, SetKey(s)) == Some(Group(s.ttl, s.records))
    ensures Text.SortStrings(s.records) == s.records
  {
    var i :| 0 <= i < |sets| && sets[i] == s;
    Text.SortSorted(DataOf(Records(lib, rrs, SetKey(s))));
  }

  lemma GroupUnlisted(lib: Library, sets: seq<RRset>, rrs: seq<RR>, key: RRKey)
    requires Groups(lib, sets, rrs) && !Present(sets, key)
    ensures GroupOf(lib, rrs, key).None?
  {
    assert !HasSet(sets, key) by {
      forall i | 0 <= i < |sets| ensures SetKey(sets[i]) != key {
        assert sets[i] in sets;
      }
    }
  }

  /** What the edit for an RRset leaves of it, when the diff names it. */
  lemma NamedGroup(lib: Library, from: seq<RRset>, to: seq<RRset>, source: seq<RR>, target: seq<RR>, i: nat)
    requires Groups(lib, from, source) && Groups(lib, to, target) && i < |DiffEdits(from, to)|
    ensures var e := DiffEdits(from, to)[i];
            e.key.rtype != TYPE_SOA && EditGroup(e) == GroupOf(lib, target, e.key) != GroupOf(lib, source, e.key)
  {
    var w, r := ToWrite(from, to), ToRemove(from, to);
    EditAt(from, to, i);
    if i < |w| {
      WrittenGroup(lib, from, to, source, target, w[i]);
    } else {
      RemovedGroup(lib, from, to, source, target, r[i - |w|]);
    }
  }

  lemma RemovedGroup(lib: Library, from: seq<RRset>, to: seq<RRset>, source: seq<RR>, target: seq<RR>, s: RRset)
    requires Groups(lib, from, source) && Groups(lib, to, target) && s in ToRemove(from, to)
    ensures s.rtype != TYPE_SOA
    ensures EditGroup(RemovalEdit(s)) == GroupOf(lib, target, SetKey(s)) != GroupOf(lib, source, SetKey(s))
  {
    RemoveMembers(from, to, s);
    GroupListed(lib, from, source, s);
    GroupUnlisted(lib, to, target, SetKey(s));
  }

  lemma WrittenGroup(lib: Library, from: seq<RRset>, to: seq<RRset>, source: seq<RR>, target: seq<RR>, s: RRset)
    requires Groups(lib, from, source) && Groups(lib, to, target) && s in ToWrite(from, to)
    ensures s.rtype != TYPE_SOA
    ensures EditGroup(UpsertEdit(s)) == GroupOf(lib, target, SetKey(s)) != GroupOf(lib, source, SetKey(s))
  {
    WriteMembers(from, to, s);
    GroupListed(lib, to, target, s);
    GroupNotEmpty(lib, target, SetKey(s));
    if Present(from, SetKey(s)) {
      var f :| f in from && SetKey(f) == SetKey(s);
      GroupListed(lib, from, source, f);
    } else {
      GroupUnlisted(lib, from, source, SetKey(s));
    }
  }

  lemma GroupNotEmpty(lib: Library, rrs: seq<RR>, key: RRKey)
    requires GroupOf(lib, rrs, key).Some?
    ensures GroupOf(lib, rrs, key).value.records != []
  {
    var data := DataOf(Records(lib, rrs, key));
    Text.SortStringsSorted(data);
    assert |multiset(data)| == |multiset(Text.SortStrings(data))|;
  }

  ghost predicate Named(edits: seq<Edit>, key: RRKey) {
    exists i :: 0 <= i < |edits| && edits[i].key == key
  }

  lemma NamedAt(edits: seq<Edit>, i: nat, key: RRKey)
    requires i < |edits| && edits[i].key == key
    ensures Named(edits, key)
  {
  }

  lemma EditCount(from: seq<RRset>, to: seq<RRset>)
    ensures |DiffEdits(from, to)| == |ToWrite(from, to)| + |ToRemove(from, to)|
  {
  }

  lemma WrittenIsNamed(from: seq<RRset>, to: seq<RRset>, s: RRset)
    requires s in ToWrite(from, to) || s in ToRemove(from, to)
    ensures Named(DiffEdits(from, to), SetKey(s))
  {
    var w, r := ToWrite(from, to), ToRemove(from, to);
    EditCount(from, to);
    var at: nat;
    if s in w {
      at :| at < |w| && w[at] == s;
    } else {
      var i: nat :| i < |r| && r[i] == s;
      at := |w| + i;
    }
    EditAt(from, to, at);
    NamedAt(DiffEdits(from, to), at, SetKey(s));
  }

  /** An RRset that the diff does not name is the same on both sides. */
  lemma UnnamedGroup(lib: Library, from: seq<RRset>, to: seq<RRset>, source: seq<RR>, target: seq<RR>, key: RRKey)
    requires Groups(lib, from, source) && Groups(lib, to, target) && key.rtype != TYPE_SOA
    requires !Named(DiffEdits(from, to), key)
    ensures GroupOf(lib, source, key) == GroupOf(lib, target, key)
  {
    if Present(to, key) {
      var s :| s in to && SetKey(s) == key;
      WriteMembers(from, to, s);
      assert s in from by {
        if s !in from {
          WrittenIsNamed(from, to, s);
        }
      }
      GroupListed(lib, to, target, s);
      GroupListed(lib, from, source, s);
    } else {
      forall s | s in from ensures SetKey(s) != key {
        RemoveMembers(from, to, s);
        if SetKey(s) == key {
          WrittenIsNamed(from, to, s);
        }
      }
      GroupUnlisted(lib, to, target, key);
      GroupUnlisted(lib, from, source, key);
    }
  }

  /** Applying the difference of two versions to the first is accepted, gives every
      RRset of the second except the SOA, and leaves the SOA of the first. */
  lemma DiffThenApply(
    lib: Library, codec: Codec, zone: string, source: seq<RR>, target: seq<RR>, from: seq<RRset>, to: seq<RRset>,
    key: RRKey)
    requires Groups(lib, from, source) && Groups(lib, to, target)
    requires forall s :: s in from + to && s.rtype != TYPE_SOA ==> Reversible(lib, codec, zone, s)
    ensures var r := ApplyAll(lib, codec, zone, source, Diff(codec, from, to));
            && r.Some?
            && (key.rtype != TYPE_SOA ==> GroupOf(lib, r.value, key) == GroupOf(lib, target, key))
            && (key.rtype == TYPE_SOA ==> Records(lib, r.value, key) == Records(lib, source, key))
  {
    var edits := DiffEdits(from, to);
    DiffApplied(lib, codec, zone, source, from, to);
    DiffDistinct(from, to);
    ApplyEditsEffect(lib, source, edits, key);
    if Named(edits, key) {
      var i :| 0 <= i < |edits| && edits[i].key == key;
      NamedGroup(lib, from, to, source, target, i);
    } else if key.rtype != TYPE_SOA {
      UnnamedGroup(lib, from, to, source, target, key);
    }
  }

  /** The difference is empty exactly when the versions agree outside the SOA. */
  lemma DiffEmpty(lib: Library, codec: Codec, source: seq<RR>, target: seq<RR>, from: seq<RRset>, to: seq<RRset>)
    requires Groups(lib, from, source) && Groups(lib, to, target)
    ensures Diff(codec, from, to) == [] <==>
              forall key: RRKey :: key.rtype != TYPE_SOA ==> GroupOf(lib, source, key) == GroupOf(lib, target, key)
  {
    var edits := DiffEdits(from, to);
    assert |Diff(codec, from, to)| == |edits|;
    if edits == [] {
      forall key: RRKey | key.rtype != TYPE_SOA ensures GroupOf(lib, source, key) == GroupOf(lib, target, key) {
        UnnamedGroup(lib, from, to, source, target, key);
      }
    } else {
      NamedGroup(lib, from, to, source, target, 0);
    }
  }

  // ------------------------------------------------------- record by record

  /** All records have one TTL, as section 5.2 of RFC 2181 asks of an RRset. */
  ghost predicate Uniform(rs: seq<RR>) {
    forall i, j :: 0 <= i < j < |rs| ==> rs[i].ttl == rs[j].ttl
  }

  datatype Item = Item(ttl: nat, data: string)

  function Items(rs: seq<RR>): seq<Item> {
    seq(|rs|, i requires 0 <= i < |rs| => Item(rs[i].ttl, rs[i].data))
  }

  lemma {:induction false} ItemCount(rs: seq<RR>, ttl: nat, item: Item)
    requires forall i :: 0 <= i < |rs| ==> rs[i].ttl == ttl
    ensures multiset(Items(rs))[item] == if item.ttl == ttl then multiset(DataOf(rs))[item.data] else 0
  {
    if rs != [] {
      ItemCount(rs[1..], ttl, item);
      assert Items(rs) == [Item(rs[0].ttl, rs[0].data)] + Items(rs[1..]);
      assert DataOf(rs) == [rs[0].data] + DataOf(rs[1..]);
    }
  }

  /** For RRsets with one TTL, looking the same in the API means having the same
      records. */
  lemma SameGroupSameItems(lib: Library, a: seq<RR>, b: seq<RR>, key: RRKey)
    requires Uniform(Records(lib, a, key)) && Uniform(Records(lib, b, key))
    requires GroupOf(lib, a, key) == GroupOf(lib, b, key)
    ensures multiset(Items(Records(lib, a, key))) == multiset(Items(Records(lib, b, key)))
  {
    var ra, rb := Records(lib, a, key), Records(lib, b, key);
    if ra != [] {
      Text.SortStringsSorted(DataOf(ra));
      Text.SortStringsSorted(DataOf(rb));
      SameItems(ra, rb, ra[0].ttl);
    }
  }

  lemma SameItems(a: seq<RR>, b: seq<RR>, ttl: nat)
    requires forall i :: 0 <= i < |a| ==> a[i].ttl == ttl
    requires forall i :: 0 <= i < |b| ==> b[i].ttl == ttl
    requires multiset(DataOf(a)) == multiset(DataOf(b))
    ensures multiset(Items(a)) == multiset(Items(b))
  {
    forall item ensures multiset(Items(a))[item] == multiset(Items(b))[item] {
      ItemCount(a, ttl, item);
      ItemCount(b, ttl, item);
    }
  }

  lemma {:induction false} EditsUniform(lib: Library, rrs: seq<RR>, edits: seq<Edit>, key: RRKey)
    requires Uniform(Records(lib, rrs, key))
    requires forall i :: 0 <= i < |edits| ==> lib.canonical(edits[i].key.name) == edits[i].key.name
    ensures Uniform(Records(lib, ApplyEdits(lib, rrs, edits), key))
  {
    if edits != [] {
      var n := |edits| - 1;
      EditsUniform(lib, rrs, edits[..n], key);
      EditUniform(lib, ApplyEdits(lib, rrs, edits[..n]), edits[n], key);
    }
  }

  lemma EditUniform(lib: Library, rrs: seq<RR>, e: Edit, key: RRKey)
    requires Uniform(Records(lib, rrs, key)) && lib.canonical(e.key.name) == e.key.name
    ensures Uniform(Records(lib, ApplyEdit(lib, rrs, e), key))
  {
    EditedRecords(lib, rrs, e, key);
  }

  lemma DiffApplied(lib: Library, codec: Codec, zone: string, source: seq<RR>, from: seq<RRset>, to: seq<RRset>)
    requires forall s :: s in from + to && s.rtype != TYPE_SOA ==> Reversible(lib, codec, zone, s)
    ensures ApplyAll(lib, codec, zone, source, Diff(codec, from, to)) ==
            Some(ApplyEdits(lib, source, DiffEdits(from, to)))
    ensures forall i :: 0 <= i < |DiffEdits(from, to)| ==>
              lib.canonical(DiffEdits(from, to)[i].key.name) == DiffEdits(from, to)[i].key.name
  {
    var edits := DiffEdits(from, to);
    var parsed := ParseChanges(codec, zone, Diff(codec, from, to));
    forall i | 0 <= i < |edits|
      ensures parsed[i] == Some(edits[i])
      ensures lib.canonical(edits[i].key.name) == edits[i].key.name
    {
      DiffParses(lib, codec, zone, from, to, i);
    }
    ApplyParsedEdits(lib, source, parsed, edits);
  }

  /** Record by record: if the RRset has one TTL in both versions, the first version with
      the difference applied has just the records of the second, TTLs included. */
  lemma DiffThenApplyRecords(
    lib: Library, codec: Codec, zone: string, source: seq<RR>, target: seq<RR>, from: seq<RRset>, to: seq<RRset>,
    key: RRKey)
    requires Groups(lib, from, source) && Groups(lib, to, target) && key.rtype != TYPE_SOA
    requires forall s :: s in from + to && s.rtype != TYPE_SOA ==> Reversible(lib, codec, zone, s)
    requires Uniform(Records(lib, source, key)) && Uniform(Records(lib, target, key))
    ensures var r := ApplyAll(lib, codec, zone, source, Diff(codec, from, to));
            && r.Some?
            && multiset(Items(Records(lib, r.value, key))) == multiset(Items(Records(lib, target, key)))
  {
    DiffThenApply(lib, codec, zone, source, target, from, to, key);
    DiffApplied(lib, codec, zone, source, from, to);
    EditsUniform(lib, source, DiffEdits(from, to), key);
    SameGroupSameItems(lib, ApplyEdits(lib, source, DiffEdits(from, to)), target, key);
  }
}
