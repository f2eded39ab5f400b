/** The validation loop, against the order-free notion of a valid zone. */
module ZoneValidation {
  import opened Bags
  import opened ZoneRecords

  function CountSoa(rrs: seq<RR>): nat {
    if rrs == [] then 0 else CountSoa(rrs[..|rrs| - 1]) + if IsSoa(rrs[|rrs| - 1]) then 1 else 0
  }

  /** Validity in terms of positions. */
  ghost predicate ValidList(lib: Library, zone: string, rrs: seq<RR>) {
    && (forall i :: 0 <= i < |rrs| ==> Fits(lib, zone, rrs[i]))
    && Distinct(rrs)
    && CountSoa(rrs) == 1
    && (exists i :: 0 <= i < |rrs| && ApexNs(lib, zone, rrs[i]))
    && CnamesAlone(lib, rrs)
  }

  ghost predicate Distinct(rrs: seq<RR>) {
    forall i, j {:trigger Show(rrs[i]), Show(rrs[j])} :: 0 <= i < j < |rrs| ==> Show(rrs[i]) != Show(rrs[j])
  }

  ghost predicate CnamesAlone(lib: Library, rrs: seq<RR>) {
    forall i, j ::
      (0 <= i < |rrs| && 0 <= j < |rrs| && rrs[i].rtype == TYPE_CNAME
          && lib.canonical(rrs[i].name) == lib.canonical(rrs[j].name))
      ==> AllowedBesideCname(rrs[j].rtype)
  }

  lemma {:induction false} CountSoaMeaning(rrs: seq<RR>)
    ensures CountSoa(rrs) == 0 <==> forall i :: 0 <= i < |rrs| ==> !IsSoa(rrs[i])
    ensures CountSoa(rrs) <= 1 <==> forall i, j :: 0 <= i < j < |rrs| ==> !(IsSoa(rrs[i]) && IsSoa(rrs[j]))
  {
    if rrs != [] {
      var n := |rrs| - 1;
      CountSoaMeaning(rrs[..n]);
      assert forall i :: 0 <= i < n ==> rrs[..n][i] == rrs[i];
    }
  }

  lemma {:induction false} DistinctOnce(rrs: seq<RR>, x: RR)
    requires Distinct(rrs)
    ensures multiset(rrs)[x] <= 1
  {
    if rrs != [] {
      var n := |rrs| - 1;
      DistinctOnce(rrs[..n], x);
      assert rrs == rrs[..n] + [rrs[n]];
      forall i | 0 <= i < n ensures rrs[i] != rrs[n] {
        assert Show(rrs[i]) != Show(rrs[n]);
      }
    }
  }

  lemma ListImpliesBag(lib: Library, zone: string, rrs: seq<RR>)
    requires ValidList(lib, zone, rrs)
    ensures ValidZone(lib, zone, multiset(rrs))
  {
    var bag := multiset(rrs);
    CountSoaMeaning(rrs);
    forall rr | rr in bag ensures Fits(lib, zone, rr) && bag[rr] == 1 {
      var i :| 0 <= i < |rrs| && rrs[i] == rr;
      DistinctOnce(rrs, rr);
    }
    forall a, b | a in bag && b in bag
      ensures Alike(a, b) ==> a == b
      ensures IsSoa(a) && IsSoa(b) ==> a == b
    {
      PairAt(rrs, a, b);
    }
    CnamesInBag(lib, rrs);
    var s :| 0 <= s < |rrs| && IsSoa(rrs[s]);
    var n :| 0 <= n < |rrs| && ApexNs(lib, zone, rrs[n]);
    assert rrs[s] in bag && rrs[n] in bag;
  }

  lemma ShowTells(a: RR, b: RR)
    ensures Show(a) == Show(b) <==> Alike(a, b)
  {
  }

  lemma PairAt(rrs: seq<RR>, a: RR, b: RR)
    requires Distinct(rrs) && CountSoa(rrs) == 1 && a in rrs && b in rrs
    ensures Alike(a, b) ==> a == b
    ensures IsSoa(a) && IsSoa(b) ==> a == b
  {
    CountSoaMeaning(rrs);
    var i :| 0 <= i < |rrs| && rrs[i] == a;
    var j :| 0 <= j < |rrs| && rrs[j] == b;
    ShowTells(a, b);
    assert i < j ==> Show(rrs[i]) != Show(rrs[j]);
    assert j < i ==> Show(rrs[j]) != Show(rrs[i]);
  }

  lemma CnamesInBag(lib: Library, rrs: seq<RR>)
    requires CnamesAlone(lib, rrs)
    ensures forall a, b ::
              a in multiset(rrs) && b in multiset(rrs) && lib.canonical(a.name) == lib.canonical(b.name)
              && a.rtype == TYPE_CNAME
              ==> AllowedBesideCname(b.rtype)
  {
    forall a, b | a in multiset(rrs) && b in multiset(rrs) && lib.canonical(a.name) == lib.canonical(b.name)
                  && a.rtype == TYPE_CNAME
      ensures AllowedBesideCname(b.rtype)
    {
      var i :| 0 <= i < |rrs| && rrs[i] == a;
      var j :| 0 <= j < |rrs| && rrs[j] == b;
    }
  }

  lemma BagImpliesList(lib: Library, zone: string, rrs: seq<RR>)
    requires ValidZone(lib, zone, multiset(rrs))
    ensures ValidList(lib, zone, rrs)
  {
    var bag := multiset(rrs);
    assert forall i :: 0 <= i < |rrs| ==> rrs[i] in bag;
    forall i, j | 0 <= i < j < |rrs|
      ensures Show(rrs[i]) != Show(rrs[j])
      ensures !(IsSoa(rrs[i]) && IsSoa(rrs[j]))
    {
      ShowTells(rrs[i], rrs[j]);
      if rrs[i] == rrs[j] {
        OccursTwice(rrs, i, j);
      }
    }
    CountSoaMeaning(rrs);
    var soa :| soa in bag && IsSoa(soa);
    var ns :| ns in bag && ApexNs(lib, zone, ns);
    assert soa in rrs && ns in rrs;
  }

  /** `validate` accepts exactly the valid zones. */
  method Validate(lib: Library, zone: string, rrs: seq<RR>) returns (ok: bool)
    ensures ok <==> ValidZone(lib, zone, multiset(rrs))
  {
    ok := ValidateList(lib, zone, rrs);
    if ok {
      ListImpliesBag(lib, zone, rrs);
    } else {
      if ValidZone(lib, zone, multiset(rrs)) {
        BagImpliesList(lib, zone, rrs);
      }
    }
  }

  /** What the loop gathers from the records. */
  datatype Scan = Scan(seen: set<Shown>, soaCount: nat, apexNs: nat, types: map<string, set<nat>>)

  function TypesAt(types: map<string, set<nat>>, name: string): set<nat> {
    if name in types then types[name] else {}
  }

  function Next(lib: Library, zone: string, s: Scan, rr: RR): Scan {
    var name := lib.canonical(rr.name);
    Scan(s.seen + {Show(rr)},
         if IsSoa(rr) then s.soaCount + 1 else s.soaCount,
         if rr.rtype == TYPE_NS && name == zone then s.apexNs + 1 else s.apexNs,
         s.types[name := TypesAt(s.types, name) + {rr.rtype}])
  }

  function ScanAll(lib: Library, zone: string, rrs: seq<RR>): Scan {
    if rrs == [] then Scan({}, 0, 0, map[])
    else Next(lib, zone, ScanAll(lib, zone, rrs[..|rrs| - 1]), rrs[|rrs| - 1])
  }

  lemma {:induction false} ScanSeen(lib: Library, zone: string, rrs: seq<RR>, x: Shown)
    ensures x in ScanAll(lib, zone, rrs).seen <==> exists j :: 0 <= j < |rrs| && Show(rrs[j]) == x
  {
    if rrs != [] {
      var n := |rrs| - 1;
      ScanSeen(lib, zone, rrs[..n], x);
      assert forall j :: 0 <= j < n ==> rrs[..n][j] == rrs[j];
      assert x == Show(rrs[n]) ==> exists j :: 0 <= j < |rrs| && Show(rrs[j]) == x;
    }
  }

  lemma {:induction false} ScanCounts(lib: Library, zone: string, rrs: seq<RR>)
    ensures ScanAll(lib, zone, rrs).soaCount == CountSoa(rrs)
    ensures ScanAll(lib, zone, rrs).apexNs > 0 <==> exists j :: 0 <= j < |rrs| && ApexNs(lib, zone, rrs[j])
  {
    if rrs != [] {
      var n := |rrs| - 1;
      ScanCounts(lib, zone, rrs[..n]);
      assert forall j :: 0 <= j < n ==> rrs[..n][j] == rrs[j];
      assert ApexNs(lib, zone, rrs[n]) ==> exists j :: 0 <= j < |rrs| && ApexNs(lib, zone, rrs[j]);
    }
  }

  ghost predicate Carries(lib: Library, rr: RR, name: string, t: nat) {
    lib.canonical(rr.name) == name && rr.rtype == t
  }

  lemma {:induction false} ScanTypes(lib: Library, zone: string, rrs: seq<RR>, name: string, t: nat)
    ensures t in TypesAt(ScanAll(lib, zone, rrs).types, name) <==>
            exists j :: 0 <= j < |rrs| && Carries(lib, rrs[j], name, t)
  {
    if rrs != [] {
      var n := |rrs| - 1;
      ScanTypes(lib, zone, rrs[..n], name, t);
      assert forall j :: 0 <= j < n ==> rrs[..n][j] == rrs[j];
      assert Carries(lib, rrs[n], name, t) ==> exists j :: 0 <= j < |rrs| && Carries(lib, rrs[j], name, t);
    }
  }

  /** A CNAME shares its name with another type, in terms of the gathered types. */
  predicate Clash(types: map<string, set<nat>>, name: string) {
    TYPE_CNAME in TypesAt(types, name) && exists t :: t in TypesAt(types, name) && !AllowedBesideCname(t)
  }

  lemma CnamesByName(lib: Library, zone: string, rrs: seq<RR>)
    ensures CnamesAlone(lib, rrs) <==> forall name :: !Clash(ScanAll(lib, zone, rrs).types, name)
  {
    var types := ScanAll(lib, zone, rrs).types;
    if CnamesAlone(lib, rrs) {
      forall name, t | TYPE_CNAME in TypesAt(types, name) && t in TypesAt(types, name) ensures AllowedBesideCname(t) {
        ScanTypes(lib, zone, rrs, name, TYPE_CNAME);
        ScanTypes(lib, zone, rrs, name, t);
        var i :| 0 <= i < |rrs| && Carries(lib, rrs[i], name, TYPE_CNAME);
        var j :| 0 <= j < |rrs| && Carries(lib, rrs[j], name, t);
      }
    } else {
      var i, j :| 0 <= i < |rrs| && 0 <= j < |rrs| && rrs[i].rtype == TYPE_CNAME &&
                  lib.canonical(rrs[i].name) == lib.canonical(rrs[j].name) && !AllowedBesideCname(rrs[j].rtype);
      var name := lib.canonical(rrs[i].name);
      ScanTypes(lib, zone, rrs, name, TYPE_CNAME);
      ScanTypes(lib, zone, rrs, name, rrs[j].rtype);
      assert Carries(lib, rrs[i], name, TYPE_CNAME) && Carries(lib, rrs[j], name, rrs[j].rtype);
      assert Clash(types, name);
    }
  }

  lemma DistinctStep(rrs: seq<RR>, i: nat)
    requires i < |rrs| && Distinct(rrs[..i]) && forall j :: 0 <= j < i ==> Show(rrs[j]) != Show(rrs[i])
    ensures Distinct(rrs[..i + 1])
  {
    var p := rrs[..i + 1];
    forall a, b | 0 <= a < b < |p| ensures Show(p[a]) != Show(p[b]) {
      assert p[a] == rrs[..i][a];
      assert b < i ==> p[b] == rrs[..i][b];
    }
  }

  method ValidateList(lib: Library, zone: string, rrs: seq<RR>) returns (ok: bool)
    ensures ok <==> ValidList(lib, zone, rrs)
  {
    var s := Scan({}, 0, 0, map[]);
    for i := 0 to |rrs|
      invariant s == ScanAll(lib, zone, rrs[..i])
      invariant forall j :: 0 <= j < i ==> Fits(lib, zone, rrs[j])
      invariant Distinct(rrs[..i])
    {
      var rr := rrs[i];
      var name := lib.canonical(rr.name);
      ScanSeen(lib, zone, rrs[..i], Show(rr));
      if rr.class_ != CLASS_IN || !lib.isSubDomain(zone, name) || (IsSoa(rr) && name != zone) {
        return false;
      }
      if Show(rr) in s.seen {
        return false;
      }
      DistinctStep(rrs, i);
      assert rrs[..i + 1][..i] == rrs[..i];
      s := Next(lib, zone, s, rr);
    }
    assert rrs[..|rrs|] == rrs;
    ScanCounts(lib, zone, rrs);
    if s.soaCount != 1 || s.apexNs == 0 {
      return false;
    }
    CnamesByName(lib, zone, rrs);
    ok := CheckCnames(s.types);
  }

  method CheckCnames(types: map<string, set<nat>>) returns (ok: bool)
    ensures ok <==> forall name :: !Clash(types, name)
  {
    var names := types.Keys;
    while names != {}
      invariant names <= types.Keys
      invariant forall n :: n in types && n !in names ==> !Clash(types, n)
      decreases |names|
    {
      var name :| name in names;
      names := names - {name};
      if Clash(types, name) {
        return false;
      }
    }
    ok := true;
  }
}
