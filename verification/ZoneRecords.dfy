/** Zone contents: records, validation, rendering and SOA serials. */
module ZoneRecords {
  import opened Options
  import Text

  const TYPE_NS: nat := 2
  const TYPE_CNAME: nat := 5
  const TYPE_SOA: nat := 6
  const TYPE_RRSIG: nat := 46
  const TYPE_NSEC: nat := 47
  const TYPE_NSEC3: nat := 50
  const CLASS_IN: nat := 1
  const MAX_SERIAL: nat := 0xFFFF_FFFF

  /** A resource record. `serial` is the serial of an SOA and 0 otherwise. */
  datatype RR = RR(name: string, class_: nat, rtype: nat, ttl: nat, serial: nat, data: string)

  /** The text of a zone file: the records it lists under an origin, in order, or
      text that does not parse. Printing and parsing a record round-trip. */
  datatype Content = Content(origin: string, rrs: seq<RR>) | Unparsable(raw: string)

  /** The library functions the store relies on: name canonicalization, the subdomain
      relation, the printed line of a record, and the revision (a hash) of a content. */
  datatype Library = Library(
    canonical: string -> string,
    isSubDomain: (string, string) -> bool,
    print_: RR -> string,
    revision: Content -> string)

  /** Revisions are collision-free. */
  ghost predicate CollisionFree(lib: Library) {
    forall a: Content, b: Content :: lib.revision(a) == lib.revision(b) ==> a == b
  }

  predicate IsSoa(rr: RR) {
    rr.rtype == TYPE_SOA
  }

  // --------------------------------------------------------------- validation

  /** The printed form of a record in lower case, by which duplicates are found. */
  datatype Shown = Shown(name: string, class_: nat, rtype: nat, ttl: nat, serial: nat, data: string)

  function Show(rr: RR): Shown {
    Shown(Text.ToLower(rr.name), rr.class_, rr.rtype, rr.ttl, if IsSoa(rr) then rr.serial else 0, Text.ToLower(rr.data))
  }

  /** Records that are printed alike up to case: the same but for the case of names and
      data. */
  ghost predicate Alike(a: RR, b: RR) {
    && Text.ToLower(a.name) == Text.ToLower(b.name) && Text.ToLower(a.data) == Text.ToLower(b.data)
    && a.class_ == b.class_ && a.rtype == b.rtype && a.ttl == b.ttl && (a.rtype == TYPE_SOA ==> a.serial == b.serial)
  }

  predicate AllowedBesideCname(rtype: nat) {
    rtype == TYPE_CNAME || rtype == TYPE_RRSIG || rtype == TYPE_NSEC || rtype == TYPE_NSEC3
  }

  predicate ApexNs(lib: Library, zone: string, rr: RR) {
    rr.rtype == TYPE_NS && lib.canonical(rr.name) == zone
  }

  /** A record that may stand in a zone on its own. */
  predicate Fits(lib: Library, zone: string, rr: RR) {
    && rr.class_ == CLASS_IN
    && lib.isSubDomain(zone, lib.canonical(rr.name))
    && (IsSoa(rr) ==> lib.canonical(rr.name) == zone)
  }

  /** A valid zone, as a bag of records: the order in the file does not matter. */
  ghost predicate ValidZone(lib: Library, zone: string, bag: multiset<RR>) {
    && (forall rr :: rr in bag ==> Fits(lib, zone, rr))
    && (forall rr :: rr in bag ==> bag[rr] == 1)
    && (forall a, b :: a in bag && b in bag && Alike(a, b) ==> a == b)
    && (exists rr :: rr in bag && IsSoa(rr))
    && (forall a, b :: a in bag && b in bag && IsSoa(a) && IsSoa(b) ==> a == b)
    && (exists rr :: rr in bag && ApexNs(lib, zone, rr))
    && (forall a, b ::
          a in bag && b in bag && lib.canonical(a.name) == lib.canonical(b.name) && a.rtype == TYPE_CNAME ==>
          AllowedBesideCname(b.rtype))
  }

  // ------------------------------------------------------------------- serials

  function SoaIndex(rrs: seq<RR>): Option<nat> {
    if rrs == [] then None
    else if IsSoa(rrs[0]) then Some(0)
    else
      match SoaIndex(rrs[1..])
      case None => None
      case Some(i) => Some(i + 1)
  }

  lemma {:induction false} SoaIndexFirst(rrs: seq<RR>)
    ensures match SoaIndex(rrs)
            case None => forall i :: 0 <= i < |rrs| ==> !IsSoa(rrs[i])
            case Some(i) => i < |rrs| && IsSoa(rrs[i]) && forall j :: 0 <= j < i ==> !IsSoa(rrs[j])
  {
    if rrs != [] && !IsSoa(rrs[0]) {
      SoaIndexFirst(rrs[1..]);
    }
  }

  /** The serial of the first SOA; 0 if there is none. */
  function SerialOf(rrs: seq<RR>): nat {
    if rrs == [] then 0 else if IsSoa(rrs[0]) then rrs[0].serial else SerialOf(rrs[1..])
  }

  /** `setSOASerial`: the first SOA gets the serial. */
  function WithSerial(rrs: seq<RR>, serial: nat): seq<RR> {
    if rrs == [] then []
    else if IsSoa(rrs[0]) then [rrs[0].(serial := serial)] + rrs[1..]
    else [rrs[0]] + WithSerial(rrs[1..], serial)
  }

  method SetSoaSerial(rrs: array<RR>, serial: nat)
    modifies rrs
    ensures rrs[..] == WithSerial(old(rrs[..]), serial)
  {
    var i := 0;
    while i < rrs.Length
      invariant 0 <= i <= rrs.Length
      invariant rrs[..] == old(rrs[..])
      invariant forall j :: 0 <= j < i ==> !IsSoa(rrs[j])
    {
      if IsSoa(rrs[i]) {
        WithSerialAt(rrs[..], i, serial);
        rrs[i] := rrs[i].(serial := serial);
        return;
      }
      i := i + 1;
    }
    WithSerialNone(rrs[..], serial);
  }

  lemma {:induction false} WithSerialAt(rrs: seq<RR>, i: nat, serial: nat)
    requires i < |rrs| && IsSoa(rrs[i]) && forall j :: 0 <= j < i ==> !IsSoa(rrs[j])
    ensures WithSerial(rrs, serial) == rrs[i := rrs[i].(serial := serial)]
    ensures SerialOf(rrs) == rrs[i].serial && SerialOf(WithSerial(rrs, serial)) == serial
  {
    if i > 0 {
      WithSerialAt(rrs[1..], i - 1, serial);
      assert ([rrs[0]] + WithSerial(rrs[1..], serial))[1..] == WithSerial(rrs[1..], serial);
    }
  }

  lemma {:induction false} WithSerialNone(rrs: seq<RR>, serial: nat)
    requires forall j :: 0 <= j < |rrs| ==> !IsSoa(rrs[j])
    ensures WithSerial(rrs, serial) == rrs
  {
    if rrs != [] {
      WithSerialNone(rrs[1..], serial);
    }
  }

  /** A valid zone stays valid under a new serial, and only its SOA changes. */
  lemma SerialKeepsValid(lib: Library, zone: string, rrs: seq<RR>, serial: nat)
    requires ValidZone(lib, zone, multiset(rrs))
    ensures ValidZone(lib, zone, multiset(WithSerial(rrs, serial)))
    ensures SerialOf(WithSerial(rrs, serial)) == serial
  {
    var i := ValidHasSoa(lib, zone, rrs);
    WithSerialAt(rrs, i, serial);
    BumpKeepsValid(lib, zone, multiset(rrs), rrs[i], rrs[i].(serial := serial));
    ReplaceOne(rrs, i, rrs[i].(serial := serial));
  }

  lemma ValidHasSoa(lib: Library, zone: string, rrs: seq<RR>) returns (i: nat)
    requires ValidZone(lib, zone, multiset(rrs))
    ensures i < |rrs| && IsSoa(rrs[i]) && rrs[i] in multiset(rrs)
    ensures forall j :: 0 <= j < i ==> !IsSoa(rrs[j])
  {
    SoaIndexFirst(rrs);
    var soa :| soa in multiset(rrs) && IsSoa(soa);
    assert soa in rrs;
    i := SoaIndex(rrs).value;
  }

  lemma ReplaceOne(rrs: seq<RR>, i: nat, rr: RR)
    requires i < |rrs|
    ensures multiset(rrs[i := rr]) == multiset(rrs) - multiset{rrs[i]} + multiset{rr}
  {
  }

  lemma BumpKeepsValid(lib: Library, zone: string, bag: multiset<RR>, soa: RR, bumped: RR)
    requires ValidZone(lib, zone, bag) && soa in bag && IsSoa(soa) && bumped == soa.(serial := bumped.serial)
    ensures ValidZone(lib, zone, bag - multiset{soa} + multiset{bumped})
  {
    var after := bag - multiset{soa} + multiset{bumped};
    BumpedBag(bag, soa, bumped);
    assert Fits(lib, zone, soa) && Fits(lib, zone, bumped);
    var ns :| ns in bag && ApexNs(lib, zone, ns);
    assert ns in after && bumped in after;
  }

  /** The bumped SOA takes the place of the only SOA. */
  lemma BumpedBag(bag: multiset<RR>, soa: RR, bumped: RR)
    requires soa in bag && IsSoa(soa) && IsSoa(bumped) && forall rr :: rr in bag ==> bag[rr] == 1
    requires forall a :: a in bag && IsSoa(a) ==> a == soa
    ensures var after := bag - multiset{soa} + multiset{bumped};
            && (forall rr :: rr in after <==> rr == bumped || (rr in bag && !IsSoa(rr)))
            && (forall rr :: rr in after ==> after[rr] == 1)
  {
  }

  // ---------------------------------------------------- rendering and loading

  /** Five decimal digits, enough for the 16 bits of a record type. */
  function FiveDigits(n: nat): string {
    Shown5(DigitsOf(n))
  }

  function DigitsOf(n: nat): seq<nat> {
    var tens := n / 10;
    var hundreds := tens / 10;
    var thousands := hundreds / 10;
    [thousands / 10 % 10, thousands % 10, hundreds % 10, tens % 10, n % 10]
  }

  function Shown5(digits: seq<nat>): string {
    seq(|digits|, i requires 0 <= i < |digits| => Digit(digits[i]))
  }

  function Digit(d: nat): char {
    ('0' as int + d % 10) as char
  }

  function Priority(lib: Library, zone: string, rr: RR): string {
    if IsSoa(rr) then "0" else if ApexNs(lib, zone, rr) then "1" else "2"
  }

  /** `rrSortKey` */
  function SortKey(lib: Library, zone: string, rr: RR): string {
    Priority(lib, zone, rr) + lib.canonical(rr.name) + FiveDigits(rr.rtype) + lib.print_(rr)
  }

  function InsertSorted(lib: Library, zone: string, sorted: seq<RR>, rr: RR): (r: seq<RR>)
    ensures multiset(r) == multiset(sorted) + multiset{rr}
  {
    if sorted == [] then [rr]
    else if Text.Less(SortKey(lib, zone, sorted[0]), SortKey(lib, zone, rr)) then
      assert sorted == [sorted[0]] + sorted[1..];
      [sorted[0]] + InsertSorted(lib, zone, sorted[1..], rr)
    else [rr] + sorted
  }

  /** The records in file order. */
  function SortRRs(lib: Library, zone: string, rrs: seq<RR>): (r: seq<RR>)
    ensures multiset(r) == multiset(rrs)
  {
    if rrs == [] then []
    else
      assert rrs == [rrs[0]] + rrs[1..];
      InsertSorted(lib, zone, SortRRs(lib, zone, rrs[1..]), rrs[0])
  }

  ghost predicate InPlace(lib: Library, zone: string, a: RR, b: RR) {
    !Text.Less(SortKey(lib, zone, b), SortKey(lib, zone, a))
  }

  /** Ascending by sort key. */
  ghost predicate InOrder(lib: Library, zone: string, rrs: seq<RR>) {
    forall i, j :: 0 <= i < j < |rrs| ==> InPlace(lib, zone, rrs[i], rrs[j])
  }

  lemma InPlaceTransitive(lib: Library, zone: string, a: RR, b: RR, c: RR)
    requires InPlace(lib, zone, a, b) && InPlace(lib, zone, b, c)
    ensures InPlace(lib, zone, a, c)
  {
    Text.NotLessTransitive(SortKey(lib, zone, c), SortKey(lib, zone, b), SortKey(lib, zone, a));
  }

  lemma InPlaceTotal(lib: Library, zone: string, a: RR, b: RR)
    ensures Text.Less(SortKey(lib, zone, a), SortKey(lib, zone, b)) ==> InPlace(lib, zone, a, b)
    ensures InPlace(lib, zone, a, b) || InPlace(lib, zone, b, a)
    ensures InPlace(lib, zone, a, b) && InPlace(lib, zone, b, a) ==> SortKey(lib, zone, a) == SortKey(lib, zone, b)
  {
    Text.LessTotal(SortKey(lib, zone, a), SortKey(lib, zone, b));
  }

  lemma OrderedCons(lib: Library, zone: string, head: RR, tail: seq<RR>)
    requires InOrder(lib, zone, tail) && forall rr :: rr in tail ==> InPlace(lib, zone, head, rr)
    ensures InOrder(lib, zone, [head] + tail)
  {
    var all := [head] + tail;
    forall i, j | 0 <= i < j < |all| ensures InPlace(lib, zone, all[i], all[j]) {
      assert all[j] == tail[j - 1];
      if i == 0 {
        assert tail[j - 1] in tail;
      } else {
        assert all[i] == tail[i - 1];
      }
    }
  }

  lemma {:induction false} InsertInOrder(lib: Library, zone: string, sorted: seq<RR>, rr: RR)
    requires InOrder(lib, zone, sorted)
    ensures InOrder(lib, zone, InsertSorted(lib, zone, sorted, rr))
  {
    if sorted == [] {
      return;
    }
    InPlaceTotal(lib, zone, sorted[0], rr);
    if Text.Less(SortKey(lib, zone, sorted[0]), SortKey(lib, zone, rr)) {
      InsertInOrder(lib, zone, sorted[1..], rr);
      var tail := InsertSorted(lib, zone, sorted[1..], rr);
      forall x | x in tail ensures InPlace(lib, zone, sorted[0], x) {
        assert x in multiset(tail);
      }
      OrderedCons(lib, zone, sorted[0], tail);
    } else {
      forall x | x in sorted ensures InPlace(lib, zone, rr, x) {
        var j :| 0 <= j < |sorted| && sorted[j] == x;
        if j > 0 {
          assert InPlace(lib, zone, sorted[0], sorted[j]);
          InPlaceTransitive(lib, zone, rr, sorted[0], sorted[j]);
        }
      }
      OrderedCons(lib, zone, rr, sorted);
    }
  }

  /** The records of a rendered content are those given, ascending by sort key. */
  lemma {:induction false} SortedInOrder(lib: Library, zone: string, rrs: seq<RR>)
    ensures InOrder(lib, zone, SortRRs(lib, zone, rrs)) && multiset(SortRRs(lib, zone, rrs)) == multiset(rrs)
  {
    if rrs != [] {
      SortedInOrder(lib, zone, rrs[1..]);
      InsertInOrder(lib, zone, SortRRs(lib, zone, rrs[1..]), rrs[0]);
    }
  }

  /** No two different records of the bag have the same sort key. */
  ghost predicate KeysTellApart(lib: Library, zone: string, bag: multiset<RR>) {
    forall a, b :: a in bag && b in bag && SortKey(lib, zone, a) == SortKey(lib, zone, b) ==> a == b
  }

  /** An ascending list is determined by its records. */
  lemma {:induction false} OrderUnique(lib: Library, zone: string, a: seq<RR>, b: seq<RR>)
    requires InOrder(lib, zone, a) && InOrder(lib, zone, b) && multiset(a) == multiset(b)
    requires KeysTellApart(lib, zone, multiset(a))
    ensures a == b
  {
    assert |a| == |multiset(a)| == |multiset(b)| == |b|;
    if a != [] {
      SameFirst(lib, zone, a, b);
      Rest(a);
      Rest(b);
      OrderUnique(lib, zone, a[1..], b[1..]);
    }
  }

  lemma Rest(a: seq<RR>)
    requires a != []
    ensures a == [a[0]] + a[1..] && multiset(a[1..]) == multiset(a) - multiset{a[0]}
  {
    assert a == [a[0]] + a[1..];
  }

  lemma SameFirst(lib: Library, zone: string, a: seq<RR>, b: seq<RR>)
    requires InOrder(lib, zone, a) && InOrder(lib, zone, b) && multiset(a) == multiset(b) && a != [] && b != []
    requires KeysTellApart(lib, zone, multiset(a))
    ensures a[0] == b[0]
  {
    assert a[0] in multiset(b) && b[0] in multiset(a) && a[0] in multiset(a);
    var i :| 0 <= i < |b| && b[i] == a[0];
    var j :| 0 <= j < |a| && a[j] == b[0];
    InPlaceTotal(lib, zone, a[0], b[0]);
    assert i > 0 ==> InPlace(lib, zone, b[0], b[i]);
    assert j > 0 ==> InPlace(lib, zone, a[0], a[j]);
  }

  function Render(lib: Library, zone: string, rrs: seq<RR>): Content {
    Content(zone, SortRRs(lib, zone, rrs))
  }

  /** The same records give the same content, in whatever order they were. */
  lemma RenderUnique(lib: Library, zone: string, a: seq<RR>, b: seq<RR>)
    requires multiset(a) == multiset(b) && KeysTellApart(lib, zone, multiset(a))
    ensures Render(lib, zone, a) == Render(lib, zone, b)
  {
    SortedInOrder(lib, zone, a);
    SortedInOrder(lib, zone, b);
    OrderUnique(lib, zone, SortRRs(lib, zone, a), SortRRs(lib, zone, b));
  }

  /** The place of a record in a file: the SOA, then the name servers of the zone, then
      the rest. */
  function Rank(lib: Library, zone: string, rr: RR): nat {
    if rr.rtype == TYPE_SOA then 0
    else if rr.rtype == TYPE_NS && lib.canonical(rr.name) == zone then 1
    else 2
  }

  /** The order of a file, by fields: ranks ascend; within a rank the records of one
      owner ascend by type (a 16-bit number), and those of one owner and type by their
      printed lines. */
  ghost predicate FileOrder(lib: Library, zone: string, rrs: seq<RR>) {
    forall i, j :: 0 <= i < j < |rrs| ==> NotAfter(lib, zone, rrs[i], rrs[j])
  }

  ghost predicate NotAfter(lib: Library, zone: string, a: RR, b: RR) {
    && Rank(lib, zone, a) <= Rank(lib, zone, b)
    && (Rank(lib, zone, a) == Rank(lib, zone, b) && lib.canonical(a.name) == lib.canonical(b.name) ==>
          && (b.rtype < a.rtype ==> a.rtype >= 0x1_0000)
          && (a.rtype == b.rtype ==> !Text.Less(lib.print_(b), lib.print_(a))))
  }

  ghost predicate FiveDecimals(d: seq<nat>) {
    |d| == 5 && forall i :: 0 <= i < 5 ==> d[i] < 10
  }

  ghost function Decimal(d: seq<nat>): nat
    requires |d| == 5
  {
    d[0] * 10000 + d[1] * 1000 + d[2] * 100 + d[3] * 10 + d[4]
  }

  lemma DigitsValue(n: nat)
    requires n < 100000
    ensures FiveDecimals(DigitsOf(n)) && Decimal(DigitsOf(n)) == n
  {
    var tens := n / 10;
    var hundreds := tens / 10;
    var thousands := hundreds / 10;
    assert n == 10 * tens + n % 10 && tens == 10 * hundreds + tens % 10;
    assert hundreds == 10 * thousands + hundreds % 10 && thousands == 10 * (thousands / 10) + thousands % 10;
    assert thousands / 10 < 10;
    assert thousands / 10 % 10 == thousands / 10;
  }

  lemma DigitLess(a: nat, b: nat)
    requires a < b < 10
    ensures Digit(a) < Digit(b)
  {
  }

  lemma ShownAt(a: seq<nat>, b: seq<nat>, i: nat)
    requires FiveDecimals(a) && FiveDecimals(b) && i < 5 && a[..i] == b[..i] && a[i] < b[i]
    ensures Text.Less(Shown5(a), Shown5(b))
  {
    var x, y := Shown5(a), Shown5(b);
    forall k | 0 <= k < i ensures x[k] == y[k] {
      assert a[..i][k] == b[..i][k];
    }
    assert x[..i] == y[..i];
    DigitLess(a[i], b[i]);
    Text.LessAt(x, y, i);
  }

  /** Five-digit numbers compare as their digits do. */
  lemma ShownLess(a: seq<nat>, b: seq<nat>)
    requires FiveDecimals(a) && FiveDecimals(b) && Decimal(a) < Decimal(b)
    ensures Text.Less(Shown5(a), Shown5(b))
  {
    if a[0] != b[0] {
      ShownAt(a, b, 0);
    } else if a[1] != b[1] {
      ShownAt(a, b, 1);
    } else if a[2] != b[2] {
      ShownAt(a, b, 2);
    } else if a[3] != b[3] {
      ShownAt(a, b, 3);
    } else {
      ShownAt(a, b, 4);
    }
  }

  lemma DigitsLess(a: nat, b: nat)
    requires a < b < 100000
    ensures Text.Less(FiveDigits(a), FiveDigits(b))
  {
    DigitsValue(a);
    DigitsValue(b);
    ShownLess(DigitsOf(a), DigitsOf(b));
  }

  /** What ascending sort keys mean for two records. */
  lemma KeyOrder(lib: Library, zone: string, a: RR, b: RR)
    requires !Text.Less(SortKey(lib, zone, b), SortKey(lib, zone, a))
    ensures NotAfter(lib, zone, a, b)
  {
    var x, y := SortKey(lib, zone, a), SortKey(lib, zone, b);
    assert x[0] == Priority(lib, zone, a)[0] && y[0] == Priority(lib, zone, b)[0];
    if Rank(lib, zone, b) < Rank(lib, zone, a) {
      Text.LessAt(y, x, 0);
    } else if Rank(lib, zone, a) == Rank(lib, zone, b) && lib.canonical(a.name) == lib.canonical(b.name) {
      var head := Priority(lib, zone, a) + lib.canonical(a.name);
      assert x == head + (FiveDigits(a.rtype) + lib.print_(a)) && y == head + (FiveDigits(b.rtype) + lib.print_(b));
      Text.LessPrefix(head, FiveDigits(b.rtype) + lib.print_(b), FiveDigits(a.rtype) + lib.print_(a));
      if b.rtype < a.rtype < 0x1_0000 {
        DigitsLess(b.rtype, a.rtype);
        Text.LessExtend(FiveDigits(b.rtype), FiveDigits(a.rtype), lib.print_(b), lib.print_(a));
      } else if a.rtype == b.rtype {
        Text.LessPrefix(FiveDigits(a.rtype), lib.print_(b), lib.print_(a));
      }
    }
  }

  /** Every rendered content has its records in file order, and the SOA first. */
  lemma RenderOrdered(lib: Library, zone: string, rrs: seq<RR>)
    ensures FileOrder(lib, zone, Render(lib, zone, rrs).rrs) && multiset(Render(lib, zone, rrs).rrs) == multiset(rrs)
    ensures (exists rr :: rr in rrs && IsSoa(rr)) ==>
              Render(lib, zone, rrs).rrs != [] && IsSoa(Render(lib, zone, rrs).rrs[0])
  {
    var sorted := SortRRs(lib, zone, rrs);
    SortedInOrder(lib, zone, rrs);
    forall i, j | 0 <= i < j < |sorted| ensures NotAfter(lib, zone, sorted[i], sorted[j]) {
      assert InPlace(lib, zone, sorted[i], sorted[j]);
      KeyOrder(lib, zone, sorted[i], sorted[j]);
    }
    if rr :| rr in rrs && IsSoa(rr) {
      assert rr in multiset(sorted);
      var i :| 0 <= i < |sorted| && sorted[i] == rr;
      assert i > 0 ==> NotAfter(lib, zone, sorted[0], sorted[i]);
    }
  }

  /** A zone as loaded from its file. */
  datatype Zone = Zone(name: string, serial: nat, revision: string, rrs: seq<RR>, content: Content)

  /** A content that loads, and under which zone name. */
  ghost predicate Loads(lib: Library, content: Content, name: string) {
    && content.Content?
    && ValidZone(lib, name, multiset(content.rrs))
  }

  ghost function Serial(content: Content): nat {
    if content.Content? then SerialOf(content.rrs) else 0
  }

  lemma {:induction false} SerialUnique(rrs: seq<RR>, soa: RR)
    requires soa in rrs && IsSoa(soa)
    requires forall a :: a in rrs && IsSoa(a) ==> a == soa
    ensures SerialOf(rrs) == soa.serial
  {
    if !IsSoa(rrs[0]) {
      SerialUnique(rrs[1..], soa);
    } else {
      assert rrs[0] in rrs;
    }
  }

  /** What is rendered from a valid zone loads again, with the same serial. */
  lemma RenderLoads(lib: Library, zone: string, rrs: seq<RR>)
    requires ValidZone(lib, zone, multiset(rrs))
    ensures Loads(lib, Render(lib, zone, rrs), zone)
    ensures Serial(Render(lib, zone, rrs)) == SerialOf(rrs)
  {
    var sorted := SortRRs(lib, zone, rrs);
    var soa :| soa in multiset(rrs) && IsSoa(soa);
    assert forall a :: a in rrs ==> a in multiset(rrs);
    assert forall a :: a in sorted ==> a in multiset(sorted);
    SerialUnique(rrs, soa);
    SerialUnique(sorted, soa);
  }

  /** A content loads under one name only. */
  lemma LoadsOnce(lib: Library, content: Content, a: string, b: string)
    requires Loads(lib, content, a) && Loads(lib, content, b)
    ensures a == b
  {
    var soa :| soa in multiset(content.rrs) && IsSoa(soa);
    assert Fits(lib, a, soa) && Fits(lib, b, soa);
  }

  // ---------------------------------------------------------- serial numbers

  datatype Date = Date(year: nat, month: nat, day: nat)

  predicate CalendarDate(d: Date) {
    1 <= d.month <= 12 && 1 <= d.day <= 31
  }

  /** The serial that stands for a day, YYYYMMDD00; parsing it saturates at 32 bits. */
  function DateSerial(d: Date): nat {
    var n := (d.year * 10000 + d.month * 100 + d.day) * 100;
    if n <= MAX_SERIAL then n else MAX_SERIAL
  }

  function NextSerial(current: nat, today: Date): Option<nat> {
    if current >= MAX_SERIAL then None
    else if DateSerial(today) > current + 1 then Some(DateSerial(today))
    else Some(current + 1)
  }

  /** The order of serial numbers of section 3.2 of RFC 1982, for 32 bits. */
  predicate NewerSerial(old_: nat, new_: nat) {
    (old_ < new_ && new_ - old_ < 0x8000_0000) || (old_ > new_ && old_ - new_ > 0x8000_0000)
  }

  /** A new serial is the least that is larger, no less than the date serial, and it fits
      in 32 bits. It is newer for secondaries exactly
      unless the date serial is half the number space or more ahead; up to the year
      2147 it always is newer. */
  lemma SerialAdvances(current: nat, today: Date)
    requires NextSerial(current, today).Some?
    ensures current < NextSerial(current, today).value <= MAX_SERIAL
    ensures NextSerial(current, today).value >= DateSerial(today)
    ensures NextSerial(current, today).value in {current + 1, DateSerial(today)}
    ensures NewerSerial(current, NextSerial(current, today).value) <==> DateSerial(today) < current + 0x8000_0000
    ensures CalendarDate(today) && today.year <= 2147 ==> NewerSerial(current, NextSerial(current, today).value)
  {
  }

  lemma TwoDigits(q: nat, r: nat)
    requires r < 100
    ensures (q * 100 + r) / 100 == q && (q * 100 + r) % 100 == r
  {
  }

  lemma Hundreds(n: nat)
    ensures n / 10000 == n / 100 / 100 && n / 1000000 == n / 100 / 100 / 100
  {
  }

  /** A date serial reads as year, month, day and 00, up to the year 4293. */
  lemma DateSerialReads(d: Date)
    requires CalendarDate(d) && d.year <= 4293
    ensures var n := DateSerial(d);
            n / 1000000 == d.year && n / 10000 % 100 == d.month && n / 100 % 100 == d.day && n % 100 == 0
  {
    var month := d.year * 100 + d.month;
    var day := month * 100 + d.day;
    TwoDigits(d.year, d.month);
    TwoDigits(month, d.day);
    TwoDigits(day, 0);
    Hundreds(DateSerial(d));
    assert DateSerial(d) == day * 100 + 0;
  }
}
