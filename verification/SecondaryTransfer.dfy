/** Zone transfers: which streams of records are accepted as a complete snapshot, and
    what is read back from a snapshot file. */
module SecondaryTransfer {
  import opened Options
  import opened ZoneRecords
  import Text

  predicate EqualFold(a: string, b: string) {
    Text.ToLower(a) == Text.ToLower(b)
  }

  predicate IsApexNs(zone: string, rr: RR) {
    rr.rtype == TYPE_NS && EqualFold(rr.name, zone)
  }

  /** A complete version of a zone in transfer order: the apex SOA, then the other
      records, among them an apex NS. */
  ghost predicate Complete(zone: string, v: seq<RR>) {
    && |v| >= 2
    && IsSoa(v[0]) && Text.ToLower(v[0].name) == Text.ToLower(zone)
    && (forall i :: 1 <= i < |v| ==> !IsSoa(v[i]))
    && (exists i :: 1 <= i < |v| && v[i].rtype == TYPE_NS && Text.ToLower(v[i].name) == Text.ToLower(zone))
  }

  /** The AXFR stream of a version closes with the SOA it began with, as section 2.2 of
      RFC 5936 has it. */
  function Axfr(v: seq<RR>): seq<RR>
    requires v != []
  {
    v + [v[0]]
  }

  /** The streams that are published: a complete version, closed by an SOA of the same
      name and serial. */
  ghost predicate Accepted(zone: string, records: seq<RR>) {
    && |records| >= 3
    && Complete(zone, records[..|records| - 1])
    && var last := records[|records| - 1];
       IsSoa(last) && last.serial == records[0].serial && Text.ToLower(records[0].name) == Text.ToLower(last.name)
  }

  predicate FullSnapshot(records: seq<RR>) {
    && |records| >= 3
    && var first, last := records[0], records[|records| - 1];
       IsSoa(first) && IsSoa(last) && first.serial == last.serial && EqualFold(first.name, last.name)
  }

  /** The checks of `publish`. */
  method CheckTransfer(zone: string, records: seq<RR>) returns (ok: bool)
    ensures ok <==> Accepted(zone, records)
  {
    if !FullSnapshot(records) {
      return false;
    }
    var version := records[..|records| - 1];
    if !EqualFold(records[0].name, zone) {
      return false;
    }
    var hasNs := false;
    for i := 1 to |records| - 1
      invariant forall j :: 1 <= j < i ==> !IsSoa(version[j])
      invariant hasNs <==> exists j :: 1 <= j < i && IsApexNs(zone, version[j])
    {
      assert version[i] == records[i];
      if IsSoa(records[i]) {
        return false;
      }
      if IsApexNs(zone, records[i]) {
        hasNs := true;
      }
    }
    return hasNs;
  }

  /** The full AXFR stream of a complete version is accepted. */
  lemma AxfrAccepted(zone: string, v: seq<RR>)
    requires Complete(zone, v)
    ensures Accepted(zone, Axfr(v))
  {
    assert Axfr(v)[..|v|] == v;
  }

  /** No accepted stream is a proper prefix of another one: neither an interrupted
      transfer nor one that runs on is ever taken for a complete one. */
  lemma AcceptedPrefixFree(zone: string, records: seq<RR>, k: nat)
    requires Accepted(zone, records) && k < |records|
    ensures !Accepted(zone, records[..k])
  {
    if k >= 3 {
      assert records[..k][k - 1] == records[..|records| - 1][k - 1];
    }
  }

  /** Every proper prefix of an AXFR stream is refused. */
  lemma PrefixRefused(zone: string, v: seq<RR>, records: seq<RR>)
    requires Complete(zone, v) && records <= Axfr(v)
    ensures Accepted(zone, records) <==> records == Axfr(v)
  {
    AxfrAccepted(zone, v);
    if records != Axfr(v) {
      assert records == Axfr(v)[..|records|];
      AcceptedPrefixFree(zone, Axfr(v), |records|);
    }
  }

  // ----------------------------------------------------------- snapshot files

  /** A snapshot file: the records it lists, or text that does not parse. */
  datatype Snapshot = Snapshot(rrs: seq<RR>) | Garbled

  datatype Metadata = Metadata(serial: nat, records: nat)

  /** The serial of the last SOA; 0 if there is none. */
  function LastSerial(rrs: seq<RR>): nat {
    if rrs == [] then 0
    else
      var last := rrs[|rrs| - 1];
      if IsSoa(last) then last.serial else LastSerial(rrs[..|rrs| - 1])
  }

  function Inspected(file: Snapshot): Option<Metadata> {
    if file.Garbled? || LastSerial(file.rrs) == 0 then None else Some(Metadata(LastSerial(file.rrs), |file.rrs|))
  }

  /** `inspectZone` */
  method InspectZone(file: Snapshot) returns (r: Option<Metadata>)
    ensures r == Inspected(file)
  {
    if file.Garbled? {
      return None;
    }
    var serial := 0;
    for i := 0 to |file.rrs|
      invariant serial == LastSerial(file.rrs[..i])
    {
      assert file.rrs[..i + 1][..i] == file.rrs[..i];
      if IsSoa(file.rrs[i]) {
        serial := file.rrs[i].serial;
      }
    }
    assert file.rrs[..|file.rrs|] == file.rrs;
    return if serial == 0 then None else Some(Metadata(serial, |file.rrs|));
  }

  lemma {:induction false} LastSerialFirst(rrs: seq<RR>)
    requires rrs != [] && IsSoa(rrs[0]) && forall i :: 1 <= i < |rrs| ==> !IsSoa(rrs[i])
    ensures LastSerial(rrs) == rrs[0].serial
  {
    if |rrs| > 1 {
      LastSerialFirst(rrs[..|rrs| - 1]);
    }
  }

  /** A complete version is read back with its own serial, unless that is 0. */
  lemma CompleteInspected(zone: string, v: seq<RR>)
    requires Complete(zone, v)
    ensures Inspected(Snapshot(v)) == if v[0].serial == 0 then None else Some(Metadata(v[0].serial, |v|))
  {
    LastSerialFirst(v);
  }
}
