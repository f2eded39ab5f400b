/** What a reconciliation report must say, in terms of the records: which findings and
    proposals there are for an address, and what is counted. */
module ReverseMeaning {
  import opened Options
  import opened ReverseNames
  import opened Listings
  import opened ReverseReport
  import opened ReverseFixpoint
  import Text

  // -------------------------------------------------------------- the records

  /** The names that have an A record for an address of the network. */
  ghost function NamesOf(network: string -> bool, forward: seq<Record>, ip: string): set<string> {
    set rr | rr in forward && rr.A? && rr.address == ip && IsAddress(ip) && network(ip) :: Text.ToLower(rr.name)
  }

  /** The addresses in the network that a name has. */
  ghost function AddressesOf(network: string -> bool, forward: seq<Record>, name: string): set<string> {
    set rr | rr in forward && rr.A? && Text.ToLower(rr.name) == name && IsAddress(rr.address) && network(rr.address)
      :: rr.address
  }

  /** The targets of the PTR records for an address of the network. */
  ghost function TargetsOf(network: string -> bool, reverse: seq<Record>, ip: string): set<string> {
    set rr | rr in reverse && rr.Ptr? && ReverseIPv4(rr.labels) == Some(ip) && IsAddress(ip) && network(ip)
      :: Text.ToLower(rr.target)
  }

  lemma {:induction false} ForwardIndexes(network: string -> bool, rrs: seq<Record>, ip: string, name: string)
    ensures name in Get(ByIp(network, rrs), ip) <==> name in NamesOf(network, rrs, ip)
    ensures ip in Get(ByName(network, rrs), name) <==> ip in AddressesOf(network, rrs, name)
  {
    if rrs != [] {
      var before, rr := rrs[..|rrs| - 1], rrs[|rrs| - 1];
      ForwardIndexes(network, before, ip, name);
      assert rrs == before + [rr];
      var fits := rr.A? && rr.address == ip && Within(network, ip) && Text.ToLower(rr.name) == name;
      assert name in NamesOf(network, rrs, ip) <==> name in NamesOf(network, before, ip) || fits;
      assert ip in AddressesOf(network, rrs, name) <==> ip in AddressesOf(network, before, name) || fits;
    }
  }

  lemma {:induction false} ReverseIndex(network: string -> bool, rrs: seq<Record>, ip: string, target: string)
    ensures target in Get(PtrsByIp(network, rrs), ip) <==> target in TargetsOf(network, rrs, ip)
  {
    if rrs != [] {
      var before, rr := rrs[..|rrs| - 1], rrs[|rrs| - 1];
      ReverseIndex(network, before, ip, target);
      assert rrs == before + [rr];
      assert target in TargetsOf(network, rrs, ip) <==>
          || target in TargetsOf(network, before, ip)
          || (PtrAddress(network, rr) == Some(ip) && Text.ToLower(rr.target) == target);
    }
  }

  /** The indexes of a report are these sets. */
  lemma ViewSets(network: string -> bool, forward: seq<Record>, reverse: seq<Record>, policy: Policy, x: string)
    ensures var v := ViewOf(network, forward, reverse, policy);
            && Get(v.byIp, x) == NamesOf(network, forward, x)
            && Get(v.byName, x) == AddressesOf(network, forward, x)
            && Get(v.ptrs, x) == TargetsOf(network, reverse, x)
            && (x in v.byIp <==> NamesOf(network, forward, x) != {})
            && (x in v.ptrs <==> TargetsOf(network, reverse, x) != {})
  {
    var v := ViewOf(network, forward, reverse, policy);
    forall y
      ensures y in Get(v.byIp, x) <==> y in NamesOf(network, forward, x)
      ensures y in Get(v.byName, x) <==> y in AddressesOf(network, forward, x)
      ensures y in Get(v.ptrs, x) <==> y in TargetsOf(network, reverse, x)
    {
      ForwardIndexes(network, forward, x, y);
      ForwardIndexes(network, forward, y, x);
      ReverseIndex(network, reverse, x, y);
    }
    NamesInhabited(network, forward, x);
    PtrsInhabited(network, reverse, x);
  }

  lemma {:induction false} NamesInhabited(network: string -> bool, rrs: seq<Record>, ip: string)
    ensures ip in ByIp(network, rrs) <==> Get(ByIp(network, rrs), ip) != {}
  {
    if rrs != [] {
      NamesInhabited(network, rrs[..|rrs| - 1], ip);
    }
  }

  // ------------------------------------------------------------------ policy

  /** A name ends in a suffix, both made absolute and whatever their case. */
  ghost predicate EndsIn(name: string, suffix: string) {
    var n, s := Text.Fqdn(name), Text.Fqdn(suffix);
    |s| <= |n| && forall i :: 0 <= i < |s| ==> Text.LowerChar(n[|n| - |s| + i]) == Text.LowerChar(s[i])
  }

  lemma SuffixIs(name: string, suffix: string)
    ensures Text.HasSuffix(Text.ToLower(Text.Fqdn(name)), Text.ToLower(Text.Fqdn(suffix))) <==> EndsIn(name, suffix)
  {
    var n, s := Text.Fqdn(name), Text.Fqdn(suffix);
    if |s| <= |n| {
      LowerAlike(n[|n| - |s|..], s);
      assert Text.ToLower(n)[|n| - |s|..] == Text.ToLower(n[|n| - |s|..]);
    }
  }

  lemma LowerAlike(a: string, b: string)
    requires |a| == |b|
    ensures Text.ToLower(a) == Text.ToLower(b) <==>
            forall i :: 0 <= i < |b| ==> Text.LowerChar(a[i]) == Text.LowerChar(b[i])
  {
    var x, y := Text.ToLower(a), Text.ToLower(b);
    if x == y {
      forall i | 0 <= i < |b| ensures Text.LowerChar(a[i]) == Text.LowerChar(b[i]) {
        assert x[i] == y[i];
      }
    }
  }

  /** A name is allowed if it is excepted, or has none of the excluded suffixes. */
  lemma AllowedIs(policy: Policy, name: string)
    ensures Allowed(policy, name) <==>
            || Text.ToLower(Text.Fqdn(name)) in policy.allowedNames
            || forall suffix :: suffix in policy.excludedSuffixes ==> !EndsIn(name, suffix)
  {
    forall suffix
      ensures Text.HasSuffix(Text.ToLower(Text.Fqdn(name)), Text.ToLower(Text.Fqdn(suffix))) <==> EndsIn(name, suffix)
    {
      SuffixIs(name, suffix);
    }
  }

  // ------------------------------------------------------------- what is due

  ghost function Permitted(policy: Policy, names: set<string>): set<string> {
    set n | n in names && Allowed(policy, n)
  }

  /** When a report must have a finding of a kind about an address and these PTR targets,
      given its forward names, its targets, and the addresses of every name. */
  ghost predicate Due(
    names: set<string>, targets: set<string>, addresses: string -> set<string>, policy: Policy,
    kind: Kind, ip: string, ptr: seq<string>)
  {
    match kind
    case MissingPtrNoAllowedName => names != {} && targets == {} && ptr == [] && Permitted(policy, names) == {}
    case MissingPtrSharedName =>
      names != {} && targets == {} && ptr == []
      && exists c :: c != "" && Permitted(policy, names) == {c} && |addresses(c)| != 1
    case MissingPtrAmbiguous =>
      names != {} && targets == {} && ptr == [] && Permitted(policy, names) != {}
      && forall c :: Permitted(policy, names) == {c} ==> c == ""
    case DisallowedPtrTarget => names != {} && |ptr| == 1 && ptr[0] in targets && !Allowed(policy, ptr[0])
    case PtrWithoutA =>
      names != {} && |ptr| == 1 && ptr[0] in targets && Allowed(policy, ptr[0]) && addresses(ptr[0]) == {}
    case PtrAMismatch =>
      || (&& names != {} && |ptr| == 1 && ptr[0] in targets && Allowed(policy, ptr[0])
          && addresses(ptr[0]) != {} && ip !in addresses(ptr[0]))
      || (names == {} && ptr == Listing(targets) && exists t :: t in targets && addresses(t) != {})
    case MultiplePtr => names != {} && |targets| > 1 && ptr == Listing(targets)
    case PtrWithoutForwardAddress =>
      names == {} && targets != {} && ptr == Listing(targets) && forall t :: t in targets ==> addresses(t) == {}
  }

  /** A list of findings has one of this kind about this address and these targets. */
  ghost predicate Has(findings: seq<Finding>, kind: Kind, ip: string, ptr: seq<string>) {
    exists f :: f in findings && f.kind == kind && f.ip == ip && f.ptr == ptr
  }

  // ------------------------------------------------------------- one address

  lemma {:induction false} EligibleDistinct(policy: Policy, names: seq<string>)
    requires Distinct(names)
    ensures Distinct(Eligible(policy, names))
  {
    if names != [] {
      var before, last := names[..|names| - 1], names[|names| - 1];
      EligibleDistinct(policy, before);
      forall i | 0 <= i < |Eligible(policy, before)| ensures Eligible(policy, before)[i] != last {
        assert Eligible(policy, before)[i] in before;
      }
    }
  }

  /** The only one of distinct members. */
  lemma OnlyMember(list: seq<string>, s: set<string>)
    requires Distinct(list) && forall x :: x in list <==> x in s
    ensures list == [] <==> s == {}
    ensures forall c :: s == {c} <==> list == [c]
  {
    if list != [] {
      assert list[0] in s;
    }
    assert |list| > 1 ==> list[0] != list[1];
    forall c | s == {c} ensures list == [c] {
      assert c in s && c in list;
      forall i | 0 <= i < |list| ensures list[i] == c {
        assert list[i] in list && list[i] in {c};
      }
    }
    forall c | list == [c] ensures s == {c} {
      assert list[0] == c && c in s;
      assert forall x :: x in s ==> x in list;
    }
  }

  /** The candidate is the only allowed name, if there is exactly one. */
  ghost predicate Candidate(c: string, permitted: set<string>) {
    (forall x :: permitted == {x} ==> c == x) && (c != "" ==> permitted == {c})
  }

  lemma CandidateIs(policy: Policy, names: set<string>)
    ensures Eligible(policy, Listing(names)) == [] <==> Permitted(policy, names) == {}
    ensures Candidate(CandidateOf(policy, Listing(names)), Permitted(policy, names))
  {
    ListingMembers(names);
    ListingDistinct(names);
    EligibleDistinct(policy, Listing(names));
    var eligible := Eligible(policy, Listing(names));
    OnlyMember(eligible, Permitted(policy, names));
    if |eligible| == 1 {
      assert eligible == [eligible[0]];
    }
  }

  lemma HasOne(f: Finding, kind: Kind, ip: string, ptr: seq<string>)
    ensures Has([f], kind, ip, ptr) <==> f.kind == kind && f.ip == ip && f.ptr == ptr
  {
    assert f in [f];
  }

  /** Without a PTR one finding is due, unless the only allowed name has one address. */
  lemma MissingKind(
    names: set<string>, addresses: string -> set<string>, policy: Policy, c: string, kind: Kind, ip: string,
    ptr: seq<string>)
    requires names != {} && Candidate(c, Permitted(policy, names))
    ensures Due(names, {}, addresses, policy, kind, ip, ptr) <==>
            && ptr == [] && !(c != "" && |addresses(c)| == 1)
            && kind == if c != "" then MissingPtrSharedName
                       else if Permitted(policy, names) == {} then MissingPtrNoAllowedName
                       else MissingPtrAmbiguous
  {
  }

  lemma MissingDue(v: View, ip: string, kind: Kind, ptr: seq<string>)
    requires Get(v.byIp, ip) != {} && Get(v.ptrs, ip) == {}
    ensures Has(LineAt(v, ip).findings, kind, ip, ptr) <==>
            Due(Get(v.byIp, ip), {}, t => Get(v.byName, t), v.policy, kind, ip, ptr)
  {
    var names := Get(v.byIp, ip);
    CandidateIs(v.policy, names);
    ListingEmpty({});
    var c := CandidateOf(v.policy, Listing(names));
    MissingKind(names, t => Get(v.byName, t), v.policy, c, kind, ip, ptr);
    var findings := MissingPtr(v.byName, v.policy, ip, Listing(names)).1;
    assert LineAt(v, ip).findings == findings;
    if findings != [] {
      assert findings == [findings[0]];
      HasOne(findings[0], kind, ip, ptr);
    }
  }

  lemma {:induction false} TargetFrom(
    byName: Index, policy: Policy, ip: string, names: seq<string>, ptrs: seq<string>, f: Finding) returns (t: string)
    requires f in PtrFindings(byName, policy, ip, names, ptrs)
    ensures t in ptrs && PtrFinding(byName, policy, ip, names, t) == [f]
  {
    var before, last := ptrs[..|ptrs| - 1], ptrs[|ptrs| - 1];
    if f in PtrFindings(byName, policy, ip, names, before) {
      t := TargetFrom(byName, policy, ip, names, before, f);
    } else {
      t := last;
    }
  }

  lemma {:induction false} TargetIn(
    byName: Index, policy: Policy, ip: string, names: seq<string>, ptrs: seq<string>, t: string, f: Finding)
    requires t in ptrs && PtrFinding(byName, policy, ip, names, t) == [f]
    ensures f in PtrFindings(byName, policy, ip, names, ptrs)
  {
    var before, last := ptrs[..|ptrs| - 1], ptrs[|ptrs| - 1];
    if t == last {
      assert f in [f];
    } else {
      assert t in before;
      TargetIn(byName, policy, ip, names, before, t, f);
    }
  }

  /** The kind of finding about one target, if there is one. */
  ghost predicate TargetDue(byName: Index, policy: Policy, kind: Kind, ip: string, t: string) {
    if !Allowed(policy, t) then kind == DisallowedPtrTarget
    else ip !in Get(byName, t) && kind == if Get(byName, t) == {} then PtrWithoutA else PtrAMismatch
  }

  lemma TargetIs(byName: Index, policy: Policy, ip: string, names: seq<string>, t: string, f: Finding)
    requires PtrFinding(byName, policy, ip, names, t) == [f]
    ensures TargetDue(byName, policy, f.kind, ip, t) && f == Finding(f.kind, ip, [t], names, [])
  {
    assert [f][0] == f;
  }

  lemma TargetsDue(v: View, ip: string, kind: Kind, names: seq<string>, ptrs: seq<string>, ptr: seq<string>)
    ensures Has(PtrFindings(v.byName, v.policy, ip, names, ptrs), kind, ip, ptr) <==>
            |ptr| == 1 && ptr[0] in ptrs && TargetDue(v.byName, v.policy, kind, ip, ptr[0])
  {
    var all := PtrFindings(v.byName, v.policy, ip, names, ptrs);
    if f :| f in all && f.kind == kind && f.ip == ip && f.ptr == ptr {
      var t := TargetFrom(v.byName, v.policy, ip, names, ptrs, f);
      TargetIs(v.byName, v.policy, ip, names, t, f);
      assert ptr == [t] && ptr[0] == t;
    }
    if |ptr| == 1 && ptr[0] in ptrs && TargetDue(v.byName, v.policy, kind, ip, ptr[0]) {
      var f := Finding(kind, ip, [ptr[0]], names, []);
      assert PtrFinding(v.byName, v.policy, ip, names, ptr[0]) == [f] && ptr == [ptr[0]];
      TargetIn(v.byName, v.policy, ip, names, ptrs, ptr[0], f);
    }
  }

  /** One target is due what the records say of it, and so is the list of several. */
  lemma TargetKind(
    names: set<string>, targets: set<string>, byName: Index, policy: Policy, kind: Kind, ip: string, ptr: seq<string>)
    requires names != {} && targets != {}
    ensures Due(names, targets, t => Get(byName, t), policy, kind, ip, ptr) <==>
            || (|ptr| == 1 && ptr[0] in targets && TargetDue(byName, policy, kind, ip, ptr[0]))
            || (|targets| > 1 && kind == MultiplePtr && ptr == Listing(targets))
  {
  }

  lemma SeveralDue(ptrs: seq<string>, ip: string, names: seq<string>, kind: Kind, ptr: seq<string>)
    ensures Has(if |ptrs| > 1 then [Finding(MultiplePtr, ip, ptrs, names, [])] else [], kind, ip, ptr) <==>
            |ptrs| > 1 && kind == MultiplePtr && ptr == ptrs
  {
    HasOne(Finding(MultiplePtr, ip, ptrs, names, []), kind, ip, ptr);
  }

  lemma PresentParts(v: View, ip: string, kind: Kind, ptr: seq<string>)
    requires Get(v.ptrs, ip) != {}
    ensures var targets := Get(v.ptrs, ip);
            Has(LineAt(v, ip).findings, kind, ip, ptr) <==>
            || (|ptr| == 1 && ptr[0] in targets && TargetDue(v.byName, v.policy, kind, ip, ptr[0]))
            || (|targets| > 1 && kind == MultiplePtr && ptr == Listing(targets))
  {
    var targets := Get(v.ptrs, ip);
    var names, ptrs := Listing(Get(v.byIp, ip)), Listing(targets);
    ListingEmpty(targets);
    ListingMembers(targets);
    var found := PtrFindings(v.byName, v.policy, ip, names, ptrs);
    var several := if |ptrs| > 1 then [Finding(MultiplePtr, ip, ptrs, names, [])] else [];
    assert LineAt(v, ip).findings == found + several;
    HasJoin(found, several, kind, ip, ptr);
    TargetsDue(v, ip, kind, names, ptrs, ptr);
    SeveralDue(ptrs, ip, names, kind, ptr);
  }

  lemma PresentDue(v: View, ip: string, kind: Kind, ptr: seq<string>)
    requires Get(v.byIp, ip) != {} && Get(v.ptrs, ip) != {}
    ensures Has(LineAt(v, ip).findings, kind, ip, ptr) <==>
            Due(Get(v.byIp, ip), Get(v.ptrs, ip), t => Get(v.byName, t), v.policy, kind, ip, ptr)
  {
    PresentParts(v, ip, kind, ptr);
    TargetKind(Get(v.byIp, ip), Get(v.ptrs, ip), v.byName, v.policy, kind, ip, ptr);
  }

  lemma HasJoin(a: seq<Finding>, b: seq<Finding>, kind: Kind, ip: string, ptr: seq<string>)
    ensures Has(a + b, kind, ip, ptr) <==> Has(a, kind, ip, ptr) || Has(b, kind, ip, ptr)
  {
    if f :| f in a && f.kind == kind && f.ip == ip && f.ptr == ptr {
      assert f in a + b;
    }
    if f :| f in b && f.kind == kind && f.ip == ip && f.ptr == ptr {
      assert f in a + b;
    }
  }

  // ------------------------------------------------------------ whole reports

  lemma LineAbout(v: View, ip: string, f: Finding)
    requires f in LineAt(v, ip).findings
    ensures f.ip == ip && f.forward == Listing(Get(v.byIp, ip)) && f.resolvesTo == []
  {
    var names, ptrs := Listing(Get(v.byIp, ip)), Listing(Get(v.ptrs, ip));
    if ptrs != [] && f in PtrFindings(v.byName, v.policy, ip, names, ptrs) {
      var t := TargetFrom(v.byName, v.policy, ip, names, ptrs, f);
      TargetIs(v.byName, v.policy, ip, names, t, f);
    }
  }

  lemma {:induction false} LinesHave(v: View, ips: seq<string>, kind: Kind, ip: string, ptr: seq<string>)
    ensures Has(Lines(v, ips).findings, kind, ip, ptr) <==> ip in ips && Has(LineAt(v, ip).findings, kind, ip, ptr)
  {
    if ips != [] {
      var before, last := ips[..|ips| - 1], ips[|ips| - 1];
      LinesHave(v, before, kind, ip, ptr);
      var a, b := Lines(v, before).findings, LineAt(v, last).findings;
      assert Lines(v, ips).findings == a + b;
      HasJoin(a, b, kind, ip, ptr);
      LineHas(v, last, kind, ip, ptr);
      assert ip in ips <==> ip in before || ip == last;
    }
  }

  lemma LineHas(v: View, last: string, kind: Kind, ip: string, ptr: seq<string>)
    ensures Has(LineAt(v, last).findings, kind, ip, ptr) ==> ip == last
  {
    if f :| f in LineAt(v, last).findings && f.kind == kind && f.ip == ip && f.ptr == ptr {
      LineAbout(v, last, f);
    }
  }

  lemma {:induction false} ReverseHave(v: View, ips: seq<string>, kind: Kind, ip: string, ptr: seq<string>)
    ensures Has(ReverseFindings(v, ips), kind, ip, ptr) <==>
            ip in ips && ip !in v.byIp && ReverseOnly(v, ip).kind == kind && ReverseOnly(v, ip).ptr == ptr
  {
    if ips != [] {
      var before, last := ips[..|ips| - 1], ips[|ips| - 1];
      ReverseHave(v, before, kind, ip, ptr);
      assert ip in ips <==> ip in before || ip == last;
      if last !in v.byIp {
        HasJoin(ReverseFindings(v, before), [ReverseOnly(v, last)], kind, ip, ptr);
        HasOne(ReverseOnly(v, last), kind, ip, ptr);
      }
    }
  }

  lemma {:induction false} ResolvingIs(byName: Index, ptrs: seq<string>)
    ensures Resolving(byName, ptrs).Some? <==> exists t :: t in ptrs && Get(byName, t) != {}
  {
    if ptrs != [] {
      ResolvingIs(byName, ptrs[1..]);
      assert ptrs == [ptrs[0]] + ptrs[1..];
    }
  }

  lemma ReverseDue(v: View, ip: string, kind: Kind, ptr: seq<string>)
    requires Get(v.byIp, ip) == {} && Get(v.ptrs, ip) != {}
    ensures ReverseOnly(v, ip).kind == kind && ReverseOnly(v, ip).ptr == ptr <==>
            Due({}, Get(v.ptrs, ip), t => Get(v.byName, t), v.policy, kind, ip, ptr)
  {
    var ptrs := Listing(Get(v.ptrs, ip));
    ListingMembers(Get(v.ptrs, ip));
    ResolvingIs(v.byName, ptrs);
  }

  /** A view whose indexes have no empty entries. */
  ghost predicate Inhabited(v: View) {
    forall ip :: (ip in v.byIp <==> Get(v.byIp, ip) != {}) && (ip in v.ptrs <==> Get(v.ptrs, ip) != {})
  }

  lemma ViewDue(v: View, kind: Kind, ip: string, ptr: seq<string>)
    requires Inhabited(v)
    ensures Has(ReportOf(v).findings, kind, ip, ptr) <==>
            Due(Get(v.byIp, ip), Get(v.ptrs, ip), t => Get(v.byName, t), v.policy, kind, ip, ptr)
  {
    var ips, others := Listing(v.byIp.Keys), Listing(v.ptrs.Keys);
    ListingMembers(v.byIp.Keys);
    ListingMembers(v.ptrs.Keys);
    HasJoin(Lines(v, ips).findings, ReverseFindings(v, others), kind, ip, ptr);
    LinesHave(v, ips, kind, ip, ptr);
    ReverseHave(v, others, kind, ip, ptr);
    if Get(v.byIp, ip) != {} {
      if Get(v.ptrs, ip) == {} {
        MissingDue(v, ip, kind, ptr);
      } else {
        PresentDue(v, ip, kind, ptr);
      }
    } else if Get(v.ptrs, ip) != {} {
      ReverseDue(v, ip, kind, ptr);
    }
  }

  lemma DueSame(
    names: set<string>, targets: set<string>, f: string -> set<string>, g: string -> set<string>, policy: Policy,
    kind: Kind, ip: string, ptr: seq<string>)
    requires forall t :: f(t) == g(t)
    ensures Due(names, targets, f, policy, kind, ip, ptr) <==> Due(names, targets, g, policy, kind, ip, ptr)
  {
  }

  /** A report has a finding exactly when the records call for it. */
  lemma FindingsDue(
    network: string -> bool, forward: seq<Record>, reverse: seq<Record>, policy: Policy,
    kind: Kind, ip: string, ptr: seq<string>)
    ensures Has(ReportOf(ViewOf(network, forward, reverse, policy)).findings, kind, ip, ptr) <==>
            Due(NamesOf(network, forward, ip), TargetsOf(network, reverse, ip),
                t => AddressesOf(network, forward, t), policy, kind, ip, ptr)
  {
    var v := ViewOf(network, forward, reverse, policy);
    forall x
      ensures (x in v.byIp <==> Get(v.byIp, x) != {}) && (x in v.ptrs <==> Get(v.ptrs, x) != {})
      ensures Get(v.byName, x) == AddressesOf(network, forward, x)
    {
      ViewSets(network, forward, reverse, policy, x);
    }
    ViewSets(network, forward, reverse, policy, ip);
    ViewDue(v, kind, ip, ptr);
    DueSame(Get(v.byIp, ip), Get(v.ptrs, ip), t => Get(v.byName, t), t => AddressesOf(network, forward, t), policy,
        kind, ip, ptr);
  }

  /** And it proposes a PTR exactly for an address without one whose only allowed name
      has no other address. */
  lemma ProposalsDue(
    network: string -> bool, forward: seq<Record>, reverse: seq<Record>, policy: Policy, ip: string, name: string)
    ensures Proposal(ip, name) in ReportOf(ViewOf(network, forward, reverse, policy)).proposals <==>
            && TargetsOf(network, reverse, ip) == {} && name != ""
            && Permitted(policy, NamesOf(network, forward, ip)) == {name}
            && AddressesOf(network, forward, name) == {ip}
  {
    var v, p := ViewOf(network, forward, reverse, policy), Proposal(ip, name);
    var ips := Listing(v.byIp.Keys);
    ListingMembers(v.byIp.Keys);
    ViewSets(network, forward, reverse, policy, ip);
    ViewSets(network, forward, reverse, policy, name);
    ForwardIndexes(network, forward, ip, name);
    if ip in Get(v.byName, name) {
      OneMember(Get(v.byName, name), ip);
    }
    if p in ReportOf(v).proposals {
      LinesFrom(v, ips, p);
      ProposedDue(v, p);
    }
    if TargetsOf(network, reverse, ip) == {} && name != "" && Permitted(policy, NamesOf(network, forward, ip)) == {name}
        && AddressesOf(network, forward, name) == {ip} {
      assert name in Permitted(policy, NamesOf(network, forward, ip));
      DueProposed(v, p);
      LinesInclude(v, ips, ip, p);
    }
  }

  lemma ProposedDue(v: View, p: Proposal)
    requires Proposes(v, p)
    ensures p.name != "" && Permitted(v.policy, Get(v.byIp, p.ip)) == {p.name} && |Get(v.byName, p.name)| == 1
  {
    var names, c := Listing(Get(v.byIp, p.ip)), CandidateOf(v.policy, Listing(Get(v.byIp, p.ip)));
    CandidateIs(v.policy, Get(v.byIp, p.ip));
    ListingEmpty(Get(v.ptrs, p.ip));
    assert MissingPtr(v.byName, v.policy, p.ip, names).0 == [p];
    assert [Proposal(p.ip, c)][0] == Proposal(p.ip, c);
  }

  lemma DueProposed(v: View, p: Proposal)
    requires Get(v.ptrs, p.ip) == {} && p.name != "" && Permitted(v.policy, Get(v.byIp, p.ip)) == {p.name}
    requires |Get(v.byName, p.name)| == 1
    ensures p in LineAt(v, p.ip).proposals
  {
    CandidateIs(v.policy, Get(v.byIp, p.ip));
    ListingEmpty(Get(v.ptrs, p.ip));
    assert LineAt(v, p.ip).proposals == [p];
  }

  lemma OneMember(s: set<string>, x: string)
    requires x in s
    ensures |s| == 1 <==> s == {x}
  {
    if |s| == 1 {
      assert |s - {x}| == 0;
      assert s == (s - {x}) + {x};
    }
  }

  /** What a finding says of its address: all its forward names, and, for an address that
      only the reverse zone has, the addresses of one of its targets, if one has any. */
  lemma FindingText(
    network: string -> bool, forward: seq<Record>, reverse: seq<Record>, policy: Policy, f: Finding)
    requires f in ReportOf(ViewOf(network, forward, reverse, policy)).findings
    ensures f.forward == Listing(NamesOf(network, forward, f.ip))
    ensures if f.kind == PtrAMismatch && NamesOf(network, forward, f.ip) == {}
            then exists t :: t in TargetsOf(network, reverse, f.ip) && AddressesOf(network, forward, t) != {}
                     && f.resolvesTo == Listing(AddressesOf(network, forward, t))
            else f.resolvesTo == []
  {
    var v := ViewOf(network, forward, reverse, policy);
    var ips, others := Listing(v.byIp.Keys), Listing(v.ptrs.Keys);
    ListingMembers(v.byIp.Keys);
    ViewSets(network, forward, reverse, policy, f.ip);
    if f in Lines(v, ips).findings {
      LinesAbout(v, ips, f);
    } else {
      ReverseAbout(v, others, f);
      ListingEmpty({});
      var ptrs := Listing(Get(v.ptrs, f.ip));
      ListingMembers(Get(v.ptrs, f.ip));
      if Resolving(v.byName, ptrs).Some? {
        ResolvingOne(v.byName, ptrs);
        ViewSets(network, forward, reverse, policy, Resolving(v.byName, ptrs).value);
      }
    }
  }

  lemma {:induction false} LinesAbout(v: View, ips: seq<string>, f: Finding)
    requires f in Lines(v, ips).findings
    ensures f.ip in ips && f.forward == Listing(Get(v.byIp, f.ip)) && f.resolvesTo == []
  {
    var before, last := ips[..|ips| - 1], ips[|ips| - 1];
    if f in Lines(v, before).findings {
      LinesAbout(v, before, f);
    } else {
      LineAbout(v, last, f);
    }
  }

  lemma {:induction false} ReverseAbout(v: View, ips: seq<string>, f: Finding)
    requires f in ReverseFindings(v, ips)
    ensures f.ip !in v.byIp && f == ReverseOnly(v, f.ip)
  {
    var before, last := ips[..|ips| - 1], ips[|ips| - 1];
    if f in ReverseFindings(v, before) {
      ReverseAbout(v, before, f);
    }
  }

  lemma {:induction false} ResolvingOne(byName: Index, ptrs: seq<string>)
    requires Resolving(byName, ptrs).Some?
    ensures Resolving(byName, ptrs).value in ptrs && Get(byName, Resolving(byName, ptrs).value) != {}
  {
    if Get(byName, ptrs[0]) == {} {
      ResolvingOne(byName, ptrs[1..]);
    }
  }

  // ------------------------------------------------------------------ counts

  ghost function ForwardIps(network: string -> bool, forward: seq<Record>): set<string> {
    set rr | rr in forward && rr.A? && IsAddress(rr.address) && network(rr.address) :: rr.address
  }

  ghost function ReverseIps(network: string -> bool, reverse: seq<Record>): set<string> {
    set rr | rr in reverse && PtrAddress(network, rr).Some? :: PtrAddress(network, rr).value
  }

  /** An address that an allowed PTR target points back to. */
  ghost predicate PointsBack(
    network: string -> bool, forward: seq<Record>, reverse: seq<Record>, policy: Policy, ip: string)
  {
    exists t :: t in TargetsOf(network, reverse, ip) && Allowed(policy, t) && ip in AddressesOf(network, forward, t)
  }

  ghost predicate Counts(v: View, ip: string) {
    LineAt(v, ip).aligned == 1
  }

  lemma CountNext(v: View, ips: seq<string>)
    requires ips != []
    ensures var before, last := ips[..|ips| - 1], ips[|ips| - 1];
            Lines(v, ips).aligned == Lines(v, before).aligned + if Counts(v, last) then 1 else 0
  {
  }

  /** The addresses that count, counted. */
  lemma {:induction false} AlignedCount(v: View, ips: seq<string>, counting: set<string>)
    requires Distinct(ips) && forall ip :: ip in counting <==> ip in ips && Counts(v, ip)
    ensures Lines(v, ips).aligned == |counting|
  {
    if ips == [] {
      assert counting == {};
    } else {
      var before, last := ips[..|ips| - 1], ips[|ips| - 1];
      CountNext(v, ips);
      forall ip ensures ip in counting - {last} <==> ip in before && Counts(v, ip) {
        assert ip in ips <==> ip in before || ip == last;
      }
      AlignedCount(v, before, counting - {last});
    }
  }

  lemma AlignedIs(network: string -> bool, forward: seq<Record>, reverse: seq<Record>, policy: Policy, ip: string)
    ensures Counts(ViewOf(network, forward, reverse, policy), ip) <==>
            PointsBack(network, forward, reverse, policy, ip)
  {
    var v := ViewOf(network, forward, reverse, policy);
    ViewSets(network, forward, reverse, policy, ip);
    var ptrs := Listing(Get(v.ptrs, ip));
    ListingMembers(Get(v.ptrs, ip));
    ListingEmpty(Get(v.ptrs, ip));
    if i :| 0 <= i < |ptrs| && Allowed(policy, ptrs[i]) && ip in Get(v.byName, ptrs[i]) {
      assert ptrs[i] in ptrs;
      ForwardIndexes(network, forward, ip, ptrs[i]);
    }
    if PointsBack(network, forward, reverse, policy, ip) {
      var t :| t in TargetsOf(network, reverse, ip) && Allowed(policy, t) && ip in AddressesOf(network, forward, t);
      ForwardIndexes(network, forward, ip, t);
      assert t in ptrs;
      var i :| 0 <= i < |ptrs| && ptrs[i] == t;
      assert Aligned(v.byName, policy, ip, ptrs);
    }
  }

  lemma ForwardKeys(network: string -> bool, forward: seq<Record>, reverse: seq<Record>, policy: Policy)
    ensures ViewOf(network, forward, reverse, policy).byIp.Keys == ForwardIps(network, forward)
    ensures ViewOf(network, forward, reverse, policy).ptrs.Keys == ReverseIps(network, reverse)
  {
    var v := ViewOf(network, forward, reverse, policy);
    forall ip
      ensures ip in v.byIp <==> ip in ForwardIps(network, forward)
      ensures ip in v.ptrs <==> ip in ReverseIps(network, reverse)
    {
      ViewSets(network, forward, reverse, policy, ip);
      if rr :| rr in forward && rr.A? && IsAddress(rr.address) && network(rr.address) && rr.address == ip {
        assert Text.ToLower(rr.name) in NamesOf(network, forward, ip);
      }
      if rr :| rr in reverse && PtrAddress(network, rr) == Some(ip) {
        assert Text.ToLower(rr.target) in TargetsOf(network, reverse, ip);
      }
    }
  }

  /** What is counted: the addresses of the forward records, those of the reverse zone,
      and the forward addresses that an allowed target points back to. */
  lemma CountsAre(network: string -> bool, forward: seq<Record>, reverse: seq<Record>, policy: Policy)
    ensures var r := ReportOf(ViewOf(network, forward, reverse, policy));
            && r.forwardAddresses == |ForwardIps(network, forward)|
            && r.reverseAddresses == |ReverseIps(network, reverse)|
            && r.aligned ==
                 |set ip | ip in ForwardIps(network, forward) && PointsBack(network, forward, reverse, policy, ip)|
  {
    var v := ViewOf(network, forward, reverse, policy);
    ForwardKeys(network, forward, reverse, policy);
    var ips := Listing(v.byIp.Keys);
    ListingMembers(v.byIp.Keys);
    ListingDistinct(v.byIp.Keys);
    var counting := set ip | ip in ForwardIps(network, forward) && PointsBack(network, forward, reverse, policy, ip);
    forall ip ensures ip in counting <==> ip in ips && Counts(v, ip) {
      AlignedIs(network, forward, reverse, policy, ip);
    }
    AlignedCount(v, ips, counting);
    ReportCounts(v);
  }

  lemma ReportCounts(v: View)
    ensures var r := ReportOf(v);
            && r.forwardAddresses == |v.byIp.Keys| && r.reverseAddresses == |v.ptrs.Keys|
            && r.aligned == Lines(v, Listing(v.byIp.Keys)).aligned
  {
    assert |v.byIp| == |v.byIp.Keys| && |v.ptrs| == |v.ptrs.Keys|;
  }
}
