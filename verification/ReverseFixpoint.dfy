/** Applying the proposals of a report leaves nothing more to propose. */
module ReverseFixpoint {
  import opened Bags
  import opened ReverseNames
  import opened Listings
  import opened ReverseReport
  import Text

  /** The PTR record that a proposal asks for. */
  function ProposedRecord(p: Proposal): Record {
    if IsAddress(p.ip) then Ptr(ReverseLabels(p.ip), p.name) else Other
  }

  function ProposedRecords(proposals: seq<Proposal>): seq<Record> {
    seq(|proposals|, i requires 0 <= i < |proposals| => ProposedRecord(proposals[i]))
  }

  // ------------------------------------------------------- the forward index

  lemma LowerTwice(s: string)
    ensures Text.ToLower(Text.ToLower(s)) == Text.ToLower(s)
  {
  }

  ghost predicate Lowered(names: set<string>) {
    forall n :: n in names ==> Text.ToLower(n) == n
  }

  /** Addresses in the forward index are in the network, have a name, and their names
      are in lower case. */
  lemma {:induction false} ByIpMembers(network: string -> bool, rrs: seq<Record>, ip: string)
    ensures ip in ByIp(network, rrs) ==> Within(network, ip)
    ensures Lowered(Get(ByIp(network, rrs), ip))
  {
    if rrs != [] {
      ByIpMembers(network, rrs[..|rrs| - 1], ip);
      var rr := rrs[|rrs| - 1];
      if rr.A? {
        LowerTwice(rr.name);
      }
    }
  }

  /** The two forward indexes are inverse to each other. */
  lemma {:induction false} IndexesInverse(network: string -> bool, rrs: seq<Record>, ip: string, name: string)
    ensures name in Get(ByIp(network, rrs), ip) <==> ip in Get(ByName(network, rrs), name)
  {
    if rrs != [] {
      IndexesInverse(network, rrs[..|rrs| - 1], ip, name);
    }
  }

  // -------------------------------------------------------------- proposals

  /** What holds of a proposed name for an address. */
  ghost predicate Proposes(v: View, p: Proposal) {
    && Get(v.ptrs, p.ip) == {}
    && Allowed(v.policy, p.name)
    && p.name in Get(v.byIp, p.ip)
    && LineAt(v, p.ip) == Line([p], [], 0)
  }

  lemma ListingEmpty(s: set<string>)
    ensures Listing(s) == [] <==> s == {}
  {
    ListingMembers(s);
    assert |s| == 0 <==> s == {};
  }

  /** The report for an address proposes at most one PTR, for that address. */
  lemma LineProposals(v: View, ip: string)
    ensures LineAt(v, ip).proposals == []
            || (exists p: Proposal :: p.ip == ip && LineAt(v, ip).proposals == [p] && Proposes(v, p))
  {
    var names, ptrs := Listing(Get(v.byIp, ip)), Listing(Get(v.ptrs, ip));
    ListingEmpty(Get(v.ptrs, ip));
    var c := CandidateOf(v.policy, names);
    if ptrs == [] && c != "" && |Get(v.byName, c)| == 1 {
      CandidateEligible(v.policy, Get(v.byIp, ip));
      assert Proposes(v, Proposal(ip, c));
    }
  }

  lemma CandidateEligible(policy: Policy, names: set<string>)
    ensures var c := CandidateOf(policy, Listing(names));
            c != "" ==> c in names && Allowed(policy, c)
  {
    ListingMembers(names);
    var eligible := Eligible(policy, Listing(names));
    assert |eligible| == 1 ==> eligible[0] in eligible;
  }

  ghost predicate Distinct(ips: seq<string>) {
    forall i, j :: 0 <= i < j < |ips| ==> ips[i] != ips[j]
  }

  ghost predicate DistinctIps(proposals: seq<Proposal>) {
    forall i, j :: 0 <= i < j < |proposals| ==> proposals[i].ip != proposals[j].ip
  }

  /** The forward loop collects the proposals of its addresses, and no others. */
  lemma {:induction false} LinesInclude(v: View, ips: seq<string>, ip: string, p: Proposal)
    requires ip in ips && p in LineAt(v, ip).proposals
    ensures p in Lines(v, ips).proposals
  {
    var init, last := ips[..|ips| - 1], ips[|ips| - 1];
    assert Lines(v, ips).proposals == Lines(v, init).proposals + LineAt(v, last).proposals;
    if ip != last {
      assert ip in init;
      LinesInclude(v, init, ip, p);
    }
  }

  lemma {:induction false} LinesFrom(v: View, ips: seq<string>, p: Proposal)
    requires p in Lines(v, ips).proposals
    ensures p.ip in ips && Proposes(v, p)
  {
    var init, last := ips[..|ips| - 1], ips[|ips| - 1];
    assert Lines(v, ips).proposals == Lines(v, init).proposals + LineAt(v, last).proposals;
    if p in Lines(v, init).proposals {
      LinesFrom(v, init, p);
    } else {
      LineProposals(v, last);
    }
  }

  lemma {:induction false} LinesDistinct(v: View, ips: seq<string>)
    requires Distinct(ips)
    ensures DistinctIps(Lines(v, ips).proposals)
  {
    if ips != [] {
      var init, last := ips[..|ips| - 1], ips[|ips| - 1];
      LinesDistinct(v, init);
      LineProposals(v, last);
      var before, more := Lines(v, init).proposals, LineAt(v, last).proposals;
      forall i | 0 <= i < |before| ensures before[i].ip != last {
        LinesFrom(v, init, before[i]);
      }
      assert Lines(v, ips).proposals == before + more;
    }
  }

  lemma ListingDistinct(s: set<string>)
    ensures Distinct(Listing(s))
  {
    var list := Listing(s);
    forall i, j | 0 <= i < j < |list| ensures list[i] != list[j] {
      OccursTwice(list, i, j);
      ListingMembers(s);
      assert list[i] in list;
      assert multiset(s)[list[i]] == 1;
    }
  }

  // -------------------------------------------------------- the grown reverse

  function AddAll(ptrs: Index, proposals: seq<Proposal>): Index {
    if proposals == [] then ptrs
    else
      var p := proposals[|proposals| - 1];
      Add(AddAll(ptrs, proposals[..|proposals| - 1]), p.ip, p.name)
  }

  /** A proposal whose record reads back as it was proposed. */
  predicate Fitting(network: string -> bool, p: Proposal) {
    Within(network, p.ip) && Text.ToLower(p.name) == p.name
  }

  /** The PTR index after the proposed records were added to the reverse zone. */
  lemma {:induction false} Grown(network: string -> bool, reverse: seq<Record>, proposals: seq<Proposal>)
    requires forall p :: p in proposals ==> Fitting(network, p)
    ensures PtrsByIp(network, reverse + ProposedRecords(proposals)) == AddAll(PtrsByIp(network, reverse), proposals)
    decreases |proposals|
  {
    if proposals == [] {
      assert reverse + ProposedRecords(proposals) == reverse;
    } else {
      var init, p := proposals[..|proposals| - 1], proposals[|proposals| - 1];
      Grown(network, reverse, init);
      LastRecord(reverse, proposals);
      PtrNext(network, reverse + ProposedRecords(init), p);
    }
  }

  lemma LastRecord(reverse: seq<Record>, proposals: seq<Proposal>)
    requires proposals != []
    ensures reverse + ProposedRecords(proposals)
            == (reverse + ProposedRecords(proposals[..|proposals| - 1])) + [ProposedRecord(proposals[|proposals| - 1])]
  {
  }

  lemma PtrNext(network: string -> bool, rrs: seq<Record>, p: Proposal)
    requires Fitting(network, p)
    ensures PtrsByIp(network, rrs + [ProposedRecord(p)]) == Add(PtrsByIp(network, rrs), p.ip, p.name)
  {
    ReverseRoundTrip(p.ip);
    assert (rrs + [ProposedRecord(p)])[..|rrs|] == rrs;
  }

  /** Addresses without proposal keep their targets. */
  lemma {:induction false} AddAllOther(ptrs: Index, proposals: seq<Proposal>, ip: string)
    requires forall p :: p in proposals ==> p.ip != ip
    ensures ip in AddAll(ptrs, proposals) <==> ip in ptrs
    ensures Get(AddAll(ptrs, proposals), ip) == Get(ptrs, ip)
  {
    if proposals != [] {
      AddAllOther(ptrs, proposals[..|proposals| - 1], ip);
    }
  }

  /** An address with a proposal gets just the proposed name. */
  lemma {:induction false} AddAllAt(ptrs: Index, proposals: seq<Proposal>, p: Proposal)
    requires DistinctIps(proposals) && p in proposals && p.ip !in ptrs
    ensures Get(AddAll(ptrs, proposals), p.ip) == {p.name}
  {
    var init, last := proposals[..|proposals| - 1], proposals[|proposals| - 1];
    if p == last {
      AddAllOther(ptrs, init, p.ip);
    } else {
      assert p in init;
      AddAllAt(ptrs, init, p);
    }
  }

  lemma {:induction false} AddAllSize(ptrs: Index, proposals: seq<Proposal>)
    requires DistinctIps(proposals) && forall p :: p in proposals ==> p.ip !in ptrs
    ensures |AddAll(ptrs, proposals)| == |ptrs| + |proposals|
  {
    if proposals != [] {
      var init, last := proposals[..|proposals| - 1], proposals[|proposals| - 1];
      AddAllSize(ptrs, init);
      AddAllOther(ptrs, init, last.ip);
      AddNew(AddAll(ptrs, init), last.ip, last.name);
    }
  }

  lemma AddNew(m: Index, k: string, v: string)
    requires k !in m
    ensures |Add(m, k, v)| == |m| + 1
  {
    assert Add(m, k, v).Keys == m.Keys + {k};
  }

  // ------------------------------------------------------------ second report

  /** At a proposed address the new PTR is aligned and nothing is reported. */
  lemma ProposedLine(v: View, v': View, p: Proposal)
    requires Proposes(v, p) && v'.byName == v.byName && v'.policy == v.policy && Get(v'.ptrs, p.ip) == {p.name}
    requires p.ip in Get(v.byName, p.name)
    ensures LineAt(v', p.ip) == Line([], [], 1)
  {
    ListingOne(p.name);
    var names, ptrs := Listing(Get(v'.byIp, p.ip)), [p.name];
    assert ptrs[..0] == [];
    assert PtrFindings(v'.byName, v'.policy, p.ip, names, ptrs) == [] by {
      assert PtrFinding(v'.byName, v'.policy, p.ip, names, p.name) == [];
      assert PtrFindings(v'.byName, v'.policy, p.ip, names, ptrs[..0]) == [];
    }
    assert Allowed(v'.policy, ptrs[0]) && p.ip in Get(v'.byName, ptrs[0]);
  }

  ghost predicate SameForward(v: View, v': View) {
    v'.byIp == v.byIp && v'.byName == v.byName && v'.policy == v.policy
  }

  /** For every address the second line has the same findings, no proposals, and is
      aligned also where the first one had a proposal. */
  ghost predicate Settled(line: Line, line': Line) {
    line'.proposals == [] && line'.findings == line.findings && line'.aligned == line.aligned + |line.proposals|
  }

  lemma SettledJoin(a: Line, a': Line, b: Line, b': Line)
    requires Settled(a, a') && Settled(b, b')
    ensures Settled(Joined(a, b), Joined(a', b'))
  {
  }

  lemma {:induction false} LinesSettled(v: View, v': View, ips: seq<string>)
    requires forall ip :: ip in ips ==> Settled(LineAt(v, ip), LineAt(v', ip))
    ensures Settled(Lines(v, ips), Lines(v', ips))
  {
    if ips != [] {
      var init, ip := ips[..|ips| - 1], ips[|ips| - 1];
      LinesSettled(v, v', init);
      SettledJoin(Lines(v, init), Lines(v', init), LineAt(v, ip), LineAt(v', ip));
    }
  }

  /** What is known of the proposals of a report. */
  ghost predicate Sensible(v: View, p: Proposal) {
    Proposes(v, p) && p.ip in v.byIp && p.ip in Get(v.byName, p.name) && p.ip !in v.ptrs
  }

  /** The views before and after the proposals were carried out. */
  ghost predicate CarriedOut(v: View, v': View, proposals: seq<Proposal>) {
    && SameForward(v, v') && v'.ptrs == AddAll(v.ptrs, proposals)
    && DistinctIps(proposals)
    && (forall p :: p in proposals ==> Sensible(v, p))
  }

  lemma LineSettled(v: View, v': View, proposals: seq<Proposal>, ip: string)
    requires CarriedOut(v, v', proposals) && forall p :: p in LineAt(v, ip).proposals ==> p in proposals
    ensures Settled(LineAt(v, ip), LineAt(v', ip))
  {
    LineProposals(v, ip);
    if LineAt(v, ip).proposals != [] {
      var p := LineAt(v, ip).proposals[0];
      assert p in LineAt(v, ip).proposals;
      assert Sensible(v, p);
      AddAllAt(v.ptrs, proposals, p);
      ProposedLine(v, v', p);
    } else {
      forall p | p in proposals ensures p.ip != ip {
        assert Sensible(v, p);
      }
      AddAllOther(v.ptrs, proposals, ip);
      LineDepends(v, v', ip);
    }
  }

  lemma LineDepends(v: View, v': View, ip: string)
    requires SameForward(v, v') && Get(v'.ptrs, ip) == Get(v.ptrs, ip)
    ensures LineAt(v', ip) == LineAt(v, ip)
  {
  }

  lemma {:induction false} ReverseFiltered(v: View, ips: seq<string>)
    ensures ReverseFindings(v, ips) == ReverseFindings(v, Filter(ips, v.byIp.Keys))
  {
    if ips != [] {
      var init, ip := ips[..|ips| - 1], ips[|ips| - 1];
      ReverseFiltered(v, init);
      var kept := Filter(init, v.byIp.Keys);
      if ip !in v.byIp {
        assert Filter(ips, v.byIp.Keys) == kept + [ip];
        assert (kept + [ip])[..|kept|] == kept;
      }
    }
  }

  lemma {:induction false} ReverseSame(v: View, v': View, ips: seq<string>)
    requires SameForward(v, v') && forall ip :: ip in ips ==> Get(v'.ptrs, ip) == Get(v.ptrs, ip)
    ensures ReverseFindings(v', ips) == ReverseFindings(v, ips)
  {
    if ips != [] {
      ReverseSame(v, v', ips[..|ips| - 1]);
      assert Get(v'.ptrs, ips[|ips| - 1]) == Get(v.ptrs, ips[|ips| - 1]);
    }
  }

  /** The findings about reverse-only addresses are the same. */
  lemma ReverseSettled(v: View, v': View, proposals: seq<Proposal>)
    requires CarriedOut(v, v', proposals)
    ensures ReverseFindings(v', Listing(v'.ptrs.Keys)) == ReverseFindings(v, Listing(v.ptrs.Keys))
  {
    var drop := v.byIp.Keys;
    forall ip | ip !in drop ensures (ip in v'.ptrs <==> ip in v.ptrs) && Get(v'.ptrs, ip) == Get(v.ptrs, ip) {
      forall p | p in proposals ensures p.ip != ip {
        assert Sensible(v, p);
      }
      AddAllOther(v.ptrs, proposals, ip);
    }
    ReverseFiltered(v, Listing(v.ptrs.Keys));
    ReverseFiltered(v', Listing(v'.ptrs.Keys));
    SameOutside(v.ptrs.Keys, v'.ptrs.Keys, drop);
    FilteredListing(v.ptrs.Keys, v'.ptrs.Keys, drop);
    ReverseSame(v, v', Filter(Listing(v.ptrs.Keys), drop));
  }

  lemma SameOutside(a: set<string>, b: set<string>, drop: set<string>)
    requires forall x :: x !in drop ==> (x in a <==> x in b)
    ensures a - drop == b - drop
  {
  }

  lemma LinesOf(v: View, v': View, proposals: seq<Proposal>, ips: seq<string>)
    requires CarriedOut(v, v', proposals) && proposals == Lines(v, ips).proposals
    ensures Settled(Lines(v, ips), Lines(v', ips))
  {
    forall ip | ip in ips ensures Settled(LineAt(v, ip), LineAt(v', ip)) {
      forall p | p in LineAt(v, ip).proposals ensures p in proposals {
        LinesInclude(v, ips, ip, p);
      }
      LineSettled(v, v', proposals, ip);
    }
    LinesSettled(v, v', ips);
  }

  lemma ReportShape(v: View, ips: seq<string>, lines: Line, more: seq<Finding>)
    requires ips == Listing(v.byIp.Keys) && lines == Lines(v, ips) && more == ReverseFindings(v, Listing(v.ptrs.Keys))
    ensures ReportOf(v) == Combined(|v.byIp|, |v.ptrs|, lines, more)
  {
  }

  lemma SettledCombined(n: nat, m: nat, lines: Line, lines': Line, more: seq<Finding>)
    requires Settled(lines, lines')
    ensures var r := Combined(n, m, lines, more);
            Combined(n, m + |lines.proposals|, lines', more)
            == Report(r.forwardAddresses, r.reverseAddresses + |r.proposals|, r.aligned + |r.proposals|, [], r.findings)
  {
  }

  lemma ReportProposal(network: string -> bool, forward: seq<Record>, reverse: seq<Record>, policy: Policy, p: Proposal)
    requires p in ReportOf(ViewOf(network, forward, reverse, policy)).proposals
    ensures Sensible(ViewOf(network, forward, reverse, policy), p)
    ensures Fitting(network, p)
  {
    var v := ViewOf(network, forward, reverse, policy);
    LinesFrom(v, Listing(v.byIp.Keys), p);
    ListingMembers(v.byIp.Keys);
    ByIpMembers(network, forward, p.ip);
    IndexesInverse(network, forward, p.ip, p.name);
    PtrsInhabited(network, reverse, p.ip);
  }

  /** The fixpoint: with the proposed PTR records added to the reverse zone, the report
      has no proposals, the same findings in the same order, and counts each of the
      former proposals as one more reverse address, aligned. */
  lemma ProposalsSettle(network: string -> bool, forward: seq<Record>, reverse: seq<Record>, policy: Policy)
    ensures var r := ReportOf(ViewOf(network, forward, reverse, policy));
            ReportOf(ViewOf(network, forward, reverse + ProposedRecords(r.proposals), policy))
            == Report(r.forwardAddresses, r.reverseAddresses + |r.proposals|, r.aligned + |r.proposals|, [], r.findings)
  {
    var v := ViewOf(network, forward, reverse, policy);
    var proposals := ReportOf(v).proposals;
    var v' := ViewOf(network, forward, reverse + ProposedRecords(proposals), policy);
    forall p | p in proposals ensures Sensible(v, p) && Fitting(network, p) {
      ReportProposal(network, forward, reverse, policy, p);
    }
    Grown(network, reverse, proposals);
    SettledReport(v, v', proposals);
  }

  lemma SettledReport(v: View, v': View, proposals: seq<Proposal>)
    requires SameForward(v, v') && v'.ptrs == AddAll(v.ptrs, proposals) && proposals == ReportOf(v).proposals
    requires forall p :: p in proposals ==> Sensible(v, p)
    ensures var r := ReportOf(v);
            var n := |r.proposals|;
            ReportOf(v') == Report(r.forwardAddresses, r.reverseAddresses + n, r.aligned + n, [], r.findings)
  {
    var n, m, lines, lines', more := SettledParts(v, v', proposals);
    SettledCombined(n, m, lines, lines', more);
  }

  lemma SettledParts(
    v: View, v': View, proposals: seq<Proposal>)
    returns (n: nat, m: nat, lines: Line, lines': Line, more: seq<Finding>)
    requires SameForward(v, v') && v'.ptrs == AddAll(v.ptrs, proposals) && proposals == ReportOf(v).proposals
    requires forall p :: p in proposals ==> Sensible(v, p)
    ensures ReportOf(v) == Combined(n, m, lines, more)
    ensures ReportOf(v') == Combined(n, m + |lines.proposals|, lines', more)
    ensures Settled(lines, lines')
  {
    var ips := Listing(v.byIp.Keys);
    n, m, lines, lines', more :=
        |v.byIp|, |v.ptrs|, Lines(v, ips), Lines(v', ips), ReverseFindings(v, Listing(v.ptrs.Keys));
    ListingDistinct(v.byIp.Keys);
    LinesDistinct(v, ips);
    LinesOf(v, v', proposals, ips);
    ReverseSettled(v, v', proposals);
    AddAllSize(v.ptrs, proposals);
    ReportShape(v, ips, lines, more);
    ReportShape(v', ips, lines', more);
  }

  lemma {:induction false} PtrsInhabited(network: string -> bool, rrs: seq<Record>, ip: string)
    ensures ip in PtrsByIp(network, rrs) <==> Get(PtrsByIp(network, rrs), ip) != {}
  {
    if rrs != [] {
      PtrsInhabited(network, rrs[..|rrs| - 1], ip);
    }
  }
}
