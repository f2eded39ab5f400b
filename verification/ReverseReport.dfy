/** The report that compares forward A records with a reverse zone. */
module ReverseReport {
  import opened Options
  import opened ReverseNames
  import opened Listings
  import Text

  datatype Record = A(name: string, address: string) | Ptr(labels: seq<string>, target: string) | Other

  datatype Policy = Policy(excludedSuffixes: seq<string>, allowedNames: set<string>)

  datatype Kind =
    | MissingPtrSharedName | MissingPtrAmbiguous | MissingPtrNoAllowedName
    | DisallowedPtrTarget | PtrWithoutA | PtrAMismatch | MultiplePtr | PtrWithoutForwardAddress

  datatype Proposal = Proposal(ip: string, name: string)

  /** A finding; `resolvesTo` are the addresses its resolution text names. */
  datatype Finding = Finding(kind: Kind, ip: string, ptr: seq<string>, forward: seq<string>, resolvesTo: seq<string>)

  datatype Report = Report(
    forwardAddresses: nat, reverseAddresses: nat, aligned: nat, proposals: seq<Proposal>, findings: seq<Finding>)

  // ------------------------------------------------------------- the indexes

  type Index = map<string, set<string>>

  function Get(m: Index, k: string): set<string> {
    if k in m then m[k] else {}
  }

  function Add(m: Index, k: string, v: string): Index {
    m[k := Get(m, k) + {v}]
  }

  predicate Within(network: string -> bool, ip: string) {
    IsAddress(ip) && network(ip)
  }

  function ByIp(network: string -> bool, rrs: seq<Record>): Index {
    if rrs == [] then map[]
    else
      var before, rr := ByIp(network, rrs[..|rrs| - 1]), rrs[|rrs| - 1];
      if rr.A? && Within(network, rr.address) then Add(before, rr.address, Text.ToLower(rr.name)) else before
  }

  function ByName(network: string -> bool, rrs: seq<Record>): Index {
    if rrs == [] then map[]
    else
      var before, rr := ByName(network, rrs[..|rrs| - 1]), rrs[|rrs| - 1];
      if rr.A? && Within(network, rr.address) then Add(before, Text.ToLower(rr.name), rr.address) else before
  }

  /** The address a PTR record is about, if it counts. */
  function PtrAddress(network: string -> bool, rr: Record): Option<string> {
    if !rr.Ptr? then None
    else
      var ip := ReverseIPv4(rr.labels);
      if ip.Some? && Within(network, ip.value) then ip else None
  }

  function PtrsByIp(network: string -> bool, rrs: seq<Record>): Index {
    if rrs == [] then map[]
    else
      var before, rr := PtrsByIp(network, rrs[..|rrs| - 1]), rrs[|rrs| - 1];
      var ip := PtrAddress(network, rr);
      if ip.Some? then Add(before, ip.value, Text.ToLower(rr.target)) else before
  }

  // ------------------------------------------------------------------ policy

  predicate Allowed(policy: Policy, name: string) {
    var full := Text.ToLower(Text.Fqdn(name));
    full in policy.allowedNames
    || forall i :: 0 <= i < |policy.excludedSuffixes| ==>
        !Text.HasSuffix(full, Text.ToLower(Text.Fqdn(policy.excludedSuffixes[i])))
  }

  /** `Policy.allowed` */
  method IsAllowed(policy: Policy, name: string) returns (ok: bool)
    ensures ok <==> Allowed(policy, name)
  {
    var full := Text.ToLower(Text.Fqdn(name));
    if full in policy.allowedNames {
      return true;
    }
    for i := 0 to |policy.excludedSuffixes|
      invariant forall j :: 0 <= j < i ==> !Text.HasSuffix(full, Text.ToLower(Text.Fqdn(policy.excludedSuffixes[j])))
    {
      if Text.HasSuffix(full, Text.ToLower(Text.Fqdn(policy.excludedSuffixes[i]))) {
        return false;
      }
    }
    return true;
  }

  function Eligible(policy: Policy, names: seq<string>): (r: seq<string>)
    ensures forall x :: x in r <==> x in names && Allowed(policy, x)
  {
    if names == [] then []
    else
      var before, last := Eligible(policy, names[..|names| - 1]), names[|names| - 1];
      if Allowed(policy, last) then before + [last] else before
  }

  /** `Policy.filter` */
  method FilterNames(policy: Policy, names: seq<string>) returns (r: seq<string>)
    ensures r == Eligible(policy, names)
  {
    r := [];
    for i := 0 to |names|
      invariant r == Eligible(policy, names[..i])
    {
      assert names[..i + 1][..i] == names[..i];
      var ok := IsAllowed(policy, names[i]);
      if ok {
        r := r + [names[i]];
      }
    }
    assert names[..|names|] == names;
  }

  /** `canonicalName` */
  function CanonicalName(names: seq<string>): string {
    if |names| == 1 then names[0] else ""
  }

  // ------------------------------------------------------- one address at a time

  /** Everything the report is made from. */
  datatype View = View(byIp: Index, byName: Index, ptrs: Index, policy: Policy)

  /** The name a missing PTR could point to, and "" if there is not exactly one. */
  function CandidateOf(policy: Policy, names: seq<string>): string {
    CanonicalName(Eligible(policy, names))
  }

  /** What is reported for an address without PTR: a proposal or a finding. */
  function MissingPtr(byName: Index, policy: Policy, ip: string, names: seq<string>): (seq<Proposal>, seq<Finding>) {
    var c := CandidateOf(policy, names);
    if c != "" && |Get(byName, c)| == 1 then ([Proposal(ip, c)], [])
    else
      var kind := if c != "" then MissingPtrSharedName
                  else if Eligible(policy, names) == [] then MissingPtrNoAllowedName
                  else MissingPtrAmbiguous;
      ([], [Finding(kind, ip, [], names, [])])
  }

  /** The finding about one PTR target of an address, if it is not aligned. */
  function PtrFinding(byName: Index, policy: Policy, ip: string, names: seq<string>, ptr: string): seq<Finding> {
    if !Allowed(policy, ptr) then [Finding(DisallowedPtrTarget, ip, [ptr], names, [])]
    else if ip in Get(byName, ptr) then []
    else [Finding(if Get(byName, ptr) != {} then PtrAMismatch else PtrWithoutA, ip, [ptr], names, [])]
  }

  function PtrFindings(byName: Index, policy: Policy, ip: string, names: seq<string>, ptrs: seq<string>): seq<Finding> {
    if ptrs == [] then []
    else
      PtrFindings(byName, policy, ip, names, ptrs[..|ptrs| - 1]) +
      PtrFinding(byName, policy, ip, names, ptrs[|ptrs| - 1])
  }

  ghost predicate Aligned(byName: Index, policy: Policy, ip: string, ptrs: seq<string>) {
    exists i :: 0 <= i < |ptrs| && Allowed(policy, ptrs[i]) && ip in Get(byName, ptrs[i])
  }

  /** What the forward loop reports for one address. */
  datatype Line = Line(proposals: seq<Proposal>, findings: seq<Finding>, aligned: nat)

  ghost function LineAt(v: View, ip: string): Line {
    var names, ptrs := Listing(Get(v.byIp, ip)), Listing(Get(v.ptrs, ip));
    if ptrs == [] then
      var missing := MissingPtr(v.byName, v.policy, ip, names);
      Line(missing.0, missing.1, 0)
    else
      var several := if |ptrs| > 1 then [Finding(MultiplePtr, ip, ptrs, names, [])] else [];
      var found := PtrFindings(v.byName, v.policy, ip, names, ptrs);
      Line([], found + several, if Aligned(v.byName, v.policy, ip, ptrs) then 1 else 0)
  }

  ghost function Lines(v: View, ips: seq<string>): Line {
    if ips == [] then Line([], [], 0)
    else
      Joined(Lines(v, ips[..|ips| - 1]), LineAt(v, ips[|ips| - 1]))
  }

  function Joined(a: Line, b: Line): Line {
    Line(a.proposals + b.proposals, a.findings + b.findings, a.aligned + b.aligned)
  }

  /** The first of some PTR targets that has an A record. */
  function Resolving(byName: Index, ptrs: seq<string>): Option<string> {
    if ptrs == [] then None else if Get(byName, ptrs[0]) != {} then Some(ptrs[0]) else Resolving(byName, ptrs[1..])
  }

  /** What is reported for an address that only the reverse zone has. */
  ghost function ReverseOnly(v: View, ip: string): Finding {
    var ptrs := Listing(Get(v.ptrs, ip));
    match Resolving(v.byName, ptrs)
    case None => Finding(PtrWithoutForwardAddress, ip, ptrs, [], [])
    case Some(ptr) => Finding(PtrAMismatch, ip, ptrs, [], Listing(Get(v.byName, ptr)))
  }

  ghost function ReverseFindings(v: View, ips: seq<string>): seq<Finding> {
    if ips == [] then []
    else
      var before, ip := ReverseFindings(v, ips[..|ips| - 1]), ips[|ips| - 1];
      if ip in v.byIp then before else before + [ReverseOnly(v, ip)]
  }

  ghost function ReportOf(v: View): Report {
    Combined(|v.byIp|, |v.ptrs|, Lines(v, Listing(v.byIp.Keys)), ReverseFindings(v, Listing(v.ptrs.Keys)))
  }

  function Combined(forwardAddresses: nat, reverseAddresses: nat, lines: Line, more: seq<Finding>): Report {
    Report(forwardAddresses, reverseAddresses, lines.aligned, lines.proposals, lines.findings + more)
  }

  function ViewOf(network: string -> bool, forward: seq<Record>, reverse: seq<Record>, policy: Policy): View {
    View(ByIp(network, forward), ByName(network, forward), PtrsByIp(network, reverse), policy)
  }

  // ------------------------------------------------------------ the algorithm

  function Flatten(zones: seq<seq<Record>>): seq<Record> {
    if zones == [] then [] else Flatten(zones[..|zones| - 1]) + zones[|zones| - 1]
  }

  lemma IndexNext(network: string -> bool, rrs: seq<Record>, rr: Record)
    ensures ByIp(network, rrs + [rr]) ==
            if rr.A? && Within(network, rr.address) then Add(ByIp(network, rrs), rr.address, Text.ToLower(rr.name))
                else ByIp(network, rrs)
    ensures ByName(network, rrs + [rr]) ==
            if rr.A? && Within(network, rr.address) then Add(ByName(network, rrs), Text.ToLower(rr.name), rr.address)
                else ByName(network, rrs)
  {
    assert (rrs + [rr])[..|rrs|] == rrs;
  }

  method IndexZone(
    network: string -> bool, ghost done: seq<Record>, zone: seq<Record>, startIp: Index, startName: Index)
    returns (byIp: Index, byName: Index)
    requires startIp == ByIp(network, done) && startName == ByName(network, done)
    ensures byIp == ByIp(network, done + zone) && byName == ByName(network, done + zone)
  {
    byIp, byName := startIp, startName;
    assert done + zone[..0] == done;
    for i := 0 to |zone|
      invariant byIp == ByIp(network, done + zone[..i]) && byName == ByName(network, done + zone[..i])
    {
      assert done + zone[..i + 1] == (done + zone[..i]) + [zone[i]];
      IndexNext(network, done + zone[..i], zone[i]);
      if zone[i].A? && Within(network, zone[i].address) {
        byIp := Add(byIp, zone[i].address, Text.ToLower(zone[i].name));
        byName := Add(byName, Text.ToLower(zone[i].name), zone[i].address);
      }
    }
    assert zone[..|zone|] == zone;
  }

  method IndexForward(network: string -> bool, zones: seq<seq<Record>>) returns (byIp: Index, byName: Index)
    ensures byIp == ByIp(network, Flatten(zones)) && byName == ByName(network, Flatten(zones))
  {
    byIp, byName := map[], map[];
    for z := 0 to |zones|
      invariant byIp == ByIp(network, Flatten(zones[..z])) && byName == ByName(network, Flatten(zones[..z]))
    {
      assert zones[..z + 1][..z] == zones[..z];
      byIp, byName := IndexZone(network, Flatten(zones[..z]), zones[z], byIp, byName);
    }
    assert zones[..|zones|] == zones;
  }

  method IndexPtrs(network: string -> bool, rrs: seq<Record>) returns (ptrs: Index)
    ensures ptrs == PtrsByIp(network, rrs)
  {
    ptrs := map[];
    for i := 0 to |rrs|
      invariant ptrs == PtrsByIp(network, rrs[..i])
    {
      assert rrs[..i + 1][..i] == rrs[..i];
      var ip := PtrAddress(network, rrs[i]);
      if ip.Some? {
        ptrs := Add(ptrs, ip.value, Text.ToLower(rrs[i].target));
      }
    }
    assert rrs[..|rrs|] == rrs;
  }

  /** The loop body over the PTR targets of an address. */
  method ComparePtr(v: View, ip: string, names: seq<string>, ptr: string) returns (found: seq<Finding>, aligned: bool)
    ensures found == PtrFinding(v.byName, v.policy, ip, names, ptr)
    ensures aligned <==> Allowed(v.policy, ptr) && ip in Get(v.byName, ptr)
  {
    var ok := IsAllowed(v.policy, ptr);
    if !ok {
      return [Finding(DisallowedPtrTarget, ip, [ptr], names, [])], false;
    }
    if ip in Get(v.byName, ptr) {
      return [], true;
    }
    return [Finding(if Get(v.byName, ptr) != {} then PtrAMismatch else PtrWithoutA, ip, [ptr], names, [])], false;
  }

  method ComparePtrs(
    v: View, ip: string, names: seq<string>, ptrs: seq<string>)
    returns (findings: seq<Finding>, aligned: bool)
    ensures findings == PtrFindings(v.byName, v.policy, ip, names, ptrs)
    ensures aligned <==> Aligned(v.byName, v.policy, ip, ptrs)
  {
    findings, aligned := [], false;
    for i := 0 to |ptrs|
      invariant findings == PtrFindings(v.byName, v.policy, ip, names, ptrs[..i])
      invariant aligned <==> Aligned(v.byName, v.policy, ip, ptrs[..i])
    {
      assert ptrs[..i + 1][..i] == ptrs[..i];
      AlignedNext(v.byName, v.policy, ip, ptrs, i);
      var found, fits := ComparePtr(v, ip, names, ptrs[i]);
      findings, aligned := findings + found, aligned || fits;
    }
    assert ptrs[..|ptrs|] == ptrs;
  }

  lemma AlignedNext(byName: Index, policy: Policy, ip: string, ptrs: seq<string>, i: nat)
    requires i < |ptrs|
    ensures Aligned(byName, policy, ip, ptrs[..i + 1]) <==>
            Aligned(byName, policy, ip, ptrs[..i]) || (Allowed(policy, ptrs[i]) && ip in Get(byName, ptrs[i]))
  {
    assert ptrs[..i + 1] == ptrs[..i] + [ptrs[i]];
    if Aligned(byName, policy, ip, ptrs[..i]) {
      var j :| 0 <= j < i && Allowed(policy, ptrs[..i][j]) && ip in Get(byName, ptrs[..i][j]);
      assert ptrs[..i + 1][j] == ptrs[..i][j];
    }
    if Aligned(byName, policy, ip, ptrs[..i + 1]) {
      var j :| 0 <= j < i + 1 && Allowed(policy, ptrs[..i + 1][j]) && ip in Get(byName, ptrs[..i + 1][j]);
      assert j < i ==> ptrs[..i][j] == ptrs[..i + 1][j];
    }
    assert ptrs[..i + 1][i] == ptrs[i];
  }

  method CompareAddress(v: View, ip: string) returns (line: Line)
    ensures line == LineAt(v, ip)
  {
    var names := SortedList(Get(v.byIp, ip));
    var ptrs := SortedList(Get(v.ptrs, ip));
    if |ptrs| == 0 {
      var eligible := FilterNames(v.policy, names);
      var candidate := CanonicalName(eligible);
      if candidate != "" {
        if |Get(v.byName, candidate)| == 1 {
          return Line([Proposal(ip, candidate)], [], 0);
        }
        return Line([], [Finding(MissingPtrSharedName, ip, [], names, [])], 0);
      }
      var kind := if |eligible| == 0 then MissingPtrNoAllowedName else MissingPtrAmbiguous;
      return Line([], [Finding(kind, ip, [], names, [])], 0);
    }
    var findings, aligned := ComparePtrs(v, ip, names, ptrs);
    if |ptrs| > 1 {
      findings := findings + [Finding(MultiplePtr, ip, ptrs, names, [])];
    }
    return Line([], findings, if aligned then 1 else 0);
  }

  method CompareReverse(v: View, ip: string) returns (f: Finding)
    ensures f == ReverseOnly(v, ip)
  {
    var ptrs := SortedList(Get(v.ptrs, ip));
    for i := 0 to |ptrs|
      invariant Resolving(v.byName, ptrs) == Resolving(v.byName, ptrs[i..])
    {
      if Get(v.byName, ptrs[i]) != {} {
        var resolved := SortedList(Get(v.byName, ptrs[i]));
        return Finding(PtrAMismatch, ip, ptrs, [], resolved);
      }
    }
    return Finding(PtrWithoutForwardAddress, ip, ptrs, [], []);
  }

  /** `reconcile`; a subnet or a zone that does not parse is an error. */
  method Reconcile(
    forward: seq<Option<seq<Record>>>, reverse: Option<seq<Record>>, subnet: Option<string -> bool>, policy: Policy)
    returns (r: Option<Report>)
    ensures r.None? <==> subnet.None? || reverse.None? || exists i :: 0 <= i < |forward| && forward[i].None?
    ensures r.Some? ==> r.value == ReportOf(ViewOf(subnet.value, Flatten(Parsed(forward)), reverse.value, policy))
  {
    if subnet.None? {
      return None;
    }
    for i := 0 to |forward|
      invariant forall j :: 0 <= j < i ==> forward[j].Some?
    {
      if forward[i].None? {
        return None;
      }
    }
    if reverse.None? {
      return None;
    }
    var byIp, byName := IndexForward(subnet.value, Parsed(forward));
    var ptrs := IndexPtrs(subnet.value, reverse.value);
    var report := Assemble(View(byIp, byName, ptrs, policy));
    return Some(report);
  }

  function Parsed(zones: seq<Option<seq<Record>>>): seq<seq<Record>> {
    seq(|zones|, i requires 0 <= i < |zones| => if zones[i].Some? then zones[i].value else [])
  }

  method Assemble(v: View) returns (r: Report)
    ensures r == ReportOf(v)
  {
    var ips := SortedList(v.byIp.Keys);
    var total := CompareForward(v, ips);
    var reverseIps := SortedList(v.ptrs.Keys);
    var more := CompareReverses(v, reverseIps);
    return Report(|v.byIp|, |v.ptrs|, total.aligned, total.proposals, total.findings + more);
  }

  method CompareForward(v: View, ips: seq<string>) returns (total: Line)
    ensures total == Lines(v, ips)
  {
    total := Line([], [], 0);
    for i := 0 to |ips|
      invariant total == Lines(v, ips[..i])
    {
      LinesNext(v, ips, i);
      var line := CompareAddress(v, ips[i]);
      total := Joined(total, line);
    }
    assert ips[..|ips|] == ips;
  }

  lemma LinesNext(v: View, ips: seq<string>, i: nat)
    requires i < |ips|
    ensures Lines(v, ips[..i + 1]) == Joined(Lines(v, ips[..i]), LineAt(v, ips[i]))
  {
    assert ips[..i + 1][..i] == ips[..i];
  }

  method CompareReverses(v: View, ips: seq<string>) returns (more: seq<Finding>)
    ensures more == ReverseFindings(v, ips)
  {
    more := [];
    for i := 0 to |ips|
      invariant more == ReverseFindings(v, ips[..i])
    {
      ReverseNext(v, ips, i);
      if ips[i] !in v.byIp {
        var f := CompareReverse(v, ips[i]);
        more := more + [f];
      }
    }
    assert ips[..|ips|] == ips;
  }

  lemma ReverseNext(v: View, ips: seq<string>, i: nat)
    requires i < |ips|
    ensures ReverseFindings(v, ips[..i + 1]) == ReverseFindings(v, ips[..i])
            + (if ips[i] in v.byIp then [] else [ReverseOnly(v, ips[i])])
  {
    assert ips[..i + 1][..i] == ips[..i];
  }
}
