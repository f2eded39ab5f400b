/** Reading the newest matching records of the audit log through a ring. */
module AuditLog {
  import opened Options
  import Ring
  import Text

  /** The fields of an audit record that filters look at. */
  datatype Fields = Fields(zone: string, provider: string, actor: string)

  datatype Filter = Filter(zone: string, provider: string, actor: string, limit: nat)

  /** The log file: its lines as far as they could be read. */
  datatype LogFile = Missing | Unreadable | Lines(lines: seq<string>, complete: bool)

  datatype Page = Page(events: seq<string>, skipped: nat)

  /** `normalizeAuditZone` */
  function NormalizeZone(zone: string): string {
    Text.TrimSuffix(Text.ToLower(Text.TrimSpace(zone)), ".")
  }

  function Provider(fields: Fields): string {
    if fields.provider == "" then "rilldns" else fields.provider
  }

  predicate Passes(filter: Filter, fields: Fields) {
    && (filter.zone == "" || NormalizeZone(fields.zone) == filter.zone)
    && (filter.provider == "" || Provider(fields) == filter.provider)
    && (filter.actor == "" || fields.actor == filter.actor)
  }

  predicate IsBlank(line: string) {
    Text.TrimSpace(line) == ""
  }

  /** A line that is a record and passes the filter. */
  predicate IsMatch(parse: string -> Option<Fields>, filter: Filter, line: string) {
    !IsBlank(line) && parse(line).Some? && Passes(filter, parse(line).value)
  }

  /** A line that is neither blank nor a record. */
  predicate IsSkipped(parse: string -> Option<Fields>, line: string) {
    !IsBlank(line) && parse(line).None?
  }

  /** The records in the log that pass the filter, in the order they were written. */
  function Matching(parse: string -> Option<Fields>, filter: Filter, lines: seq<string>): seq<string> {
    if lines == [] then []
    else
      var before, line := Matching(parse, filter, lines[..|lines| - 1]), lines[|lines| - 1];
      if IsMatch(parse, filter, line) then before + [line] else before
  }

  /** How many lines are skipped. */
  function Skipped(parse: string -> Option<Fields>, lines: seq<string>): nat {
    if lines == [] then 0
    else Skipped(parse, lines[..|lines| - 1]) + if IsSkipped(parse, lines[|lines| - 1]) then 1 else 0
  }

  function Reversed(s: seq<string>): (r: seq<string>)
    ensures |r| == |s| && forall i :: 0 <= i < |s| ==> r[i] == s[|s| - 1 - i]
  {
    seq(|s|, i requires 0 <= i < |s| => s[|s| - 1 - i])
  }

  /** The ring after some records were put in it: while it fills, the next slot is the
      end of it. */
  ghost predicate Filled(ring: seq<string>, next: nat, limit: nat, added: seq<string>) {
    && next < limit
    && (|ring| < limit ==> next == |ring| && ring == added)
    && (|ring| >= limit ==> Ring.Holds(ring, next, limit, added))
  }

  /** Putting one more record in the ring. */
  method Put(
    ring: seq<string>, next: nat, limit: nat, event: string, ghost added: seq<string>)
    returns (ring': seq<string>, next': nat)
    requires limit > 0 && Filled(ring, next, limit, added)
    ensures Filled(ring', next', limit, added + [event])
  {
    Ring.Successor(next, limit);
    if |ring| < limit {
      ring' := ring + [event];
    } else {
      Ring.Overwrite(ring, next, limit, added, event);
      ring' := ring[next := event];
    }
    next' := (next + 1) % limit;
  }

  lemma Multiples(n: nat, a: nat, b: nat)
    requires a < b
    ensures a * n + n <= b * n
  {
    assert (b - a - 1) * n >= 0;
    assert b * n == a * n + n + (b - a - 1) * n;
  }

  /** A remainder is determined by any quotient that leaves less than the divisor. */
  lemma Remainder(x: nat, q: nat, r: nat, n: nat)
    requires r < n && x == q * n + r
    ensures x % n == r
  {
    var q', r' := x / n, x % n;
    assert x == q' * n + r';
    if q < q' {
      Multiples(n, q, q');
    } else if q' < q {
      Multiples(n, q', q);
    }
  }

  lemma Wrapped(next: nat, i: nat, n: nat)
    requires i < n && next <= n
    ensures (next - 1 - i + 2 * n) % n == if next > i then next - 1 - i else next - 1 - i + n
  {
    if next > i {
      Remainder(next - 1 - i + 2 * n, 2, next - 1 - i, n);
    } else {
      Remainder(next - 1 - i + 2 * n, 1, next - 1 - i + n, n);
    }
  }

  /** Walking backwards from the slot written last gives the newest record first. */
  method NewestFirst(ring: seq<string>, next: nat, limit: nat, ghost added: seq<string>) returns (events: seq<string>)
    requires limit > 0 && Filled(ring, next, limit, added)
    ensures events == Reversed(Ring.Last(added, limit))
  {
    events := [];
    ghost var newest := Ring.Last(added, limit);
    for i := 0 to |ring|
      invariant |events| == i && |ring| == |newest|
      invariant forall j :: 0 <= j < i ==> events[j] == newest[|newest| - 1 - j]
    {
      Wrapped(next, i, |ring|);
      events := events + [ring[(next - 1 - i + 2 * |ring|) % |ring|]];
    }
  }

  lemma CollectStep(parse: string -> Option<Fields>, filter: Filter, lines: seq<string>, i: nat)
    requires i < |lines|
    ensures Matching(parse, filter, lines[..i + 1]) ==
            Matching(parse, filter, lines[..i]) + if IsMatch(parse, filter, lines[i]) then [lines[i]] else []
    ensures Skipped(parse, lines[..i + 1]) == Skipped(parse, lines[..i]) + if IsSkipped(parse, lines[i]) then 1 else 0
  {
    assert lines[..i + 1][..i] == lines[..i];
  }

  /** What one line of the log is. */
  method ReadLine(parse: string -> Option<Fields>, filter: Filter, line: string) returns (matches: bool, skipped: bool)
    ensures matches <==> IsMatch(parse, filter, line)
    ensures skipped <==> IsSkipped(parse, line)
  {
    if IsBlank(line) {
      return false, false;
    }
    var fields := parse(line);
    if fields.None? {
      return false, true;
    }
    return Passes(filter, fields.value), false;
  }

  method Collect(
    parse: string -> Option<Fields>, filter: Filter, lines: seq<string>)
    returns (ring: seq<string>, next: nat, skipped: nat)
    requires filter.limit > 0
    ensures Filled(ring, next, filter.limit, Matching(parse, filter, lines)) && skipped == Skipped(parse, lines)
  {
    ring, next, skipped := [], 0, 0;
    ghost var added := [];
    for i := 0 to |lines|
      invariant added == Matching(parse, filter, lines[..i]) && Filled(ring, next, filter.limit, added)
      invariant skipped == Skipped(parse, lines[..i])
    {
      CollectStep(parse, filter, lines, i);
      var matches, skip := ReadLine(parse, filter, lines[i]);
      if skip {
        skipped := skipped + 1;
      }
      if matches {
        ring, next := Put(ring, next, filter.limit, lines[i], added);
        added := added + [lines[i]];
      }
    }
    assert lines[..|lines|] == lines;
  }

  /** The last records that pass the filter, newest first. */
  function PageOf(parse: string -> Option<Fields>, filter: Filter, file: LogFile): Option<Page> {
    match file
    case Missing => Some(Page([], 0))
    case Unreadable => None
    case Lines(lines, complete) =>
      if !complete then None
      else Some(Page(Reversed(Ring.Last(Matching(parse, filter, lines), filter.limit)), Skipped(parse, lines)))
  }

  /** `readAudit`: the last records that pass the filter, newest first. A missing log is
      empty; one that cannot be read to its end is an error. */
  method ReadAudit(parse: string -> Option<Fields>, filter: Filter, file: LogFile) returns (r: Option<Page>)
    requires filter.limit > 0
    ensures r == PageOf(parse, filter, file)
  {
    match file
    case Missing => return Some(Page([], 0));
    case Unreadable => return None;
    case Lines(lines, complete) =>
      var ring, next, skipped := Collect(parse, filter, lines);
      if !complete {
        return None;
      }
      var events := NewestFirst(ring, next, filter.limit, Matching(parse, filter, lines));
      return Some(Page(events, skipped));
  }

  // --------------------------------------------------- the page, by the lines

  /** A line that a filter asks for, by its fields; records without a provider are those
      of RillDNS itself. */
  ghost predicate Wanted(parse: string -> Option<Fields>, filter: Filter, line: string) {
    && Text.TrimSpace(line) != "" && parse(line).Some?
    && var f := parse(line).value;
       && (filter.zone != "" ==> Text.TrimSuffix(Text.ToLower(Text.TrimSpace(f.zone)), ".") == filter.zone)
       && (filter.provider != "" ==>
             f.provider == filter.provider || (f.provider == "" && filter.provider == "rilldns"))
       && (filter.actor != "" ==> f.actor == filter.actor)
  }

  ghost function SkippedPlaces(parse: string -> Option<Fields>, lines: seq<string>): set<nat> {
    set p: nat | p < |lines| && Text.TrimSpace(lines[p]) != "" && parse(lines[p]).None?
  }

  /** A page shows lines of the log, at these places: newest first, all of them wanted,
      at most `limit`, and no wanted line left out that is newer than the oldest shown. */
  ghost predicate Shows(
    parse: string -> Option<Fields>, filter: Filter, lines: seq<string>, page: Page, places: seq<nat>)
  {
    && |places| == |page.events| <= filter.limit
    && (forall i :: 0 <= i < |places| ==>
          places[i] < |lines| && page.events[i] == lines[places[i]] && Wanted(parse, filter, lines[places[i]]))
    && (forall i, j :: 0 <= i < j < |places| ==> places[i] > places[j])
    && (forall p: nat :: p < |lines| && Wanted(parse, filter, lines[p]) ==>
          p in places || (|places| == filter.limit && forall i :: 0 <= i < |places| ==> p < places[i]))
    && page.skipped == |SkippedPlaces(parse, lines)|
  }

  lemma WantedLine(parse: string -> Option<Fields>, filter: Filter, line: string)
    ensures IsMatch(parse, filter, line) <==> Wanted(parse, filter, line)
  {
  }

  /** The places of the wanted lines, in order. */
  ghost function Places(parse: string -> Option<Fields>, filter: Filter, lines: seq<string>): seq<nat> {
    if lines == [] then []
    else
      var n := |lines| - 1;
      Places(parse, filter, lines[..n]) + if Wanted(parse, filter, lines[n]) then [n] else []
  }

  ghost predicate Ascending(places: seq<nat>, n: nat) {
    && (forall i :: 0 <= i < |places| ==> places[i] < n)
    && (forall i, j :: 0 <= i < j < |places| ==> places[i] < places[j])
  }

  lemma AscendingNext(places: seq<nat>, n: nat)
    requires Ascending(places, n)
    ensures Ascending(places, n + 1) && Ascending(places + [n], n + 1)
  {
  }

  lemma {:induction false} PlacesAscend(parse: string -> Option<Fields>, filter: Filter, lines: seq<string>)
    ensures Ascending(Places(parse, filter, lines), |lines|)
  {
    if lines != [] {
      var n := |lines| - 1;
      PlacesAscend(parse, filter, lines[..n]);
      AscendingNext(Places(parse, filter, lines[..n]), n);
    }
  }

  /** The matching records are the lines at these places. */
  lemma {:induction false} MatchingPlaces(parse: string -> Option<Fields>, filter: Filter, lines: seq<string>)
    ensures var places, matching := Places(parse, filter, lines), Matching(parse, filter, lines);
            && |places| == |matching|
            && (forall i :: 0 <= i < |places| ==> places[i] < |lines| && matching[i] == lines[places[i]])
  {
    if lines != [] {
      var n := |lines| - 1;
      MatchingPlaces(parse, filter, lines[..n]);
      WantedLine(parse, filter, lines[n]);
      var before := Places(parse, filter, lines[..n]);
      forall i | 0 <= i < |before| ensures before[i] < n && Matching(parse, filter, lines)[i] == lines[before[i]] {
        assert lines[..n][before[i]] == lines[before[i]];
      }
    }
  }

  lemma {:induction false} WantedPlaces(parse: string -> Option<Fields>, filter: Filter, lines: seq<string>, p: nat)
    ensures p in Places(parse, filter, lines) <==> p < |lines| && Wanted(parse, filter, lines[p])
  {
    if lines != [] {
      var n := |lines| - 1;
      WantedPlaces(parse, filter, lines[..n], p);
      assert p < n ==> lines[..n][p] == lines[p];
    }
  }

  lemma {:induction false} SkippedCount(
    parse: string -> Option<Fields>, lines: seq<string>, skipped: set<nat>)
    requires forall p: nat :: p in skipped <==> p < |lines| && IsSkipped(parse, lines[p])
    ensures Skipped(parse, lines) == |skipped|
  {
    if lines == [] {
      assert skipped == {};
    } else {
      var n := |lines| - 1;
      forall p: nat ensures p in skipped - {n} <==> p < n && IsSkipped(parse, lines[..n][p]) {
        assert p < n ==> lines[..n][p] == lines[p];
      }
      SkippedCount(parse, lines[..n], skipped - {n});
    }
  }

  /** The last n of ascending places, newest first. */
  lemma NewestPlaces(all: seq<nat>, n: nat) returns (places: seq<nat>)
    requires n <= |all| && forall i, j :: 0 <= i < j < |all| ==> all[i] < all[j]
    ensures |places| == n && forall i :: 0 <= i < n ==> places[i] == all[|all| - 1 - i]
    ensures forall i, j :: 0 <= i < j < n ==> places[i] > places[j]
    ensures forall p :: p in all ==> p in places || (n < |all| && forall i :: 0 <= i < n ==> p < places[i])
  {
    places := seq(n, i requires 0 <= i < n => all[|all| - 1 - i]);
    forall p | p in all ensures p in places || (n < |all| && forall i :: 0 <= i < n ==> p < places[i]) {
      var k :| 0 <= k < |all| && all[k] == p;
      if k >= |all| - n {
        assert places[|all| - 1 - k] == p;
      }
    }
  }

  /** The places of the lines of a page. */
  ghost predicate NewestOf(all: seq<nat>, limit: nat, places: seq<nat>) {
    && |places| == (if |all| <= limit then |all| else limit)
    && forall i :: 0 <= i < |places| ==> places[i] == all[|all| - 1 - i]
  }

  lemma PageEvents(parse: string -> Option<Fields>, filter: Filter, lines: seq<string>, places: seq<nat>)
    requires filter.limit > 0 && NewestOf(Places(parse, filter, lines), filter.limit, places)
    ensures var page := PageOf(parse, filter, Lines(lines, true));
            && page.Some? && page.value.skipped == Skipped(parse, lines) && |page.value.events| == |places|
            && forall i :: 0 <= i < |places| ==>
                 places[i] < |lines| && page.value.events[i] == lines[places[i]]
  {
    MatchingPlaces(parse, filter, lines);
  }

  lemma PlacesWanted(parse: string -> Option<Fields>, filter: Filter, lines: seq<string>)
    ensures forall p: nat :: p in Places(parse, filter, lines) <==> p < |lines| && Wanted(parse, filter, lines[p])
  {
    forall p: nat
      ensures p in Places(parse, filter, lines) <==> p < |lines| && Wanted(parse, filter, lines[p])
    {
      WantedPlaces(parse, filter, lines, p);
    }
  }

  /** A page shows the last `limit` wanted lines of a log that was read to its end. */
  lemma PageShows(parse: string -> Option<Fields>, filter: Filter, lines: seq<string>) returns (places: seq<nat>)
    requires filter.limit > 0
    ensures PageOf(parse, filter, Lines(lines, true)).Some?
    ensures Shows(parse, filter, lines, PageOf(parse, filter, Lines(lines, true)).value, places)
  {
    var all := Places(parse, filter, lines);
    PlacesAscend(parse, filter, lines);
    places := NewestPlaces(all, if |all| <= filter.limit then |all| else filter.limit);
    PageEvents(parse, filter, lines, places);
    PlacesWanted(parse, filter, lines);
    SkippedCount(parse, lines, SkippedPlaces(parse, lines));
    ShowsNewest(parse, filter, lines, PageOf(parse, filter, Lines(lines, true)).value, all, places);
  }

  lemma ShowsNewest(
    parse: string -> Option<Fields>, filter: Filter, lines: seq<string>, page: Page, all: seq<nat>, places: seq<nat>)
    requires NewestOf(all, filter.limit, places) && |page.events| == |places|
    requires forall p: nat :: p in all <==> p < |lines| && Wanted(parse, filter, lines[p])
    requires forall i :: 0 <= i < |places| ==> places[i] < |lines| && page.events[i] == lines[places[i]]
    requires forall i, j :: 0 <= i < j < |places| ==> places[i] > places[j]
    requires forall p :: p in all ==>
        p in places || (|places| < |all| && forall i :: 0 <= i < |places| ==> p < places[i])
    requires page.skipped == |SkippedPlaces(parse, lines)|
    ensures Shows(parse, filter, lines, page, places)
  {
    forall i | 0 <= i < |places| ensures Wanted(parse, filter, lines[places[i]]) {
      assert places[i] in all;
    }
  }
}
