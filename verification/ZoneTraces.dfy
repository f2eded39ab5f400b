/** Everything that is ever on the disk of a zone store: the states inside operations as
    well as those between them. */
module ZoneTraces {
  import opened ZoneRecords
  import opened ZoneDisk
  import opened ZoneRuns

  /** An operation on a zone, as far as it got before it ended or the process stopped. */
  datatype Operation = Operation(zone: string, expected: string, moments: seq<Disk>, event: Event)

  ghost predicate Operated(lib: Library, pre: Disk, op: Operation) {
    && AllEvolve(lib, pre, op.moments)
    && AllConfined(lib, pre, op.moments, op.zone, op.expected)
    && (if op.event.TookBack? then op.event.zone == op.zone && TakesBack(pre, op.moments, op.zone)
        else Rises(pre, op.moments, op.zone))
  }

  /** An operation of the store that was interrupted at any of its moments, or after the
      last one, is one of these; it took a content back only if it got that far. */
  lemma InterruptedOperated(
    lib: Library, pre: Disk, moments: seq<Disk>, post: Disk, zone: string, expected: string, ev: Event, n: nat)
    returns (ev': Event)
    requires Operates(lib, pre, moments, post, zone, expected, ev) && n <= |moments|
    ensures Operated(lib, pre, Operation(zone, expected, moments[..n], ev'))
    ensures ev' == Quiet || (ev' == ev && ev.TookBack?)
  {
    ev' := Quiet;
    if ev.TookBack? {
      var c :| PutBack(pre, moments, zone, c) && Serial(pre.zones[zone]) < Serial(c);
      var a: nat, b: nat :| Phases(pre, moments, zone, c, a, b) && a < b < |moments|;
      if b < n {
        ev' := ev;
        assert Phases(pre, moments[..n], zone, c, a, b);
        assert PutBack(pre, moments[..n], zone, c);
      } else {
        var from: nat := if a <= n then a else n;
        assert Phases(pre, moments[..n], zone, c, from, n);
        ForwardRises(pre, moments[..n], zone, c);
      }
    } else {
      forall i: nat | i < n ensures RisesAt(pre, moments[..n], zone, i) {
        assert RisesAt(pre, moments, zone, i);
      }
    }
  }

  // ------------------------------------------------------------------- traces

  function Final(start: Disk, ops: seq<Operation>): Disk {
    if ops == [] then start else LastOf(Final(start, ops[..|ops| - 1]), ops[|ops| - 1].moments)
  }

  /** Operations one after the other; where one was interrupted the next one starts. */
  ghost predicate Chained(lib: Library, start: Disk, ops: seq<Operation>) {
    ops == [] ||
    (Chained(lib, start, ops[..|ops| - 1]) && Operated(lib, Final(start, ops[..|ops| - 1]), ops[|ops| - 1]))
  }

  /** All states of the disk, in order. */
  function Trace(start: Disk, ops: seq<Operation>): seq<Disk> {
    if ops == [] then [start] else Trace(start, ops[..|ops| - 1]) + ops[|ops| - 1].moments
  }

  ghost predicate AlwaysThere(trace: seq<Disk>, zone: string) {
    forall i :: 0 <= i < |trace| ==> zone in trace[i].zones
  }

  ghost predicate NoneTakenBack(ops: seq<Operation>, zone: string) {
    forall k :: 0 <= k < |ops| ==> ops[k].event != TookBack(zone)
  }

  lemma {:induction false} TraceEnds(start: Disk, ops: seq<Operation>)
    ensures Trace(start, ops) != [] && Trace(start, ops)[|Trace(start, ops)| - 1] == Final(start, ops)
  {
    if ops != [] {
      TraceEnds(start, ops[..|ops| - 1]);
    }
  }

  /** Every state on the way has valid files only. */
  lemma {:induction false} TraceSound(lib: Library, start: Disk, ops: seq<Operation>, i: nat)
    requires Chained(lib, start, ops) && Sound(lib, start) && i < |Trace(start, ops)|
    ensures Sound(lib, Trace(start, ops)[i])
  {
    if ops != [] {
      var init, n := ops[..|ops| - 1], |Trace(start, ops[..|ops| - 1])|;
      if i < n {
        TraceSound(lib, start, init, i);
      } else {
        assert Trace(start, ops)[i] == ops[|ops| - 1].moments[i - n];
      }
    }
  }

  /** From each state to the next the zone keeps its content or gets a larger serial. */
  ghost predicate Stepwise(trace: seq<Disk>, zone: string) {
    forall i {:trigger StepAt(trace, zone, i)} :: 0 <= i < |trace| - 1 ==> StepAt(trace, zone, i)
  }

  ghost predicate StepAt(trace: seq<Disk>, zone: string, i: int)
    requires 0 <= i < |trace| - 1
  {
    StepRises(trace[i], trace[i + 1], zone)
  }

  lemma OtherRises(lib: Library, pre: Disk, op: Operation, zone: string)
    requires AllConfined(lib, pre, op.moments, op.zone, op.expected) && zone != op.zone
    ensures Rises(pre, op.moments, zone)
  {
    forall i: nat | i < |op.moments| ensures RisesAt(pre, op.moments, zone, i) {
      Untouched(lib, pre, op.moments[i], op.zone, op.expected, zone);
      if i > 0 {
        Untouched(lib, pre, op.moments[i - 1], op.zone, op.expected, zone);
      }
    }
  }

  lemma Untouched(lib: Library, pre: Disk, d: Disk, zone: string, expected: string, other: string)
    requires Confined(lib, pre, d, zone, expected) && other != zone
    ensures other in d.zones <==> other in pre.zones
    ensures other in pre.zones ==> d.zones[other] == pre.zones[other]
  {
    assert other in d.zones <==> other in d.zones - {zone};
    assert other in pre.zones <==> other in pre.zones - {zone};
    assert other in d.zones ==> (d.zones - {zone})[other] == d.zones[other];
    assert other in pre.zones ==> (pre.zones - {zone})[other] == pre.zones[other];
  }

  lemma OperationRises(lib: Library, pre: Disk, op: Operation, zone: string)
    requires Operated(lib, pre, op) && op.event != TookBack(zone)
    ensures Rises(pre, op.moments, zone)
  {
    if zone != op.zone {
      OtherRises(lib, pre, op, zone);
    }
  }

  lemma {:induction false} TraceRises(lib: Library, start: Disk, ops: seq<Operation>, zone: string)
    requires Chained(lib, start, ops) && NoneTakenBack(ops, zone)
    ensures Stepwise(Trace(start, ops), zone)
  {
    if ops != [] {
      var init, last := ops[..|ops| - 1], ops[|ops| - 1];
      var before, trace := Trace(start, init), Trace(start, ops);
      TraceRises(lib, start, init, zone);
      TraceEnds(start, init);
      OperationRises(lib, Final(start, init), last, zone);
      forall i | 0 <= i < |trace| - 1 ensures StepAt(trace, zone, i) {
        if i < |before| - 1 {
          assert StepAt(before, zone, i);
        } else {
          assert RisesAt(Final(start, init), last.moments, zone, i + 1 - |before|);
        }
      }
    }
  }

  /** Over any stretch of such a trace the content is the same or has a larger serial. */
  lemma {:induction false} RisesOver(trace: seq<Disk>, zone: string, a: nat, b: nat)
    requires Stepwise(trace, zone) && AlwaysThere(trace, zone) && a <= b < |trace|
    ensures || trace[b].zones[zone] == trace[a].zones[zone]
            || Serial(trace[a].zones[zone]) < Serial(trace[b].zones[zone])
    decreases b - a
  {
    if a < b {
      RisesOver(trace, zone, a, b - 1);
      assert StepAt(trace, zone, b - 1);
    }
  }

  /** The serial of the zone fell between two states. */
  ghost predicate Falls(trace: seq<Disk>, zone: string, a: nat, b: nat) {
    && a < b < |trace| && zone in trace[a].zones && zone in trace[b].zones
    && Serial(trace[a].zones[zone]) > Serial(trace[b].zones[zone])
  }

  ghost predicate EverFalls(trace: seq<Disk>, zone: string) {
    exists a: nat, b: nat :: Falls(trace, zone, a, b)
  }

  lemma FallsPart(before: seq<Disk>, more: seq<Disk>, zone: string, a: nat, b: nat)
    ensures Falls(before, zone, a, b) ==> Falls(before + more, zone, a, b)
    ensures Falls(more, zone, a, b) ==> Falls(before + more, zone, |before| + a, |before| + b)
  {
  }

  /** An operation that took a content back: the serial fell. */
  lemma {:induction false} TraceFalls(lib: Library, start: Disk, ops: seq<Operation>, zone: string, k: nat)
    returns (a: nat, b: nat)
    requires Chained(lib, start, ops) && k < |ops| && ops[k].event == TookBack(zone)
    ensures Falls(Trace(start, ops), zone, a, b)
    decreases |ops|
  {
    var init, last := ops[..|ops| - 1], ops[|ops| - 1];
    var before := Trace(start, init);
    if k < |ops| - 1 {
      a, b := TraceFalls(lib, start, init, zone, k);
      FallsPart(before, last.moments, zone, a, b);
    } else {
      a, b := FallsWithin(Final(start, init), last.moments, zone);
      FallsPart(before, last.moments, zone, a, b);
      a, b := |before| + a, |before| + b;
    }
  }

  lemma FallsWithin(pre: Disk, moments: seq<Disk>, zone: string) returns (a: nat, b: nat)
    requires TakesBack(pre, moments, zone)
    ensures Falls(moments, zone, a, b)
  {
    var c :| PutBack(pre, moments, zone, c) && Serial(pre.zones[zone]) < Serial(c);
    a, b :| Phases(pre, moments, zone, c, a, b) && a < b < |moments|;
  }

  /** What is on disk never goes back to a smaller serial exactly when no operation took
      a content back. */
  lemma NeverFalls(lib: Library, start: Disk, ops: seq<Operation>, zone: string)
    requires Chained(lib, start, ops) && AlwaysThere(Trace(start, ops), zone)
    ensures NoneTakenBack(ops, zone) <==> !EverFalls(Trace(start, ops), zone)
  {
    var trace := Trace(start, ops);
    if NoneTakenBack(ops, zone) {
      TraceRises(lib, start, ops, zone);
      forall a: nat, b: nat ensures !Falls(trace, zone, a, b) {
        if a < b < |trace| {
          RisesOver(trace, zone, a, b);
        }
      }
    } else {
      var k :| 0 <= k < |ops| && ops[k].event == TookBack(zone);
      var a, b := TraceFalls(lib, start, ops, zone, k);
      assert EverFalls(trace, zone);
    }
  }
}
