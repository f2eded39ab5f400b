/** The begin/finish protocol of idempotency keys, over every interleaving of handlers,
    failed saves, abandoned handlers and restarts. */
module IdempotencyRuns {
  import opened Options
  import opened IdempotencyEntries

  datatype Response = Response(status: int, body: string, etag: string)

  datatype Decision = New | Replay(entry: Entry) | InFlight | Mismatch

  /** What `begin` answers. */
  function Decide(
    entries: map<string, Entry>, inFlight: map<string, string>, key: string, fingerprint: string, now: int): Decision
  {
    if key in entries && Live(entries[key], now) then
      if entries[key].fingerprint != fingerprint then Mismatch else Replay(entries[key])
    else if key in inFlight then
      if inFlight[key] != fingerprint then Mismatch else InFlight
    else New
  }

  function Recorded(fingerprint: string, response: Response, now: int): Entry {
    Entry(fingerprint, response.status, response.body, response.etag, now)
  }

  type Entries = map<string, Entry>

  /** What `finish` does to the entries and to the saved file: server errors are not
      recorded, and a failed save leaves the older file. */
  ghost predicate Completed(
    persistent: bool, entries: Entries, entries': Entries, saved: Option<Entries>, saved': Option<Entries>,
    key: string, fingerprint: string, response: Response, written: bool, now: int)
  {
    if response.status >= 500 then entries' == entries && saved' == saved
    else
      && Pruned(entries[key := Recorded(fingerprint, response, now)], entries', now)
      && saved' == if persistent && written then Some(entries') else saved
  }

  /** What a start loads from the saved file. */
  ghost predicate Reloaded(saved: Option<Entries>, entries: Entries, now: int) {
    match saved
    case None => entries == map[]
    case Some(file) => Pruned(file, entries, now)
  }

  // ------------------------------------------------------------ the protocol

  /** A handler that was let through and has not finished. */
  datatype Handler = Handler(key: string, fingerprint: string)

  datatype State = State(
    entries: Entries, inFlight: map<string, string>, saved: Option<Entries>, running: multiset<Handler>, clock: int)

  datatype Event =
    | Began(key: string, fingerprint: string, decision: Decision)
    | Finished(handler: Handler, response: Response, written: bool)
    | Abandoned(handler: Handler)
    | Restarted

  ghost predicate Step(persistent: bool, s: State, ev: Event, s': State) {
    && s.clock <= s'.clock
    && match ev
       case Began(key, fingerprint, decision) =>
         && decision == Decide(s.entries, s.inFlight, key, fingerprint, s'.clock)
         && s'.entries == s.entries && s'.saved == s.saved
         && s'.inFlight == (if decision.New? then s.inFlight[key := fingerprint] else s.inFlight)
         && s'.running == (if decision.New? then s.running + multiset{Handler(key, fingerprint)} else s.running)
       case Finished(h, response, written) =>
         && h in s.running && s'.running == s.running - multiset{h}
         && s'.inFlight == s.inFlight - {h.key}
         && Completed(persistent, s.entries, s'.entries, s.saved, s'.saved, h.key, h.fingerprint, response, written,
              s'.clock)
       case Abandoned(h) =>
         && h in s.running && s'.running == s.running - multiset{h}
         && s'.entries == s.entries && s'.inFlight == s.inFlight && s'.saved == s.saved
       case Restarted =>
         && s'.running == multiset{} && s'.inFlight == map[] && s'.saved == s.saved
         && Reloaded(s.saved, s'.entries, s'.clock)
  }

  ghost predicate Run(persistent: bool, states: seq<State>, events: seq<Event>) {
    && |states| == |events| + 1
    && Initial(states[0])
    && forall i {:trigger StepAt(persistent, states, events, i)} :: 0 <= i < |events| ==>
         StepAt(persistent, states, events, i)
  }

  ghost predicate StepAt(persistent: bool, states: seq<State>, events: seq<Event>, i: int)
    requires 0 <= i < |events| && |states| == |events| + 1
  {
    Step(persistent, states[i], events[i], states[i + 1])
  }

  /** A first start, with whatever file it finds. */
  ghost predicate Initial(s: State) {
    s.inFlight == map[] && s.running == multiset{} && Reloaded(s.saved, s.entries, s.clock)
  }

  /** A running handler holds its key, alone, and no live response is stored for it. */
  ghost predicate HoldsKey(s: State, h: Handler) {
    && s.running[h] == 1
    && h.key in s.inFlight && s.inFlight[h.key] == h.fingerprint
    && !(h.key in s.entries && Live(s.entries[h.key], s.clock))
  }

  ghost predicate Inv(s: State) {
    (forall h :: h in s.running ==> HoldsKey(s, h)) && |s.entries| <= MAX_ENTRIES
  }

  lemma StepHolds(persistent: bool, s: State, ev: Event, s': State, h: Handler)
    requires Inv(s) && Step(persistent, s, ev, s') && h in s'.running
    ensures HoldsKey(s', h)
  {
    match ev
    case Began(key, fingerprint, decision) =>
      if h in s.running {
        assert HoldsKey(s, h);
      }
    case Finished(other, response, _) =>
      assert HoldsKey(s, h) && HoldsKey(s, other);
    case Abandoned(_) =>
      assert HoldsKey(s, h);
    case Restarted =>
  }

  /** Every step keeps the invariant. */
  lemma StepInv(persistent: bool, s: State, ev: Event, s': State)
    requires Inv(s) && Step(persistent, s, ev, s')
    ensures Inv(s')
  {
    forall h | h in s'.running ensures HoldsKey(s', h) {
      StepHolds(persistent, s, ev, s', h);
    }
  }

  lemma {:induction false} RunInv(persistent: bool, states: seq<State>, events: seq<Event>, i: nat)
    requires Run(persistent, states, events) && i < |states|
    ensures Inv(states[i])
  {
    if i > 0 {
      RunInv(persistent, states, events, i - 1);
      assert StepAt(persistent, states, events, i - 1);
      StepInv(persistent, states[i - 1], events[i - 1], states[i]);
    }
  }

  /** In every reachable state at most one handler is running per key, and at most 1000
      responses are remembered. */
  lemma OneHandlerPerKey(persistent: bool, states: seq<State>, events: seq<Event>, i: nat, a: Handler, b: Handler)
    requires Run(persistent, states, events) && i < |states|
    ensures |states[i].entries| <= MAX_ENTRIES
    ensures a in states[i].running ==> states[i].running[a] == 1
    ensures a in states[i].running && b in states[i].running && a.key == b.key ==> a == b
  {
    RunInv(persistent, states, events, i);
    assert a in states[i].running ==> HoldsKey(states[i], a);
    assert b in states[i].running ==> HoldsKey(states[i], b);
  }

  /** While a handler is running, a request with its key waits if it is the same one and
      is refused otherwise. */
  lemma InFlightDecides(persistent: bool, states: seq<State>, events: seq<Event>, i: nat, h: Handler)
    requires Run(persistent, states, events) && i < |events|
    requires events[i].Began? && h in states[i].running && h.key == events[i].key
    ensures events[i].decision == if events[i].fingerprint == h.fingerprint then InFlight else Mismatch
  {
    RunInv(persistent, states, events, i);
    assert HoldsKey(states[i], h);
    assert StepAt(persistent, states, events, i);
  }

  // ------------------------------------------------------------------ replay

  /** Every remembered response is in the saved file. */
  ghost predicate InSync(s: State) {
    forall k :: k in s.entries ==> s.saved.Some? && k in s.saved.value && s.saved.value[k] == s.entries[k]
  }

  /** A finish that records a response, and so saves the file. */
  predicate Records(ev: Event) {
    ev.Finished? && ev.response.status < 500
  }

  /** The last step before step i that saved or loaded the file, if there is one, was not
      a save that failed. */
  predicate LastSaved(events: seq<Event>, i: nat)
    requires i <= |events|
  {
    i == 0 || events[i - 1].Restarted? ||
    (if Records(events[i - 1]) then events[i - 1].written else LastSaved(events, i - 1))
  }

  /** A save that succeeds writes all remembered responses, and a start remembers only
      what is in the file; the other steps change neither. */
  lemma StepInSync(s: State, ev: Event, s': State)
    requires Step(true, s, ev, s') && (ev.Restarted? || (if Records(ev) then ev.written else InSync(s)))
    ensures InSync(s')
  {
  }

  /** The file has every remembered response whenever the last save succeeded, whatever
      earlier ones did. */
  lemma {:induction false} RunInSync(states: seq<State>, events: seq<Event>, i: nat)
    requires Run(true, states, events) && i < |states| && LastSaved(events, i)
    ensures InSync(states[i])
  {
    if i > 0 {
      if !events[i - 1].Restarted? && !Records(events[i - 1]) {
        RunInSync(states, events, i - 1);
      }
      assert StepAt(true, states, events, i - 1);
      StepInSync(states[i - 1], events[i - 1], states[i]);
    }
  }

  /** A stored response does not change while it is live: its key is refused to every
      handler that could overwrite it. */
  lemma StepStable(persistent: bool, s: State, ev: Event, s': State, key: string)
    requires Inv(s) && Step(persistent, s, ev, s')
    requires key in s.entries && key in s'.entries && Live(s.entries[key], s'.clock)
    requires ev.Restarted? ==> InSync(s)
    ensures s'.entries[key] == s.entries[key]
  {
    match ev
    case Finished(h, response, _) =>
      assert HoldsKey(s, h);
      assert h.key != key;
    case Began(_, _, _) =>
    case Abandoned(_) =>
    case Restarted =>
  }

  ghost predicate Kept(states: seq<State>, key: string, i: nat, j: nat)
    requires j < |states|
  {
    forall m :: i <= m <= j ==> key in states[m].entries
  }

  /** Restarts between the two states find every remembered response in the file. */
  ghost predicate SyncedRestarts(states: seq<State>, events: seq<Event>, i: nat, j: nat)
    requires j <= |events| < |states|
  {
    forall m :: i <= m < j && events[m].Restarted? ==> InSync(states[m])
  }

  lemma {:induction false} ClockMonotone(persistent: bool, states: seq<State>, events: seq<Event>, i: nat, j: nat)
    requires Run(persistent, states, events) && i <= j < |states|
    ensures states[i].clock <= states[j].clock
    decreases j - i
  {
    if i < j {
      ClockMonotone(persistent, states, events, i, j - 1);
      assert StepAt(persistent, states, events, j - 1);
    }
  }

  lemma {:induction false} EntryStable(
    persistent: bool, states: seq<State>, events: seq<Event>, key: string, i: nat, j: nat)
    requires Run(persistent, states, events) && i <= j < |states| && Kept(states, key, i, j)
    requires Live(states[i].entries[key], states[j].clock)
    requires SyncedRestarts(states, events, i, j)
    ensures states[j].entries[key] == states[i].entries[key]
    decreases j - i
  {
    if i < j {
      ClockMonotone(persistent, states, events, j - 1, j);
      EntryStable(persistent, states, events, key, i, j - 1);
      StableAt(persistent, states, events, key, j - 1);
    }
  }

  lemma StableAt(persistent: bool, states: seq<State>, events: seq<Event>, key: string, m: nat)
    requires Run(persistent, states, events) && m < |events|
    requires key in states[m].entries && key in states[m + 1].entries
    requires Live(states[m].entries[key], states[m + 1].clock)
    requires events[m].Restarted? ==> InSync(states[m])
    ensures states[m + 1].entries[key] == states[m].entries[key]
  {
    RunInv(persistent, states, events, m);
    assert StepAt(persistent, states, events, m);
    StepStable(persistent, states[m], events[m], states[m + 1], key);
  }

  /** Until it expires or is evicted, a recorded response is what every later request
      with the same key and fingerprint gets, also after restarts; any other
      fingerprint is refused, and no handler is let through again. */
  lemma Replayed(persistent: bool, states: seq<State>, events: seq<Event>, key: string, i: nat, j: nat)
    requires Run(persistent, states, events) && i <= j < |events| && Kept(states, key, i, j)
    requires events[j].Began? && events[j].key == key && Live(states[i].entries[key], states[j + 1].clock)
    requires SyncedRestarts(states, events, i, j)
    ensures events[j].decision ==
            if events[j].fingerprint == states[i].entries[key].fingerprint then Replay(states[i].entries[key])
                else Mismatch
  {
    assert StepAt(persistent, states, events, j);
    EntryStable(persistent, states, events, key, i, j);
  }

  /** The same for a persistent store, through any restarts before which the last save
      succeeded. */
  lemma ReplayedAcrossRestarts(states: seq<State>, events: seq<Event>, key: string, i: nat, j: nat)
    requires Run(true, states, events) && i <= j < |events| && Kept(states, key, i, j)
    requires events[j].Began? && events[j].key == key && Live(states[i].entries[key], states[j + 1].clock)
    requires forall m :: i <= m < j && events[m].Restarted? ==> LastSaved(events, m)
    ensures events[j].decision ==
            if events[j].fingerprint == states[i].entries[key].fingerprint then Replay(states[i].entries[key])
                else Mismatch
  {
    forall m | i <= m < j && events[m].Restarted? ensures InSync(states[m]) {
      RunInSync(states, events, m);
    }
    Replayed(true, states, events, key, i, j);
  }

  /** A finish that is not a server error is remembered as it was given, unless 1000
      other responses remain that were recorded no earlier. */
  lemma FinishRecords(persistent: bool, s: State, ev: Event, s': State)
    requires Step(persistent, s, ev, s') && ev.Finished? && ev.response.status < 500
    ensures ev.handler.key in s'.entries ==>
              var entry := s'.entries[ev.handler.key];
              && entry.fingerprint == ev.handler.fingerprint && entry.status == ev.response.status
              && entry.body == ev.response.body && entry.etag == ev.response.etag && entry.createdAt == s'.clock
    ensures ev.handler.key !in s'.entries ==> |s'.entries| == MAX_ENTRIES && NoneOlder(s'.entries, s'.clock)
  {
    var before := s.entries[ev.handler.key := Recorded(ev.handler.fingerprint, ev.response, s'.clock)];
    if ev.handler.key !in s'.entries {
      assert Evicted(before, s'.entries, s'.clock, ev.handler.key);
    }
  }

  /** A server error is forgotten: nothing is recorded or saved, and the key is free. */
  lemma ServerErrorForgotten(persistent: bool, s: State, ev: Event, s': State)
    requires Inv(s) && Step(persistent, s, ev, s') && ev.Finished? && ev.response.status >= 500
    ensures s'.entries == s.entries && s'.saved == s.saved
    ensures forall fingerprint, now: int :: now >= s'.clock ==>
              Decide(s'.entries, s'.inFlight, ev.handler.key, fingerprint, now) == New
  {
    assert HoldsKey(s, ev.handler);
  }

  /** A response is remembered for less than 24 hours. */
  lemma RememberedFor(e: Entry, now: int)
    ensures Live(e, now) <==> now < e.createdAt + 24 * 60 * 60 * 1_000_000_000
  {
  }

  /** A live response goes only by eviction, and only when 1000 others remain of which
      none is older, or in a restart from a file that does not have it. */
  lemma LeavesByEviction(persistent: bool, s: State, ev: Event, s': State, key: string)
    requires Inv(s) && Step(persistent, s, ev, s')
    requires key in s.entries && key !in s'.entries && Live(s.entries[key], s'.clock)
    requires ev.Restarted? ==> InSync(s)
    ensures |s'.entries| == MAX_ENTRIES && NoneOlder(s'.entries, s.entries[key].createdAt)
  {
    match ev
    case Finished(h, response, _) =>
      var before := s.entries[h.key := Recorded(h.fingerprint, response, s'.clock)];
      assert HoldsKey(s, h) && h.key != key;
      if response.status < 500 {
        EvictedLast(before, s'.entries, s'.clock, key, s.entries[key].createdAt);
      }
    case Restarted =>
      EvictedLast(s.saved.value, s'.entries, s'.clock, key, s.entries[key].createdAt);
  }

  lemma EvictedLast(before: Entries, after: Entries, now: int, key: string, createdAt: int)
    requires Pruned(before, after, now) && Evicted(before, after, now, key) && createdAt <= before[key].createdAt
    ensures |after| == MAX_ENTRIES && NoneOlder(after, createdAt)
  {
  }
}
