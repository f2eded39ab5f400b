/** Mutating requests from end to end: the idempotency protocol and the zone store run
    together, over every interleaving of handlers, every fault and every crash. */
module RequestRuns {
  import opened Options
  import opened IdempotencyEntries
  import Keys = IdempotencyRuns
  import opened ZoneRecords
  import opened ZoneDisk
  import ZoneRuns
  import ZoneStore

  /** A request to change, roll back, create or delete a zone. */
  datatype Mutation = Mutation(zone: string, expectedRevision: string, payload: string)

  /** How the store answered it. */
  datatype Outcome = Outcome(event: ZoneRuns.Event, error: Option<ZoneStore.Error>)

  /** The fingerprint of a request, and the body and entity tag of the response to it. */
  datatype Api = Api(fingerprint: Mutation -> string, body: Outcome -> string, etag: Outcome -> string)

  /** Fingerprints are collision-free, and the body of a success tells what was
      published. */
  ghost predicate Faithful(api: Api) {
    && (forall m, m' :: api.fingerprint(m) == api.fingerprint(m') ==> m == m')
    && (forall o: Outcome, o': Outcome :: o.error.None? && o'.error.None? && api.body(o) == api.body(o') ==>
         o.event == o'.event)
  }

  /** `writeStoreError` */
  function StatusOf(error: Option<ZoneStore.Error>): int {
    match error
    case None => 200
    case Some(NotFound) => 404
    case Some(RevisionMismatch) => 412
    case Some(AlreadyExists) => 409
    case Some(ReadOnlyZone) => 403
    case Some(InvalidChange) => 400
    case Some(_) => 500
  }

  function Respond(api: Api, o: Outcome): Keys.Response {
    Keys.Response(StatusOf(o.error), api.body(o), api.etag(o))
  }

  // ------------------------------------------------------------------- states

  /** A handler at work: its request, and the answer of the store once it has one. */
  datatype Work = Work(mutation: Mutation, outcome: Option<Outcome>)

  datatype State = State(keys: Keys.State, work: map<string, Work>, disk: Disk)

  /** `Executed` is the one operation that a handler carries out, `Elsewhere` one that
      belongs to no key, and `Crashed` a stop and restart of the process, which may have
      interrupted the operation of one handler. */
  datatype Event =
    | Began(key: string, mutation: Mutation, decision: Keys.Decision)
    | Executed(key: string, mutation: Mutation, outcome: Outcome)
    | Finished(key: string, written: bool)
    | Abandoned(key: string)
    | Elsewhere(event: ZoneRuns.Event)
    | Crashed(during: Option<Work>)

  /** The store carries out a request, with this outcome. */
  ghost predicate Executes(lib: Library, m: Mutation, pre: Disk, post: Disk, o: Outcome) {
    && (exists moments :: ZoneRuns.Operates(lib, pre, moments, post, m.zone, m.expectedRevision, o.event))
    && ZoneStore.Answers(lib, pre, post, m.zone, m.expectedRevision, o.event, o.error)
  }

  /** The store was stopped at some moment of a request. */
  ghost predicate Interrupts(lib: Library, m: Mutation, pre: Disk, post: Disk) {
    exists moments, end, ev, i ::
      && ZoneRuns.Operates(lib, pre, moments, end, m.zone, m.expectedRevision, ev)
      && 0 <= i < |moments| && post == moments[i]
  }

  /** Every operation of the store, as its methods promise it, carries out a request, and
      stopping it at any of its moments interrupts that request. */
  lemma OperationExecutes(
    lib: Library, pre: Disk, moments: seq<Disk>, post: Disk, m: Mutation, ev: ZoneRuns.Event,
    error: Option<ZoneStore.Error>, i: nat)
    requires ZoneRuns.Operates(lib, pre, moments, post, m.zone, m.expectedRevision, ev)
    requires ZoneStore.Answers(lib, pre, post, m.zone, m.expectedRevision, ev, error)
    ensures Executes(lib, m, pre, post, Outcome(ev, error))
    ensures i < |moments| ==> Interrupts(lib, m, pre, moments[i])
  {
  }

  function HandlerOf(api: Api, key: string, m: Mutation): Keys.Handler {
    Keys.Handler(key, api.fingerprint(m))
  }

  ghost predicate Step(lib: Library, api: Api, persistent: bool, s: State, ev: Event, s': State) {
    match ev
    case Began(key, m, decision) =>
      && Keys.Step(persistent, s.keys, Keys.Began(key, api.fingerprint(m), decision), s'.keys)
      && s'.work == (if decision.New? then s.work[key := Work(m, None)] else s.work)
      && s'.disk == s.disk
    case Executed(key, m, o) =>
      && key in s.work && s.work[key] == Work(m, None) && s'.work == s.work[key := Work(m, Some(o))]
      && Executes(lib, m, s.disk, s'.disk, o)
      && s'.keys == s.keys
    case Finished(key, written) =>
      && key in s.work && s.work[key].outcome.Some? && s'.work == s.work - {key}
      && s'.disk == s.disk
      && var h, r := HandlerOf(api, key, s.work[key].mutation), Respond(api, s.work[key].outcome.value);
         Keys.Step(persistent, s.keys, Keys.Finished(h, r, written), s'.keys)
    case Abandoned(key) =>
      && key in s.work && s'.work == s.work - {key}
      && Keys.Step(persistent, s.keys, Keys.Abandoned(HandlerOf(api, key, s.work[key].mutation)), s'.keys)
      && s'.disk == s.disk
    case Elsewhere(e) =>
      && s'.keys == s.keys && s'.work == s.work
      && ZoneRuns.Transition(lib, s.disk, s'.disk, e)
    case Crashed(during) =>
      && Keys.Step(persistent, s.keys, Keys.Restarted, s'.keys) && s'.work == map[]
      && match during
         case None => s'.disk == s.disk
         case Some(w) =>
           && w.outcome.None? && (exists key :: key in s.work && s.work[key] == w)
           && Interrupts(lib, w.mutation, s.disk, s'.disk)
  }

  /** The first start ever, on a sound disk. */
  ghost predicate Initial(lib: Library, s: State) {
    Keys.Initial(s.keys) && s.keys.saved.None? && s.work == map[] && Sound(lib, s.disk)
  }

  ghost predicate StepAt(lib: Library, api: Api, persistent: bool, states: seq<State>, events: seq<Event>, i: int)
    requires 0 <= i < |events| && |states| == |events| + 1
  {
    Step(lib, api, persistent, states[i], events[i], states[i + 1])
  }

  ghost predicate Run(lib: Library, api: Api, persistent: bool, states: seq<State>, events: seq<Event>) {
    && |states| == |events| + 1
    && Initial(lib, states[0])
    && forall i {:trigger StepAt(lib, api, persistent, states, events, i)} ::
         0 <= i < |events| ==> StepAt(lib, api, persistent, states, events, i)
  }

  // ------------------------------------------------------------ the disk alone

  function DiskEvent(ev: Event): ZoneRuns.Event {
    match ev
    case Executed(_, _, o) => o.event
    case Elsewhere(e) => e
    case _ => ZoneRuns.Quiet
  }

  function Disks(states: seq<State>): (r: seq<Disk>)
    ensures |r| == |states| && forall i :: 0 <= i < |r| ==> r[i] == states[i].disk
  {
    seq(|states|, i requires 0 <= i < |states| => states[i].disk)
  }

  function DiskEvents(events: seq<Event>): (r: seq<ZoneRuns.Event>)
    ensures |r| == |events| && forall i :: 0 <= i < |r| ==> r[i] == DiskEvent(events[i])
  {
    seq(|events|, i requires 0 <= i < |events| => DiskEvent(events[i]))
  }

  lemma InterruptedTransition(lib: Library, m: Mutation, pre: Disk, post: Disk)
    requires Interrupts(lib, m, pre, post)
    ensures ZoneRuns.Transition(lib, pre, post, ZoneRuns.Quiet)
    ensures ZoneRuns.Confined(lib, pre, post, m.zone, m.expectedRevision)
  {
  }

  lemma StepTransition(lib: Library, api: Api, persistent: bool, s: State, ev: Event, s': State)
    requires Step(lib, api, persistent, s, ev, s') && Sound(lib, s.disk)
    ensures ZoneRuns.Transition(lib, s.disk, s'.disk, DiskEvent(ev)) && Sound(lib, s'.disk)
  {
    EvolvesSame(lib, s.disk);
    if ev.Crashed? && ev.during.Some? {
      InterruptedTransition(lib, ev.during.value.mutation, s.disk, s'.disk);
    }
  }

  lemma {:induction false} DiskSound(
    lib: Library, api: Api, persistent: bool, states: seq<State>, events: seq<Event>, i: nat)
    requires Run(lib, api, persistent, states, events) && i < |states|
    ensures Sound(lib, states[i].disk)
  {
    if i > 0 {
      DiskSound(lib, api, persistent, states, events, i - 1);
      assert StepAt(lib, api, persistent, states, events, i - 1);
      StepTransition(lib, api, persistent, states[i - 1], events[i - 1], states[i]);
    }
  }

  /** The disk of such a run is a run of the zone store. */
  lemma DiskRun(lib: Library, api: Api, persistent: bool, states: seq<State>, events: seq<Event>)
    requires Run(lib, api, persistent, states, events)
    ensures ZoneRuns.Run(lib, Disks(states), DiskEvents(events))
  {
    forall i | 0 <= i < |events|
      ensures ZoneRuns.Transition(lib, states[i].disk, states[i + 1].disk, DiskEvent(events[i]))
    {
      DiskSound(lib, api, persistent, states, events, i);
      assert StepAt(lib, api, persistent, states, events, i);
      StepTransition(lib, api, persistent, states[i], events[i], states[i + 1]);
    }
  }

  // ------------------------------------------------- a request changes a zone once

  /** The request whose operation a step carries out, wholly or in part. */
  function Attempt(ev: Event): Option<Mutation> {
    match ev
    case Executed(_, m, _) => Some(m)
    case Crashed(Some(w)) => Some(w.mutation)
    case _ => None
  }

  lemma AttemptConfined(lib: Library, api: Api, persistent: bool, s: State, ev: Event, s': State)
    requires Step(lib, api, persistent, s, ev, s') && Attempt(ev).Some?
    ensures ZoneRuns.Confined(lib, s.disk, s'.disk, Attempt(ev).value.zone, Attempt(ev).value.expectedRevision)
  {
    if ev.Crashed? {
      InterruptedTransition(lib, ev.during.value.mutation, s.disk, s'.disk);
    }
  }

  ghost predicate LivesOn(states: seq<State>, zone: string, i: nat, j: nat)
    requires j < |states|
  {
    forall k :: i <= k <= j ==> zone in states[k].disk.zones
  }

  /** However often a request with the same fingerprint is carried out (under any keys,
      after a server error, an expired or evicted response, a lost save or a crash in the
      middle), within one lifetime of the zone at most one of the attempts changes the
      zone file. */
  lemma ChangesOnce(
    lib: Library, api: Api, persistent: bool, states: seq<State>, events: seq<Event>, i: nat, j: nat)
    requires CollisionFree(lib) && Faithful(api) && Run(lib, api, persistent, states, events) && i < j < |events|
    requires Attempt(events[i]).Some? && Attempt(events[j]).Some?
    requires api.fingerprint(Attempt(events[i]).value) == api.fingerprint(Attempt(events[j]).value)
    requires LivesOn(states, Attempt(events[i]).value.zone, i, j)
    ensures states[i + 1].disk.zones == states[i].disk.zones || states[j + 1].disk.zones == states[j].disk.zones
  {
    var m := Attempt(events[i]).value;
    DiskRun(lib, api, persistent, states, events);
    assert StepAt(lib, api, persistent, states, events, i) && StepAt(lib, api, persistent, states, events, j);
    AttemptConfined(lib, api, persistent, states[i], events[i], states[i + 1]);
    AttemptConfined(lib, api, persistent, states[j], events[j], states[j + 1]);
    ZoneRuns.ChangedOnce(lib, Disks(states), DiskEvents(events), m.zone, m.expectedRevision, i, j);
  }

  /** A request that is carried out again after an attempt of it changed the zone file,
      whatever that attempt answered, is answered with an error and changes nothing. */
  lemma RetryRefused(
    lib: Library, api: Api, persistent: bool, states: seq<State>, events: seq<Event>, i: nat, j: nat)
    requires CollisionFree(lib) && Faithful(api) && Run(lib, api, persistent, states, events) && i < j < |events|
    requires Attempt(events[i]).Some? && events[j].Executed?
    requires api.fingerprint(Attempt(events[i]).value) == api.fingerprint(events[j].mutation)
    requires LivesOn(states, events[j].mutation.zone, i, j)
    requires states[i + 1].disk.zones != states[i].disk.zones
    ensures events[j].outcome.error.Some? && states[j + 1].disk == states[j].disk
  {
    var m := events[j].mutation;
    DiskRun(lib, api, persistent, states, events);
    assert StepAt(lib, api, persistent, states, events, i) && StepAt(lib, api, persistent, states, events, j);
    AttemptConfined(lib, api, persistent, states[i], events[i], states[i + 1]);
    ZoneRuns.ConfinedChange(lib, states[i].disk, states[i + 1].disk, m.zone, m.expectedRevision);
    ZoneRuns.RevisionGone(lib, Disks(states), DiskEvents(events), m.zone, i, j);
  }

  // ------------------------------------------------------- handlers hold their keys

  /** The handlers at work are the running handlers of the protocol. */
  ghost predicate Linked(api: Api, s: State) {
    && (forall key :: key in s.work ==> HandlerOf(api, key, s.work[key].mutation) in s.keys.running)
    && (forall h :: h in s.keys.running ==> h.key in s.work && h == HandlerOf(api, h.key, s.work[h.key].mutation))
  }

  lemma StepLinked(lib: Library, api: Api, persistent: bool, s: State, ev: Event, s': State)
    requires Step(lib, api, persistent, s, ev, s') && Keys.Inv(s.keys) && Linked(api, s)
    ensures Linked(api, s')
  {
    match ev
    case Began(key, m, decision) =>
      if decision.New? {
        FreeKey(api, s, key);
        BeganLinked(api, s, key, m, s');
      } else {
        SameLinked(api, s, s');
      }
    case Finished(key, _) => EndedLinked(api, s, key, s');
    case Abandoned(key) => EndedLinked(api, s, key, s');
    case Crashed(_) => NoneLinked(api, s');
    case Executed(_, _, _) => SameLinked(api, s, s');
    case Elsewhere(_) => SameLinked(api, s, s');
  }

  lemma SameLinked(api: Api, s: State, s': State)
    requires Linked(api, s) && s'.keys.running == s.keys.running && s'.work.Keys == s.work.Keys
    requires forall key :: key in s.work ==> s'.work[key].mutation == s.work[key].mutation
    ensures Linked(api, s')
  {
  }

  lemma NoneLinked(api: Api, s: State)
    requires s.keys.running == multiset{} && s.work == map[]
    ensures Linked(api, s)
  {
  }

  lemma StepKeys(lib: Library, api: Api, persistent: bool, s: State, ev: Event, s': State)
    requires Step(lib, api, persistent, s, ev, s') && Keys.Inv(s.keys)
    ensures Keys.Inv(s'.keys)
  {
    match ev
    case Began(key, m, decision) =>
      Keys.StepInv(persistent, s.keys, Keys.Began(key, api.fingerprint(m), decision), s'.keys);
    case Finished(key, written) =>
      var h, r := HandlerOf(api, key, s.work[key].mutation), Respond(api, s.work[key].outcome.value);
      Keys.StepInv(persistent, s.keys, Keys.Finished(h, r, written), s'.keys);
    case Abandoned(key) =>
      Keys.StepInv(persistent, s.keys, Keys.Abandoned(HandlerOf(api, key, s.work[key].mutation)), s'.keys);
    case Crashed(_) =>
      Keys.StepInv(persistent, s.keys, Keys.Restarted, s'.keys);
    case Executed(_, _, _) =>
    case Elsewhere(_) =>
  }

  lemma BeganLinked(api: Api, s: State, key: string, m: Mutation, s': State)
    requires Linked(api, s) && key !in s.work && s'.work == s.work[key := Work(m, None)]
    requires s'.keys.running == s.keys.running + multiset{HandlerOf(api, key, m)}
    ensures Linked(api, s')
  {
    forall h | h in s'.keys.running
      ensures h.key in s'.work && h == HandlerOf(api, h.key, s'.work[h.key].mutation)
    {
      assert h in s.keys.running || h == HandlerOf(api, key, m);
    }
  }

  lemma EndedLinked(api: Api, s: State, key: string, s': State)
    requires Linked(api, s) && Keys.Inv(s.keys) && key in s.work && s'.work == s.work - {key}
    requires s'.keys.running == s.keys.running - multiset{HandlerOf(api, key, s.work[key].mutation)}
    ensures Linked(api, s')
  {
    var ended := HandlerOf(api, key, s.work[key].mutation);
    assert Keys.HoldsKey(s.keys, ended);
    forall h | h in s'.keys.running ensures h in s.keys.running && h.key != key {
      assert h == HandlerOf(api, h.key, s.work[h.key].mutation);
    }
  }

  lemma FreeKey(api: Api, s: State, key: string)
    requires Keys.Inv(s.keys) && Linked(api, s) && key !in s.keys.inFlight
    ensures key !in s.work && forall h :: h in s.keys.running ==> h.key != key
  {
    assert forall h :: h in s.keys.running ==> Keys.HoldsKey(s.keys, h);
  }

  lemma {:induction false} RunLinked(
    lib: Library, api: Api, persistent: bool, states: seq<State>, events: seq<Event>, i: nat)
    requires Run(lib, api, persistent, states, events) && i < |states|
    ensures Keys.Inv(states[i].keys) && Linked(api, states[i])
  {
    if i > 0 {
      RunLinked(lib, api, persistent, states, events, i - 1);
      assert StepAt(lib, api, persistent, states, events, i - 1);
      StepKeys(lib, api, persistent, states[i - 1], events[i - 1], states[i]);
      StepLinked(lib, api, persistent, states[i - 1], events[i - 1], states[i]);
    }
  }

  /** A handler is let through only when no other one is at work for its key. */
  lemma OneAtWork(
    lib: Library, api: Api, persistent: bool, states: seq<State>, events: seq<Event>, i: nat)
    requires Run(lib, api, persistent, states, events) && i < |events| && events[i].Began? && events[i].decision.New?
    ensures events[i].key !in states[i].work
  {
    RunLinked(lib, api, persistent, states, events, i);
    assert StepAt(lib, api, persistent, states, events, i);
    FreeKey(api, states[i], events[i].key);
  }

  // ------------------------------------------- a replay tells what was published

  /** A step that executed a request of this key, whose response is this entry. */
  ghost predicate Produces(api: Api, ev: Event, key: string, entry: Entry) {
    && ev.Executed? && ev.key == key
    && entry == Keys.Recorded(api.fingerprint(ev.mutation), Respond(api, ev.outcome), entry.createdAt)
    && entry.status < 500
  }

  ghost predicate Backed(api: Api, events: seq<Event>, n: nat, key: string, entry: Entry)
    requires n <= |events|
  {
    exists x :: 0 <= x < n && Produces(api, events[x], key, entry)
  }

  ghost predicate AllBacked(api: Api, events: seq<Event>, n: nat, entries: map<string, Entry>)
    requires n <= |events|
  {
    forall key :: key in entries ==> Backed(api, events, n, key, entries[key])
  }

  ghost predicate WorkDone(events: seq<Event>, n: nat, key: string, w: Work)
    requires n <= |events|
  {
    w.outcome.Some? ==> exists x :: 0 <= x < n && events[x] == Executed(key, w.mutation, w.outcome.value)
  }

  /** Every remembered and every saved response was produced by an execution. */
  ghost predicate Accounted(api: Api, events: seq<Event>, n: nat, s: State)
    requires n <= |events|
  {
    && AllBacked(api, events, n, s.keys.entries)
    && (s.keys.saved.Some? ==> AllBacked(api, events, n, s.keys.saved.value))
    && (forall key :: key in s.work ==> WorkDone(events, n, key, s.work[key]))
  }

  lemma BackedLater(api: Api, events: seq<Event>, n: nat, entries: map<string, Entry>)
    requires n < |events| && AllBacked(api, events, n, entries)
    ensures AllBacked(api, events, n + 1, entries)
  {
    forall key | key in entries ensures Backed(api, events, n + 1, key, entries[key]) {
      assert Backed(api, events, n, key, entries[key]);
    }
  }

  lemma WorkLater(events: seq<Event>, n: nat, key: string, w: Work)
    requires n < |events| && WorkDone(events, n, key, w)
    ensures WorkDone(events, n + 1, key, w)
  {
  }

  lemma PrunedBacked(
    api: Api, events: seq<Event>, n: nat, before: map<string, Entry>, after: map<string, Entry>, now: int)
    requires n <= |events| && AllBacked(api, events, n, before) && Pruned(before, after, now)
    ensures AllBacked(api, events, n, after)
  {
    forall key | key in after ensures Backed(api, events, n, key, after[key]) {
      assert Backed(api, events, n, key, before[key]);
    }
  }

  lemma RecordedBacked(api: Api, events: seq<Event>, n: nat, s: State, key: string, now: int)
    requires n <= |events| && Accounted(api, events, n, s) && key in s.work && s.work[key].outcome.Some?
    requires StatusOf(s.work[key].outcome.value.error) < 500
    ensures var w := s.work[key];
            var entry := Keys.Recorded(api.fingerprint(w.mutation), Respond(api, w.outcome.value), now);
            AllBacked(api, events, n, s.keys.entries[key := entry])
  {
    var w := s.work[key];
    var entry := Keys.Recorded(api.fingerprint(w.mutation), Respond(api, w.outcome.value), now);
    assert WorkDone(events, n, key, w);
    var x :| 0 <= x < n && events[x] == Executed(key, w.mutation, w.outcome.value);
    assert Produces(api, events[x], key, entry);
  }

  lemma FinishAccounted(
    lib: Library, api: Api, persistent: bool, events: seq<Event>, n: nat, s: State, key: string, written: bool,
    s': State)
    requires n <= |events| && Step(lib, api, persistent, s, Finished(key, written), s') && Accounted(api, events, n, s)
    ensures AllBacked(api, events, n, s'.keys.entries)
    ensures s'.keys.saved.Some? ==> AllBacked(api, events, n, s'.keys.saved.value)
  {
    var w := s.work[key];
    if StatusOf(w.outcome.value.error) < 500 {
      RecordedBacked(api, events, n, s, key, s'.keys.clock);
      var entry := Keys.Recorded(api.fingerprint(w.mutation), Respond(api, w.outcome.value), s'.keys.clock);
      PrunedBacked(api, events, n, s.keys.entries[key := entry], s'.keys.entries, s'.keys.clock);
    }
  }

  lemma RestartAccounted(
    api: Api, events: seq<Event>, n: nat, saved: Option<map<string, Entry>>, entries: map<string, Entry>, now: int)
    requires n <= |events| && Keys.Reloaded(saved, entries, now)
    requires saved.Some? ==> AllBacked(api, events, n, saved.value)
    ensures AllBacked(api, events, n, entries)
  {
    if saved.Some? {
      PrunedBacked(api, events, n, saved.value, entries, now);
    }
  }

  lemma EntriesAccounted(
    lib: Library, api: Api, persistent: bool, events: seq<Event>, n: nat, s: State, s': State)
    requires n < |events| && Step(lib, api, persistent, s, events[n], s') && Accounted(api, events, n, s)
    ensures AllBacked(api, events, n, s'.keys.entries)
    ensures s'.keys.saved.Some? ==> AllBacked(api, events, n, s'.keys.saved.value)
  {
    match events[n]
    case Finished(key, written) => FinishAccounted(lib, api, persistent, events, n, s, key, written, s');
    case Crashed(_) => RestartAccounted(api, events, n, s.keys.saved, s'.keys.entries, s'.keys.clock);
    case _ =>
  }

  lemma StepAccounted(
    lib: Library, api: Api, persistent: bool, events: seq<Event>, n: nat, s: State, s': State)
    requires n < |events| && Step(lib, api, persistent, s, events[n], s') && Accounted(api, events, n, s)
    ensures Accounted(api, events, n + 1, s')
  {
    EntriesAccounted(lib, api, persistent, events, n, s, s');
    BackedLater(api, events, n, s'.keys.entries);
    if s'.keys.saved.Some? {
      BackedLater(api, events, n, s'.keys.saved.value);
    }
    forall key | key in s'.work ensures WorkDone(events, n + 1, key, s'.work[key]) {
      if key in s.work && s'.work[key] == s.work[key] {
        WorkLater(events, n, key, s.work[key]);
      }
    }
  }

  lemma {:induction false} RunAccounted(
    lib: Library, api: Api, persistent: bool, states: seq<State>, events: seq<Event>, n: nat)
    requires Run(lib, api, persistent, states, events) && n <= |events|
    ensures Accounted(api, events, n, states[n])
  {
    if n > 0 {
      RunAccounted(lib, api, persistent, states, events, n - 1);
      assert StepAt(lib, api, persistent, states, events, n - 1);
      StepAccounted(lib, api, persistent, events, n - 1, states[n - 1], states[n]);
    }
  }

  /** What is replayed to a request is the response to an earlier execution of this very
      request under this key, field by field, and not a server error; and a replayed
      error tells of an execution that changed nothing. */
  lemma ReplayedExecution(
    lib: Library, api: Api, persistent: bool, states: seq<State>, events: seq<Event>, j: nat) returns (x: nat)
    requires Faithful(api) && Run(lib, api, persistent, states, events)
    requires j < |events| && events[j].Began? && events[j].decision.Replay?
    ensures x < j && events[x].Executed? && events[x].key == events[j].key && events[x].mutation == events[j].mutation
    ensures var entry, outcome := events[j].decision.entry, events[x].outcome;
            && entry.fingerprint == api.fingerprint(events[j].mutation)
            && entry.status == StatusOf(outcome.error) < 500
            && entry.body == api.body(outcome) && entry.etag == api.etag(outcome)
    ensures Produces(api, events[x], events[j].key, events[j].decision.entry)
    ensures events[x].outcome.error.Some? ==> states[x + 1].disk == states[x].disk
  {
    var key := events[j].key;
    RunAccounted(lib, api, persistent, states, events, j);
    assert StepAt(lib, api, persistent, states, events, j);
    assert Backed(api, events, j, key, states[j].keys.entries[key]);
    x :| 0 <= x < j && Produces(api, events[x], key, states[j].keys.entries[key]);
    SuccessStatus(events[x].outcome.error);
    assert StepAt(lib, api, persistent, states, events, x);
  }

  /** A replay that tells of a publication (its body is that of the success `o`) belongs
      to exactly one publication of the run within the lifetime of the zone, and what was
      published then is still live or in history. */
  lemma ReplayedPublication(
    lib: Library, api: Api, persistent: bool, states: seq<State>, events: seq<Event>, j: nat, o: Outcome)
    returns (x: nat)
    requires CollisionFree(lib) && Faithful(api) && Run(lib, api, persistent, states, events)
    requires j < |events| && events[j].Began? && events[j].decision.Replay?
    requires events[j].decision.entry.status == 200 && events[j].decision.entry.body == api.body(o)
    requires o.error.None? && o.event.Published?
    ensures x < j && DiskEvent(events[x]) == o.event
    ensures o.event.zone == events[j].mutation.zone && o.event.expected == events[j].mutation.expectedRevision
    ensures || (o.event.zone in states[j].disk.zones && states[j].disk.zones[o.event.zone] == o.event.content)
            || Saved(lib, states[j].disk, o.event.zone, o.event.content)
    ensures forall y: nat :: y < |events| && Repeats(states, events, x, y) ==> y == x
  {
    x := ReplayedExecution(lib, api, persistent, states, events, j);
    SuccessStatus(events[x].outcome.error);
    assert StepAt(lib, api, persistent, states, events, x);
    DiskRun(lib, api, persistent, states, events);
    ZoneRuns.PublishedKept(lib, Disks(states), DiskEvents(events), x, j);
    forall y: nat | y < |events| && Repeats(states, events, x, y)
      ensures y == x
    {
      OnePublication(lib, api, persistent, states, events, x, y);
    }
  }

  lemma SuccessStatus(error: Option<ZoneStore.Error>)
    ensures StatusOf(error) == 200 <==> error.None?
    ensures StatusOf(error) < 500 <==> error.None? || ZoneStore.IsRefusal(error.value)
  {
  }

  /** The status tells the refusals apart; everything else that fails is a server error. */
  lemma RefusalStatus(error: ZoneStore.Error)
    ensures StatusOf(Some(error)) == 404 <==> error == ZoneStore.NotFound
    ensures StatusOf(Some(error)) == 412 <==> error == ZoneStore.RevisionMismatch
    ensures StatusOf(Some(error)) == 409 <==> error == ZoneStore.AlreadyExists
    ensures StatusOf(Some(error)) == 403 <==> error == ZoneStore.ReadOnlyZone
    ensures StatusOf(Some(error)) == 400 <==> error == ZoneStore.InvalidChange
    ensures StatusOf(Some(error)) == 500 <==> !ZoneStore.IsRefusal(error)
  {
  }

  predicate IsPublication(ev: Event, zone: string, expected: string) {
    DiskEvent(ev).Published? && DiskEvent(ev).zone == zone && DiskEvent(ev).expected == expected
  }

  /** The zone exists from one step to the other. */
  ghost predicate SameLifetime(states: seq<State>, zone: string, i: nat, j: nat)
    requires i < |states| && j < |states|
  {
    if i <= j then LivesOn(states, zone, i, j) else LivesOn(states, zone, j, i)
  }

  /** Both steps publish over the same revision in one lifetime of the zone. */
  ghost predicate Repeats(states: seq<State>, events: seq<Event>, x: nat, y: nat)
    requires x < |events| < |states| && y < |events|
  {
    var e := DiskEvent(events[x]);
    e.Published? && IsPublication(events[y], e.zone, e.expected) && SameLifetime(states, e.zone, x, y)
  }

  lemma OnePublication(
    lib: Library, api: Api, persistent: bool, states: seq<State>, events: seq<Event>, x: nat, y: nat)
    requires CollisionFree(lib) && Run(lib, api, persistent, states, events) && x < |events| && y < |events|
    requires Repeats(states, events, x, y)
    ensures x == y
  {
    DiskRun(lib, api, persistent, states, events);
    if x < y {
      ZoneRuns.PublishedOnce(lib, Disks(states), DiskEvents(events), x, y);
    } else if y < x {
      ZoneRuns.PublishedOnce(lib, Disks(states), DiskEvents(events), y, x);
    }
  }
}
