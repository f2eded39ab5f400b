/** Whole histories of a zone store: what holds over every sequence of operations,
    crashes and restarts. */
module ZoneRuns {
  import opened ZoneRecords
  import opened ZoneDisk

  /** What an operation did to a zone: it published a content over the revision the
      caller expected, or it put the old content back after the new one was on disk, or
      neither. */
  datatype Event = Quiet | Published(zone: string, expected: string, content: Content) | TookBack(zone: string)

  ghost predicate Transition(lib: Library, pre: Disk, post: Disk, ev: Event) {
    && Evolves(lib, pre, post)
    && Sound(lib, post)
    && (ev.Published? ==>
          && ev.zone in pre.zones && lib.revision(pre.zones[ev.zone]) == ev.expected
          && ev.zone in post.zones && post.zones[ev.zone] == ev.content
          && Serial(ev.content) > Serial(pre.zones[ev.zone]))
  }

  // --------------------------------------------------------- single operations

  /** An operation on a zone that its caller knows at some revision changes the file of
      no other zone, and that of this zone only at this revision. */
  ghost predicate Confined(lib: Library, pre: Disk, post: Disk, zone: string, expected: string) {
    && post.zones - {zone} == pre.zones - {zone}
    && (zone in pre.zones && post.zones != pre.zones ==> lib.revision(pre.zones[zone]) == expected)
  }

  ghost predicate AllConfined(lib: Library, pre: Disk, moments: seq<Disk>, zone: string, expected: string) {
    forall i :: 0 <= i < |moments| ==> Confined(lib, pre, moments[i], zone, expected)
  }

  /** The state of the disk before moment i of an operation. */
  function StateBefore(pre: Disk, moments: seq<Disk>, i: nat): Disk
    requires i <= |moments|
  {
    if i == 0 then pre else moments[i - 1]
  }

  /** From one state to the next, a zone keeps its content or gets a larger serial. */
  ghost predicate StepRises(d: Disk, d': Disk, zone: string) {
    zone in d.zones && zone in d'.zones ==>
      d'.zones[zone] == d.zones[zone] || Serial(d.zones[zone]) < Serial(d'.zones[zone])
  }

  ghost predicate RisesAt(pre: Disk, moments: seq<Disk>, zone: string, i: nat)
    requires i < |moments|
  {
    StepRises(StateBefore(pre, moments, i), moments[i], zone)
  }

  /** The serial of a zone never falls from one moment to the next. */
  ghost predicate Rises(pre: Disk, moments: seq<Disk>, zone: string) {
    forall i: nat {:trigger RisesAt(pre, moments, zone, i)} :: i < |moments| ==> RisesAt(pre, moments, zone, i)
  }

  /** A content with a larger serial was on disk, and the old one was put back. */
  ghost predicate TakesBack(pre: Disk, moments: seq<Disk>, zone: string) {
    zone in pre.zones && exists c :: PutBack(pre, moments, zone, c) && Serial(pre.zones[zone]) < Serial(c)
  }

  /** What every operation of the store does, for a caller who knows the zone at the
      expected revision: all its moments are sound, it touches the file of that zone
      only, and only at that revision, and the serial falls only if the operation took
      a new content back. */
  ghost predicate Operates(
    lib: Library, pre: Disk, moments: seq<Disk>, post: Disk, zone: string, expected: string, ev: Event)
  {
    && Transition(lib, pre, post, ev)
    && AllEvolve(lib, pre, moments) && post == LastOf(pre, moments)
    && Confined(lib, pre, post, zone, expected) && AllConfined(lib, pre, moments, zone, expected)
    && (ev.Published? ==> ev.zone == zone && ev.expected == expected)
    && (if ev.TookBack? then ev.zone == zone && TakesBack(pre, moments, zone) else Rises(pre, moments, zone))
  }

  lemma NothingOperates(lib: Library, pre: Disk, zone: string, expected: string)
    requires Sound(lib, pre)
    ensures Operates(lib, pre, [], pre, zone, expected, Quiet)
  {
    EvolvesSame(lib, pre);
  }

  lemma OneZone(zones: map<string, Content>, zone: string, c: Content)
    ensures zones[zone := c] - {zone} == zones - {zone} == zones - {zone} - {zone}
  {
  }

  lemma ForwardRises(pre: Disk, moments: seq<Disk>, zone: string, c: Content)
    requires Forward(pre, moments, zone, c) && zone in pre.zones && Serial(pre.zones[zone]) < Serial(c)
    ensures Rises(pre, moments, zone) && OldOrNew(pre, moments, zone, c)
  {
    var a: nat :| Phases(pre, moments, zone, c, a, |moments|);
    forall i: nat | i < |moments| ensures RisesAt(pre, moments, zone, i) {
      assert StateBefore(pre, moments, i).zones == if i <= a then pre.zones else pre.zones[zone := c];
    }
  }

  lemma PutBackMoments(pre: Disk, moments: seq<Disk>, zone: string, c: Content)
    requires PutBack(pre, moments, zone, c)
    ensures OldOrNew(pre, moments, zone, c)
  {
  }

  lemma NewRises(pre: Disk, moments: seq<Disk>, zone: string, c: Content)
    requires OldOrNew(pre, moments, zone, c) && zone !in pre.zones
    ensures Rises(pre, moments, zone)
  {
  }

  lemma GoneRises(pre: Disk, moments: seq<Disk>, zone: string)
    requires OldOrGone(pre, moments, zone)
    ensures Rises(pre, moments, zone)
  {
  }

  lemma NewConfined(lib: Library, pre: Disk, moments: seq<Disk>, zone: string, c: Content, expected: string)
    requires OldOrNew(pre, moments, zone, c) && (zone in pre.zones ==> lib.revision(pre.zones[zone]) == expected)
    ensures AllConfined(lib, pre, moments, zone, expected) && Confined(lib, pre, LastOf(pre, moments), zone, expected)
  {
    OneZone(pre.zones, zone, c);
  }

  lemma GoneConfined(lib: Library, pre: Disk, moments: seq<Disk>, zone: string, expected: string)
    requires OldOrGone(pre, moments, zone) && zone in pre.zones && lib.revision(pre.zones[zone]) == expected
    ensures AllConfined(lib, pre, moments, zone, expected) && Confined(lib, pre, LastOf(pre, moments), zone, expected)
  {
    OneZone(pre.zones, zone, pre.zones[zone]);
  }

  // --------------------------------------------------------------- whole runs

  /** A run: disk states, and what was reported between them. A crash ends an
      operation at any moment, with nothing reported. */
  ghost predicate Run(lib: Library, states: seq<Disk>, events: seq<Event>) {
    && |states| == |events| + 1
    && forall i :: 0 <= i < |events| ==> Transition(lib, states[i], states[i + 1], events[i])
  }

  /** The zone exists from state i to state j: one lifetime. */
  ghost predicate Lives(states: seq<Disk>, zone: string, i: nat, j: nat)
    requires j < |states|
  {
    forall k :: i <= k <= j ==> zone in states[k].zones
  }

  /** Within a lifetime the serial on disk never decreases. */
  lemma {:induction false} SerialMonotone(
    lib: Library, states: seq<Disk>, events: seq<Event>, zone: string, i: nat, j: nat)
    requires Run(lib, states, events) && i <= j < |states| && Lives(states, zone, i, j)
    ensures Serial(states[i].zones[zone]) <= Serial(states[j].zones[zone])
    decreases j - i
  {
    if i < j {
      SerialMonotone(lib, states, events, zone, i, j - 1);
      assert Transition(lib, states[j - 1], states[j], events[j - 1]);
      assert ZoneEvolves(lib, states[j - 1], states[j], zone);
    }
  }

  lemma SameRevision(lib: Library, a: Content, b: Content)
    requires CollisionFree(lib)
    ensures lib.revision(a) == lib.revision(b) ==> a == b
  {
  }

  /** No revision ever comes back: once an operation has changed the file of a zone,
      whatever it answered, the revision it found there is not found again within the
      lifetime of the zone. */
  lemma RevisionGone(lib: Library, states: seq<Disk>, events: seq<Event>, zone: string, i: nat, j: nat)
    requires CollisionFree(lib) && Run(lib, states, events) && i < j < |states| && Lives(states, zone, i, j)
    requires states[i + 1].zones[zone] != states[i].zones[zone]
    ensures lib.revision(states[j].zones[zone]) != lib.revision(states[i].zones[zone])
  {
    assert Transition(lib, states[i], states[i + 1], events[i]);
    assert ZoneEvolves(lib, states[i], states[i + 1], zone);
    SerialMonotone(lib, states, events, zone, i + 1, j);
    SameRevision(lib, states[j].zones[zone], states[i].zones[zone]);
  }

  /** Within a lifetime at most one operation that expects a given revision changes the
      zone file, whatever the others answered. */
  lemma ChangedOnce(lib: Library, states: seq<Disk>, events: seq<Event>, zone: string, expected: string, i: nat, j: nat)
    requires CollisionFree(lib) && Run(lib, states, events) && i < j < |events| && Lives(states, zone, i, j)
    requires Confined(lib, states[i], states[i + 1], zone, expected)
    requires Confined(lib, states[j], states[j + 1], zone, expected)
    ensures states[i + 1].zones == states[i].zones || states[j + 1].zones == states[j].zones
  {
    if states[i + 1].zones != states[i].zones {
      ConfinedChange(lib, states[i], states[i + 1], zone, expected);
      RevisionGone(lib, states, events, zone, i, j);
    }
  }

  lemma ConfinedChange(lib: Library, pre: Disk, post: Disk, zone: string, expected: string)
    requires Confined(lib, pre, post, zone, expected) && post.zones != pre.zones && zone in pre.zones
    requires zone in post.zones
    ensures post.zones[zone] != pre.zones[zone]
  {
    assert post.zones == (post.zones - {zone})[zone := post.zones[zone]];
    assert pre.zones == (pre.zones - {zone})[zone := pre.zones[zone]];
  }

  /** Within a lifetime no two publications were made over the same expected revision,
      and the serials that are published strictly increase. */
  lemma PublishedOnce(lib: Library, states: seq<Disk>, events: seq<Event>, i: nat, j: nat)
    requires CollisionFree(lib) && Run(lib, states, events) && i < j < |events|
    requires events[i].Published? && events[j].Published? && events[i].zone == events[j].zone
    requires Lives(states, events[i].zone, i, j)
    ensures events[i].expected != events[j].expected
    ensures Serial(events[i].content) < Serial(events[j].content)
  {
    var zone := events[i].zone;
    assert Transition(lib, states[i], states[i + 1], events[i]);
    assert Transition(lib, states[j], states[j + 1], events[j]);
    SerialMonotone(lib, states, events, zone, i + 1, j);
    RevisionGone(lib, states, events, zone, i, j);
  }

  /** A content that was once live is, ever after, still live or in the history, even
      when the zone is deleted and created again. */
  lemma {:induction false} NeverLost(lib: Library, states: seq<Disk>, events: seq<Event>, zone: string, i: nat, j: nat)
    requires Run(lib, states, events) && i <= j < |states| && zone in states[i].zones
    ensures || (zone in states[j].zones && states[j].zones[zone] == states[i].zones[zone])
            || Saved(lib, states[j], zone, states[i].zones[zone])
    decreases j - i
  {
    if i < j {
      NeverLost(lib, states, events, zone, i, j - 1);
      assert Transition(lib, states[j - 1], states[j], events[j - 1]);
      assert ZoneEvolves(lib, states[j - 1], states[j], zone);
    }
  }

  /** The content of every publication stays live or in the history. */
  lemma PublishedKept(lib: Library, states: seq<Disk>, events: seq<Event>, i: nat, j: nat)
    requires Run(lib, states, events) && i < j < |states| && i < |events| && events[i].Published?
    ensures || (events[i].zone in states[j].zones && states[j].zones[events[i].zone] == events[i].content)
            || Saved(lib, states[j], events[i].zone, events[i].content)
  {
    assert Transition(lib, states[i], states[i + 1], events[i]);
    NeverLost(lib, states, events, events[i].zone, i + 1, j);
  }

  /** History entries never change and never go away. */
  lemma {:induction false} HistoryKept(
    lib: Library, states: seq<Disk>, events: seq<Event>, key: HistoryKey, i: nat, j: nat)
    requires Run(lib, states, events) && i <= j < |states| && key in states[i].history
    ensures key in states[j].history && states[j].history[key] == states[i].history[key]
    decreases j - i
  {
    if i < j {
      HistoryKept(lib, states, events, key, i, j - 1);
      assert Transition(lib, states[j - 1], states[j], events[j - 1]);
    }
  }

  /** Every zone file and history file is valid in every state of a run. */
  lemma RunSound(lib: Library, states: seq<Disk>, events: seq<Event>, i: nat)
    requires Run(lib, states, events) && Sound(lib, states[0]) && i < |states|
    ensures Sound(lib, states[i])
  {
    if i > 0 {
      assert Transition(lib, states[i - 1], states[i], events[i - 1]);
    }
  }
}
