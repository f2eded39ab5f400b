/** The ring of recent queries, against the list of everything added to it. */
module Ring {

  /** The last `n` elements of a sequence. */
  function Last<T>(s: seq<T>, n: nat): seq<T> {
    if |s| <= n then s else s[|s| - n..]
  }

  /** `orderedRecentLocked`: the slots of a ring, oldest first. */
  function InOrder<T>(slots: seq<T>, next: nat, capacity: nat): seq<T>
    requires next <= |slots|
  {
    if |slots| < capacity || next == 0 then slots else slots[next..] + slots[..next]
  }

  /** The ring holds the newest of all elements ever added. */
  ghost predicate Holds<T>(slots: seq<T>, next: nat, capacity: nat, added: seq<T>) {
    && next <= |slots| <= capacity
    && (next > 0 ==> next < |slots| == capacity)
    && InOrder(slots, next, capacity) == Last(added, capacity)
  }

  /** Appending while there is room keeps the ring right. */
  lemma Append<T>(slots: seq<T>, next: nat, capacity: nat, added: seq<T>, e: T)
    requires Holds(slots, next, capacity, added) && |slots| < capacity
    ensures next == 0 && added == slots
    ensures Holds(slots + [e], next, capacity, added + [e])
  {
  }

  lemma Successor(next: nat, capacity: nat)
    requires next < capacity
    ensures (next + 1) % capacity == if next + 1 == capacity then 0 else next + 1
  {
  }

  lemma Rotated<T>(slots: seq<T>, next: nat, e: T)
    requires next < |slots|
    ensures (slots[next..] + slots[..next])[1..] + [e] ==
            if next + 1 == |slots| then slots[next := e]
                else slots[next := e][next + 1..] + slots[next := e][..next + 1]
  {
  }

  /** So does overwriting the oldest slot of a full ring. */
  lemma Overwrite<T>(slots: seq<T>, next: nat, capacity: nat, added: seq<T>, e: T)
    requires 0 < capacity == |slots| && Holds(slots, next, capacity, added)
    ensures next < capacity
    ensures Holds(slots[next := e], (next + 1) % capacity, capacity, added + [e])
  {
    Successor(next, capacity);
    Rotated(slots, next, e);
    assert slots[next..] + slots[..next] == Last(added, capacity) by {
      assert next == 0 ==> slots[next..] + slots[..next] == slots;
    }
    assert Last(added + [e], capacity) == Last(added, capacity)[1..] + [e];
  }
}
