/** The responses remembered for idempotency keys, their expiry and their eviction. */
module IdempotencyEntries {

  /** 24 hours, in nanoseconds. */
  const TTL: int := 86_400_000_000_000
  const MAX_ENTRIES: nat := 1000
  const MAX_KEY: nat := 255

  datatype Entry = Entry(fingerprint: string, status: int, body: string, etag: string, createdAt: int)

  predicate Live(e: Entry, now: int) {
    now - e.createdAt < TTL
  }

  /** What pruning leaves: live entries only, unchanged, at most 1000; a live entry is
      evicted only if 1000 others remain, none of them older. */
  ghost predicate Pruned(before: map<string, Entry>, after: map<string, Entry>, now: int) {
    && (forall k :: k in after ==> k in before && after[k] == before[k] && Live(after[k], now))
    && |after| <= MAX_ENTRIES
    && (forall k :: Evicted(before, after, now, k) ==> |after| == MAX_ENTRIES && NoneOlder(after, before[k].createdAt))
  }

  ghost predicate Evicted(before: map<string, Entry>, after: map<string, Entry>, now: int, k: string) {
    k in before && k !in after && Live(before[k], now)
  }

  ghost predicate NoneOlder(entries: map<string, Entry>, createdAt: int) {
    forall k :: k in entries ==> createdAt <= entries[k].createdAt
  }

  method DropExpired(entries: map<string, Entry>, now: int) returns (live: map<string, Entry>)
    ensures forall k :: k in live <==> k in entries && Live(entries[k], now)
    ensures forall k :: k in live ==> live[k] == entries[k]
  {
    live := entries;
    var todo := entries.Keys;
    while todo != {}
      invariant todo <= entries.Keys
      invariant forall k :: k in live ==> k in entries && live[k] == entries[k]
      invariant forall k :: k in entries ==> (k in live <==> k in todo || Live(entries[k], now))
      decreases |todo|
    {
      var k :| k in todo;
      if !Live(entries[k], now) {
        live := live - {k};
      }
      todo := todo - {k};
    }
  }

  // ------------------------------------------------------------ keys by age

  ghost predicate KeysOf(keys: seq<string>, entries: map<string, Entry>) {
    && (forall k :: k in keys ==> k in entries)
    && (forall k :: k in entries ==> k in keys)
    && (forall i, j :: 0 <= i < j < |keys| ==> keys[i] != keys[j])
  }

  ghost predicate ByAge(keys: seq<string>, entries: map<string, Entry>)
    requires forall k :: k in keys ==> k in entries
  {
    forall i, j :: 0 <= i < j < |keys| ==> entries[keys[i]].createdAt <= entries[keys[j]].createdAt
  }

  /** Insert a key before the first one that was created no earlier. */
  method InsertByAge(sorted: seq<string>, key: string, entries: map<string, Entry>) returns (r: seq<string>)
    requires (forall k :: k in sorted ==> k in entries) && ByAge(sorted, entries) && key in entries
    requires key !in sorted && forall i, j :: 0 <= i < j < |sorted| ==> sorted[i] != sorted[j]
    ensures forall k :: k in r <==> k in sorted || k == key
    ensures ByAge(r, entries) && |r| == |sorted| + 1
    ensures forall i, j :: 0 <= i < j < |r| ==> r[i] != r[j]
  {
    var at := 0;
    while at < |sorted| && entries[sorted[at]].createdAt < entries[key].createdAt
      invariant at <= |sorted|
      invariant forall i :: 0 <= i < at ==> entries[sorted[i]].createdAt < entries[key].createdAt
    {
      at := at + 1;
    }
    r := sorted[..at] + [key] + sorted[at..];
    InsertedAt(sorted, key, at, r);
    AgedAt(sorted, key, at, r, entries);
  }

  lemma InsertedAt(sorted: seq<string>, key: string, at: nat, r: seq<string>)
    requires at <= |sorted| && r == sorted[..at] + [key] + sorted[at..]
    requires key !in sorted && forall i, j :: 0 <= i < j < |sorted| ==> sorted[i] != sorted[j]
    ensures forall k :: k in r <==> k in sorted || k == key
    ensures forall i, j :: 0 <= i < j < |r| ==> r[i] != r[j]
  {
    assert forall k :: k in sorted <==> k in sorted[..at] || k in sorted[at..];
  }

  lemma AgedAt(sorted: seq<string>, key: string, at: nat, r: seq<string>, entries: map<string, Entry>)
    requires at <= |sorted| && r == sorted[..at] + [key] + sorted[at..]
    requires key in entries && (forall k :: k in sorted ==> k in entries) && ByAge(sorted, entries)
    requires forall i :: 0 <= i < at ==> entries[sorted[i]].createdAt < entries[key].createdAt
    requires at < |sorted| ==> entries[key].createdAt <= entries[sorted[at]].createdAt
    requires forall k :: k in r ==> k in entries
    ensures ByAge(r, entries)
  {
    assert forall i :: 0 <= i < |r| ==> r[i] == if i < at then sorted[i] else if i == at then key else sorted[i - 1];
  }

  /** The keys in the order `pruneLocked` sorts them; the order of keys of the same age
      is left open. */
  method KeysByAge(entries: map<string, Entry>) returns (keys: seq<string>)
    ensures KeysOf(keys, entries) && ByAge(keys, entries) && |keys| == |entries|
  {
    keys := [];
    var todo := entries.Keys;
    while todo != {}
      invariant todo <= entries.Keys && |keys| + |todo| == |entries|
      invariant forall k :: k in keys <==> k in entries && k !in todo
      invariant ByAge(keys, entries)
      invariant forall i, j :: 0 <= i < j < |keys| ==> keys[i] != keys[j]
      decreases |todo|
    {
      var k :| k in todo;
      keys := InsertByAge(keys, k, entries);
      todo := todo - {k};
    }
  }

  /** Deletion of the oldest entries. */
  method DropOldest(entries: map<string, Entry>, keys: seq<string>, n: nat) returns (r: map<string, Entry>)
    requires KeysOf(keys, entries) && n <= |keys|
    ensures Without(entries, keys, n, r) && |r| == |entries| - n
  {
    r := entries;
    for i := 0 to n
      invariant Without(entries, keys, i, r) && |r| == |entries| - i
    {
      WithoutNext(entries, keys, i, r);
      r := r - {keys[i]};
    }
  }

  /** The entries without the first n of the listed keys. */
  ghost predicate Without(entries: map<string, Entry>, keys: seq<string>, n: nat, r: map<string, Entry>) {
    && (forall i :: 0 <= i < |keys| ==> (keys[i] in r <==> n <= i))
    && (forall k :: k in r ==> k in entries && r[k] == entries[k])
  }

  lemma WithoutNext(entries: map<string, Entry>, keys: seq<string>, i: nat, r: map<string, Entry>)
    requires KeysOf(keys, entries) && i < |keys| && Without(entries, keys, i, r)
    ensures Without(entries, keys, i + 1, r - {keys[i]}) && |r - {keys[i]}| == |r| - 1
  {
    assert keys[i] in r;
    assert (r - {keys[i]}).Keys == r.Keys - {keys[i]};
  }

  lemma OldestGone(entries: map<string, Entry>, keys: seq<string>, n: nat, r: map<string, Entry>, k: string)
    requires KeysOf(keys, entries) && ByAge(keys, entries) && Without(entries, keys, n, r)
    requires k in entries && k !in r
    ensures NoneOlder(r, entries[k].createdAt)
  {
    var i :| 0 <= i < |keys| && keys[i] == k;
    forall l | l in r ensures entries[k].createdAt <= r[l].createdAt {
      var j :| 0 <= j < |keys| && keys[j] == l;
    }
  }

  /** `pruneLocked` */
  method Prune(entries: map<string, Entry>, now: int) returns (r: map<string, Entry>)
    ensures Pruned(entries, r, now)
  {
    var live := DropExpired(entries, now);
    if |live| <= MAX_ENTRIES {
      return live;
    }
    var keys := KeysByAge(live);
    r := DropOldest(live, keys, |keys| - MAX_ENTRIES);
    forall k | Evicted(entries, r, now, k) ensures NoneOlder(r, entries[k].createdAt) {
      OldestGone(live, keys, |keys| - MAX_ENTRIES, r, k);
    }
  }

  /** Nothing live goes while at most 1000 entries are live. */
  lemma PruneKeeps(before: map<string, Entry>, after: map<string, Entry>, live: map<string, Entry>, now: int)
    requires Pruned(before, after, now)
    requires forall k :: k in live <==> k in before && Live(before[k], now)
    requires forall k :: k in live ==> live[k] == before[k]
    requires |live| <= MAX_ENTRIES
    ensures after == live
  {
    assert after.Keys <= live.Keys;
    if k :| k in live && k !in after {
      assert Evicted(before, after, now, k);
      SmallerDomain(after, live, k);
    }
  }

  lemma SmallerDomain(a: map<string, Entry>, b: map<string, Entry>, k: string)
    requires a.Keys <= b.Keys && k in b && k !in a
    ensures |a| < |b|
  {
    assert b.Keys == a.Keys + (b.Keys - a.Keys) && k in b.Keys - a.Keys;
    assert |b.Keys - a.Keys| > 0;
    assert |a| == |a.Keys| && |b| == |b.Keys|;
  }

  // ------------------------------------------------------------------- keys

  /** Visible ASCII. */
  predicate Visible(c: char) {
    '!' <= c <= '~'
  }

  /** `validIdempotencyKey`, over bytes. */
  method ValidKey(key: string) returns (ok: bool)
    ensures ok <==> 1 <= |key| <= MAX_KEY && forall c :: c in key ==> Visible(c)
  {
    if |key| == 0 || |key| > MAX_KEY {
      return false;
    }
    for i := 0 to |key|
      invariant forall c :: c in key[..i] ==> Visible(c)
    {
      if key[i] < '!' || key[i] > '~' {
        assert key[i] in key && !Visible(key[i]);
        return false;
      }
    }
    assert key[..|key|] == key;
    return true;
  }
}
