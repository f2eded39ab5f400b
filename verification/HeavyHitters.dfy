/** The bounded counters of the query analytics: `incrementBounded` is the
    Misra-Gries frequent-items sketch. */
module HeavyHitters {
  import opened Sets

  type Counts = map<string, nat>

  function Count(m: Counts, key: string): nat {
    if key in m then m[key] else 0
  }

  /** Every counter lowered by one, those that reach zero dropped. */
  function Lowered(m: Counts): Counts {
    map x | x in m && m[x] > 1 :: m[x] - 1
  }

  predicate Overflows(m: Counts, key: string, limit: nat) {
    key !in m && |m| >= limit
  }

  function Incremented(m: Counts, key: string, limit: nat): Counts {
    if Overflows(m, key, limit) then Lowered(m) else m[key := Count(m, key) + 1]
  }

  method IncrementBounded(values: Counts, key: string, limit: nat) returns (result: Counts, overflowed: bool)
    ensures result == Incremented(values, key, limit)
    ensures overflowed == Overflows(values, key, limit)
  {
    result := values;
    if key in result {
      return result[key := result[key] + 1], false;
    }
    if |result| < limit {
      return result[key := 1], false;
    }
    var pending := values.Keys;
    while pending != {}
      invariant pending <= values.Keys
      invariant forall x :: x in result <==> x in values && (x in pending || values[x] > 1)
      invariant forall x :: x in result ==> result[x] == if x in pending then values[x] else values[x] - 1
      decreases |pending|
    {
      var existing :| existing in pending;
      pending := pending - {existing};
      if values[existing] <= 1 {
        result := result - {existing};
      } else {
        result := result[existing := values[existing] - 1];
      }
    }
    overflowed := true;
  }

  /** The map after a whole stream of keys went through `IncrementBounded`. */
  function Sketch(stream: seq<string>, limit: nat): Counts {
    if stream == [] then map[]
    else Incremented(Sketch(stream[..|stream| - 1], limit), stream[|stream| - 1], limit)
  }

  /** How many of those calls returned true. */
  function Overflowed(stream: seq<string>, limit: nat): nat {
    if stream == [] then 0
    else Overflowed(stream[..|stream| - 1], limit) +
         if Overflows(Sketch(stream[..|stream| - 1], limit), stream[|stream| - 1], limit) then 1 else 0
  }

  ghost function Sum(m: Counts): nat {
    if m == map[] then 0
    else
      var k :| k in m;
      m[k] + Sum(m - {k})
  }

  lemma {:induction false} SumSplit(m: Counts, k: string)
    requires k in m
    ensures Sum(m) == m[k] + Sum(m - {k})
    decreases |m|
  {
    var j :| j in m && Sum(m) == m[j] + Sum(m - {j});
    if j != k {
      SumSplit(m - {j}, k);
      SumSplit(m - {k}, j);
      assert m - {j} - {k} == m - {k} - {j};
    }
  }

  lemma SumUpdate(m: Counts, k: string, v: nat)
    ensures Sum(m[k := v]) == Sum(m) - Count(m, k) + v
  {
    var n := m[k := v];
    SumSplit(n, k);
    if k in m {
      SumSplit(m, k);
      assert n - {k} == m - {k};
    } else {
      assert n - {k} == m;
    }
  }

  predicate Positive(m: Counts) {
    forall x :: x in m ==> m[x] >= 1
  }

  lemma {:induction false} SumLowered(m: Counts)
    requires Positive(m)
    ensures Sum(Lowered(m)) + |m| == Sum(m)
    decreases |m|
  {
    if m != map[] {
      var k :| k in m;
      var rest := m - {k};
      SumLowered(rest);
      SumSplit(m, k);
      assert m.Keys == rest.Keys + {k};
      if m[k] > 1 {
        SumSplit(Lowered(m), k);
        assert Lowered(m) - {k} == Lowered(rest);
      } else {
        assert Lowered(m) == Lowered(rest);
      }
    }
  }

  lemma LoweredSize(m: Counts)
    ensures |Lowered(m)| <= |m|
  {
    assert Lowered(m).Keys <= m.Keys;
    SubsetSize(Lowered(m).Keys, m.Keys);
  }

  lemma MultisetSnoc(stream: seq<string>)
    requires stream != []
    ensures multiset(stream) == multiset(stream[..|stream| - 1]) + multiset{stream[|stream| - 1]}
  {
    assert stream == stream[..|stream| - 1] + [stream[|stream| - 1]];
  }

  lemma StepSize(m: Counts, key: string, limit: nat)
    requires Positive(m) && |m| <= limit
    ensures Positive(Incremented(m, key, limit))
    ensures |Incremented(m, key, limit)| <= limit
    ensures Sum(Incremented(m, key, limit)) ==
            if Overflows(m, key, limit) then Sum(m) - limit else Sum(m) + 1
  {
    if Overflows(m, key, limit) {
      SumLowered(m);
      LoweredSize(m);
    } else {
      SumUpdate(m, key, Count(m, key) + 1);
      assert key in m ==> m[key := Count(m, key) + 1].Keys == m.Keys;
    }
  }

  /** Counters stay positive and at most `limit` of them are held. */
  lemma {:induction false} SketchSize(stream: seq<string>, limit: nat)
    ensures Positive(Sketch(stream, limit))
    ensures |Sketch(stream, limit)| <= limit
  {
    if stream != [] {
      SketchSize(stream[..|stream| - 1], limit);
      StepSize(Sketch(stream[..|stream| - 1], limit), stream[|stream| - 1], limit);
    }
  }

  /** Every call is accounted for: it raised the total by one or lowered it by
      `limit`. */
  lemma {:induction false} Accounting(stream: seq<string>, limit: nat)
    ensures Sum(Sketch(stream, limit)) + (limit + 1) * Overflowed(stream, limit) == |stream|
  {
    if stream != [] {
      var before, key := stream[..|stream| - 1], stream[|stream| - 1];
      Accounting(before, limit);
      SketchSize(before, limit);
      StepSize(Sketch(before, limit), key, limit);
      AccountStep(limit, Sum(Sketch(before, limit)), Overflowed(before, limit), |before|,
                  Sum(Sketch(stream, limit)), Overflowed(stream, limit));
    }
  }

  lemma AccountStep(limit: nat, sum: nat, lost: nat, n: nat, sum': nat, lost': nat)
    requires sum + (limit + 1) * lost == n
    requires (sum' == sum + 1 && lost' == lost) || (sum' == sum - limit && lost' == lost + 1)
    ensures sum' + (limit + 1) * lost' == n + 1
  {
    Distribute(limit + 1, lost);
  }

  lemma Distribute(d: nat, q: nat)
    ensures d * (q + 1) == d * q + d
  {
  }

  /** Each counter lies between the true count and the true count less the number
      of overflowing calls. */
  lemma {:induction false} CounterBounds(stream: seq<string>, limit: nat, x: string)
    ensures Count(Sketch(stream, limit), x) <= multiset(stream)[x]
            <= Count(Sketch(stream, limit), x) + Overflowed(stream, limit)
  {
    if stream != [] {
      var before, key := stream[..|stream| - 1], stream[|stream| - 1];
      CounterBounds(before, limit, x);
      SketchSize(before, limit);
      MultisetSnoc(stream);
    }
  }

  /** The Misra-Gries bound in terms of the stream alone: a counter is short by at
      most N / (limit + 1), so every key seen more often than that is held, and
      the counters are exact when no call overflowed. */
  lemma MisraGries(stream: seq<string>, limit: nat, x: string)
    ensures Overflowed(stream, limit) <= |stream| / (limit + 1)
    ensures multiset(stream)[x] - |stream| / (limit + 1) <= Count(Sketch(stream, limit), x) <= multiset(stream)[x]
    ensures multiset(stream)[x] > |stream| / (limit + 1) ==> x in Sketch(stream, limit)
    ensures Overflowed(stream, limit) == 0 ==> Count(Sketch(stream, limit), x) == multiset(stream)[x]
  {
    Accounting(stream, limit);
    CounterBounds(stream, limit, x);
    QuotientBound(Overflowed(stream, limit), limit + 1, |stream|);
  }

  ghost function Names(stream: seq<string>): set<string> {
    set x | x in stream
  }

  lemma HeldNames(stream: seq<string>, limit: nat)
    requires Overflowed(stream, limit) == 0
    ensures Sketch(stream, limit).Keys == Names(stream)
  {
    SketchSize(stream, limit);
    forall x ensures x in Sketch(stream, limit) <==> x in stream {
      CounterBounds(stream, limit, x);
    }
  }

  /** No call overflows for a stream of at most `limit` different keys. */
  lemma {:induction false} OverflowNeedsMany(stream: seq<string>, limit: nat)
    requires Overflowed(stream, limit) > 0
    ensures |Names(stream)| > limit
  {
    var before, key := stream[..|stream| - 1], stream[|stream| - 1];
    assert stream == before + [key];
    assert Names(stream) == Names(before) + {key};
    if Overflowed(before, limit) > 0 {
      OverflowNeedsMany(before, limit);
      SubsetSize(Names(before), Names(stream));
    } else {
      HeldNames(before, limit);
    }
  }

  lemma QuotientBound(q: nat, d: nat, n: nat)
    requires d > 0 && d * q <= n
    ensures q <= n / d
  {
    Distribute(d, n / d);
    if n / d + 1 <= q {
      Monotone(d, n / d + 1, q);
    }
  }

  lemma Monotone(d: nat, a: nat, b: nat)
    requires a <= b
    ensures d * a <= d * b
  {
  }
}
