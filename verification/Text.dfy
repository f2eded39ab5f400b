/** String helpers of the Go standard library that the modelled code relies on,
    over ASCII letters and white space, and the byte order used by its sorts. */
module Text {

  predicate IsSpace(c: char) {
    c in {' ', '\t', '\n', '\r', '\U{0B}', '\U{0C}'}
  }

  function TrimLeft(s: string): string {
    if s != [] && IsSpace(s[0]) then TrimLeft(s[1..]) else s
  }

  function TrimRight(s: string): string {
    if s != [] && IsSpace(s[|s| - 1]) then TrimRight(s[..|s| - 1]) else s
  }

  /** `strings.TrimSpace` */
  function TrimSpace(s: string): string {
    TrimRight(TrimLeft(s))
  }

  lemma {:induction false} TrimLeftHead(s: string)
    ensures TrimLeft(s) == "" || !IsSpace(TrimLeft(s)[0])
  {
    if s != [] && IsSpace(s[0]) {
      TrimLeftHead(s[1..]);
    }
  }

  lemma {:induction false} TrimRightEnds(s: string)
    ensures TrimRight(s) == "" || (!IsSpace(TrimRight(s)[|TrimRight(s)| - 1]) && TrimRight(s)[0] == s[0])
  {
    if s != [] && IsSpace(s[|s| - 1]) {
      TrimRightEnds(s[..|s| - 1]);
    }
  }

  /** Trimmed text neither begins nor ends with white space. */
  lemma TrimSpaceEnds(s: string)
    ensures TrimSpace(s) == "" || (!IsSpace(TrimSpace(s)[0]) && !IsSpace(TrimSpace(s)[|TrimSpace(s)| - 1]))
  {
    TrimLeftHead(s);
    TrimRightEnds(TrimLeft(s));
  }

  lemma AlreadyTrimmed(s: string)
    requires s != "" && !IsSpace(s[0]) && !IsSpace(s[|s| - 1])
    ensures TrimSpace(s) == s
  {
  }

  function LowerChar(c: char): char {
    if 'A' <= c <= 'Z' then (c as int + 32) as char else c
  }

  function UpperChar(c: char): char {
    if 'a' <= c <= 'z' then (c as int - 32) as char else c
  }

  /** `strings.ToLower` */
  function ToLower(s: string): string {
    seq(|s|, i requires 0 <= i < |s| => LowerChar(s[i]))
  }

  /** `strings.ToUpper` */
  function ToUpper(s: string): string {
    seq(|s|, i requires 0 <= i < |s| => UpperChar(s[i]))
  }

  predicate HasSuffix(s: string, suffix: string) {
    |suffix| <= |s| && s[|s| - |suffix|..] == suffix
  }

  /** `strings.TrimSuffix` */
  function TrimSuffix(s: string, suffix: string): string {
    if HasSuffix(s, suffix) then s[..|s| - |suffix|] else s
  }

  function TrailingBackslashes(s: string): nat {
    if s != [] && s[|s| - 1] == '\\' then TrailingBackslashes(s[..|s| - 1]) + 1 else 0
  }

  /** `dns.IsFqdn`: the name ends in a dot that is not escaped. */
  predicate IsFqdn(s: string) {
    s != [] && s[|s| - 1] == '.' && TrailingBackslashes(s[..|s| - 1]) % 2 == 0
  }

  /** `dns.Fqdn` */
  function Fqdn(s: string): (r: string)
    ensures r != [] && r[|r| - 1] == '.'
  {
    if IsFqdn(s) then s else s + "."
  }

  /** The `<` of Go strings. */
  predicate Less(a: string, b: string) {
    b != [] && (a == [] || a[0] < b[0] || (a[0] == b[0] && Less(a[1..], b[1..])))
  }

  lemma {:induction false} LessTransitive(a: string, b: string, c: string)
    requires Less(a, b) && Less(b, c)
    ensures Less(a, c)
  {
    if a != [] && a[0] == b[0] && b[0] == c[0] {
      LessTransitive(a[1..], b[1..], c[1..]);
    }
  }

  lemma {:induction false} LessTotal(a: string, b: string)
    ensures a == b || Less(a, b) || Less(b, a)
    ensures !(Less(a, b) && Less(b, a))
    ensures a == b ==> !Less(a, b)
  {
    if a != [] && b != [] && a[0] == b[0] {
      LessTotal(a[1..], b[1..]);
      assert a == [a[0]] + a[1..] && b == [b[0]] + b[1..];
    }
  }

  lemma NotLessTransitive(a: string, b: string, c: string)
    requires !Less(a, b) && !Less(b, c)
    ensures !Less(a, c)
  {
    LessTotal(a, b);
    LessTotal(b, c);
    if Less(a, c) {
      if a != b && b != c {
        LessTransitive(c, b, a);
      }
      LessTotal(a, c);
    }
  }

  /** The first place where two strings differ decides. */
  lemma {:induction false} LessAt(a: string, b: string, i: nat)
    requires i <= |a| && i < |b| && a[..i] == b[..i]
    ensures i == |a| || a[i] < b[i] ==> Less(a, b)
    ensures i < |a| && a[i] > b[i] ==> Less(b, a)
  {
    if i > 0 {
      assert a[0] == a[..i][0] && b[0] == b[..i][0];
      assert a[1..][..i - 1] == a[..i][1..] && b[1..][..i - 1] == b[..i][1..];
      LessAt(a[1..], b[1..], i - 1);
    }
  }

  /** A common beginning does not matter. */
  lemma {:induction false} LessPrefix(head: string, a: string, b: string)
    ensures Less(head + a, head + b) <==> Less(a, b)
  {
    if head == [] {
      assert head + a == a && head + b == b;
    } else {
      assert (head + a)[1..] == head[1..] + a && (head + b)[1..] == head[1..] + b;
      LessPrefix(head[1..], a, b);
    }
  }

  /** Strings of the same length decide before what follows them. */
  lemma {:induction false} LessExtend(a: string, b: string, x: string, y: string)
    requires |a| == |b| && Less(a, b)
    ensures Less(a + x, b + y)
  {
    if a[0] == b[0] {
      assert (a + x)[1..] == a[1..] + x && (b + y)[1..] == b[1..] + y;
      LessExtend(a[1..], b[1..], x, y);
    }
  }

  function InsertString(sorted: seq<string>, s: string): seq<string> {
    if sorted == [] || Less(s, sorted[0]) then [s] + sorted else [sorted[0]] + InsertString(sorted[1..], s)
  }

  /** `sort.Strings` */
  function SortStrings(list: seq<string>): seq<string> {
    if list == [] then [] else InsertString(SortStrings(list[1..]), list[0])
  }

  ghost predicate SortedStrings(list: seq<string>) {
    forall i, j {:trigger Less(list[j], list[i])} :: 0 <= i < j < |list| ==> !Less(list[j], list[i])
  }

  lemma {:induction false} InsertStringSorted(sorted: seq<string>, s: string)
    requires SortedStrings(sorted)
    ensures SortedStrings(InsertString(sorted, s))
    ensures multiset(InsertString(sorted, s)) == multiset(sorted) + multiset{s}
  {
    if sorted == [] {
    } else if Less(s, sorted[0]) {
      forall j | 0 <= j < |sorted| ensures !Less(sorted[j], s) {
        LessTotal(sorted[j], sorted[0]);
        if Less(sorted[j], s) {
          LessTransitive(sorted[j], s, sorted[0]);
        }
      }
    } else {
      assert sorted == [sorted[0]] + sorted[1..];
      InsertStringSorted(sorted[1..], s);
      var tail := InsertString(sorted[1..], s);
      forall j | 0 <= j < |tail| ensures !Less(tail[j], sorted[0]) {
        assert tail[j] in multiset(tail);
      }
    }
  }

  /** Sorting gives the same strings, in order. */
  lemma {:induction false} SortStringsSorted(list: seq<string>)
    ensures SortedStrings(SortStrings(list)) && multiset(SortStrings(list)) == multiset(list)
  {
    if list != [] {
      SortStringsSorted(list[1..]);
      InsertStringSorted(SortStrings(list[1..]), list[0]);
      assert list == [list[0]] + list[1..];
    }
  }

  /** A sorted list is determined by its elements. */
  lemma {:induction false} SortedUnique(a: seq<string>, b: seq<string>)
    requires SortedStrings(a) && SortedStrings(b) && multiset(a) == multiset(b)
    ensures a == b
  {
    if a == [] {
      assert |b| == |multiset(b)|;
    } else {
      assert |a| == |multiset(a)| == |multiset(b)| == |b|;
      SameLeast(a, b);
      assert a == [a[0]] + a[1..] && b == [b[0]] + b[1..];
      assert multiset(a[1..]) == multiset(a) - multiset{a[0]};
      assert multiset(b[1..]) == multiset(b) - multiset{b[0]};
      SortedUnique(a[1..], b[1..]);
    }
  }

  lemma SameLeast(a: seq<string>, b: seq<string>)
    requires SortedStrings(a) && SortedStrings(b) && multiset(a) == multiset(b) && a != [] && b != []
    ensures a[0] == b[0]
  {
    assert a[0] in multiset(b) && b[0] in multiset(a);
    var i :| 0 <= i < |b| && b[i] == a[0];
    var j :| 0 <= j < |a| && a[j] == b[0];
    LessTotal(a[0], b[0]);
    assert i > 0 ==> !Less(b[i], b[0]);
    assert j > 0 ==> !Less(a[j], a[0]);
  }

  /** Sorting a sorted list changes nothing. */
  lemma SortSorted(list: seq<string>)
    ensures SortStrings(SortStrings(list)) == SortStrings(list)
  {
    SortStringsSorted(list);
    SortStringsSorted(SortStrings(list));
    SortedUnique(SortStrings(SortStrings(list)), SortStrings(list));
  }
}
