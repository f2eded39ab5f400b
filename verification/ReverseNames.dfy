/** Reverse-zone owner names of IPv4 addresses. */
module ReverseNames {
  import opened Options
  import Text

  /** An IPv4 address as its four bytes, so that addresses compare as byte strings. */
  predicate IsAddress(ip: string) {
    |ip| == 4 && forall i :: 0 <= i < 4 ==> ip[i] as int < 256
  }

  predicate IsDigit(c: char) {
    '0' <= c <= '9'
  }

  function Digit(c: char): int {
    c as int - '0' as int
  }

  function DigitChar(d: int): char
    requires 0 <= d < 10
  {
    ('0' as int + d) as char
  }

  /** A decimal octet without leading zeros, as the address parser takes it. */
  function ParseOctet(s: string): Option<char> {
    if !(1 <= |s| <= 3) || (exists i :: 0 <= i < |s| && !IsDigit(s[i])) || (|s| > 1 && s[0] == '0') then None
    else
      var n := if |s| == 1 then Digit(s[0])
               else if |s| == 2 then 10 * Digit(s[0]) + Digit(s[1])
               else 100 * Digit(s[0]) + 10 * Digit(s[1]) + Digit(s[2]);
      if 0 <= n < 256 then Some(n as char) else None
  }

  function ShowOctet(c: char): string
    requires c as int < 256
  {
    var n := c as int;
    if n < 10 then [DigitChar(n)]
    else if n < 100 then [DigitChar(n / 10), DigitChar(n % 10)]
    else [DigitChar(n / 100), DigitChar(n / 10 % 10), DigitChar(n % 10)]
  }

  lemma DigitsBack(d: int)
    requires 0 <= d < 10
    ensures IsDigit(DigitChar(d)) && Digit(DigitChar(d)) == d && (DigitChar(d) == '0' <==> d == 0)
  {
  }

  lemma ParseOne(a: int)
    requires 0 <= a < 10
    ensures ParseOctet([DigitChar(a)]) == Some(a as char)
  {
    DigitsBack(a);
  }

  lemma ParseTwo(a: int, b: int)
    requires 1 <= a < 10 && 0 <= b < 10
    ensures ParseOctet([DigitChar(a), DigitChar(b)]) == Some((10 * a + b) as char)
  {
    DigitsBack(a);
    DigitsBack(b);
  }

  lemma ParseThree(a: int, b: int, c: int)
    requires 1 <= a < 10 && 0 <= b < 10 && 0 <= c < 10 && 100 * a + 10 * b + c < 256
    ensures ParseOctet([DigitChar(a), DigitChar(b), DigitChar(c)]) == Some((100 * a + 10 * b + c) as char)
  {
    DigitsBack(a);
    DigitsBack(b);
    DigitsBack(c);
  }

  lemma OctetRoundTrip(c: char)
    requires c as int < 256
    ensures ParseOctet(ShowOctet(c)) == Some(c)
  {
    var n := c as int;
    if n < 10 {
      ParseOne(n);
    } else if n < 100 {
      ParseTwo(n / 10, n % 10);
    } else {
      assert n == 100 * (n / 100) + 10 * (n / 10 % 10) + n % 10;
      ParseThree(n / 100, n / 10 % 10, n % 10);
    }
  }

  /** `reverseIPv4` on the labels of an owner name, with the address parsed. */
  function ReverseIPv4(labels: seq<string>): Option<string> {
    if |labels| != 6 || Text.ToLower(labels[4]) != "in-addr" || Text.ToLower(labels[5]) != "arpa" then None
    else
      var a, b, c, d := ParseOctet(labels[3]), ParseOctet(labels[2]), ParseOctet(labels[1]), ParseOctet(labels[0]);
      if a.Some? && b.Some? && c.Some? && d.Some? then Some([a.value, b.value, c.value, d.value]) else None
  }

  /** The owner labels of the PTR record of an address. */
  function ReverseLabels(ip: string): seq<string>
    requires IsAddress(ip)
  {
    [ShowOctet(ip[3]), ShowOctet(ip[2]), ShowOctet(ip[1]), ShowOctet(ip[0]), "in-addr", "arpa"]
  }

  /** The address is read back from its own reverse name. */
  lemma ReverseRoundTrip(ip: string)
    requires IsAddress(ip)
    ensures ReverseIPv4(ReverseLabels(ip)) == Some(ip)
  {
    OctetRoundTrip(ip[0]);
    OctetRoundTrip(ip[1]);
    OctetRoundTrip(ip[2]);
    OctetRoundTrip(ip[3]);
    LowerSuffix();
    assert ip == [ip[0], ip[1], ip[2], ip[3]];
  }

  lemma LowerSuffix()
    ensures Text.ToLower("in-addr") == "in-addr" && Text.ToLower("arpa") == "arpa"
  {
  }

  /** The value of a decimal numeral. */
  function ValueOf(s: string): int {
    if s == "" then 0 else 10 * ValueOf(s[..|s| - 1]) + Digit(s[|s| - 1])
  }

  /** The decimal numeral of an octet, without leading zeros. */
  ghost predicate Numeral(s: string, octet: char) {
    && s != "" && (forall i :: 0 <= i < |s| ==> '0' <= s[i] <= '9') && (|s| > 1 ==> s[0] != '0')
    && ValueOf(s) == octet as int < 256
  }

  lemma {:induction false} NumeralGrows(s: string)
    requires s != "" && s[0] != '0' && forall i :: 0 <= i < |s| ==> IsDigit(s[i])
    ensures ValueOf(s) >= 1 && (|s| >= 2 ==> ValueOf(s) >= 10) && (|s| >= 3 ==> ValueOf(s) >= 100)
    ensures |s| >= 4 ==> ValueOf(s) >= 1000
  {
    if |s| > 1 {
      NumeralGrows(s[..|s| - 1]);
    }
  }

  lemma ShortValue(s: string)
    ensures |s| == 1 ==> ValueOf(s) == Digit(s[0])
    ensures |s| == 2 ==> ValueOf(s) == 10 * Digit(s[0]) + Digit(s[1])
    ensures |s| == 3 ==> ValueOf(s) == 100 * Digit(s[0]) + 10 * Digit(s[1]) + Digit(s[2])
  {
    if s != "" && |s| <= 3 {
      var a := s[..|s| - 1];
      assert ValueOf(s) == 10 * ValueOf(a) + Digit(s[|s| - 1]);
      if a != "" {
        assert ValueOf(a) == 10 * ValueOf(a[..|a| - 1]) + Digit(a[|a| - 1]);
      }
    }
  }

  lemma OctetNumeral(s: string, octet: char)
    ensures ParseOctet(s) == Some(octet) <==> Numeral(s, octet)
  {
    ShortValue(s);
    if |s| > 3 && Numeral(s, octet) {
      NumeralGrows(s);
    }
  }

  /** A name below in-addr.arpa names the address whose octets its labels spell, the last
      octet first. */
  lemma ReverseSpells(labels: seq<string>, ip: string)
    ensures ReverseIPv4(labels) == Some(ip) <==>
            && |labels| == 6 && Text.ToLower(labels[4]) == "in-addr" && Text.ToLower(labels[5]) == "arpa"
            && |ip| == 4
            && Numeral(labels[0], ip[3]) && Numeral(labels[1], ip[2])
            && Numeral(labels[2], ip[1]) && Numeral(labels[3], ip[0])
  {
    if |labels| == 6 && |ip| == 4 {
      OctetNumeral(labels[0], ip[3]);
      OctetNumeral(labels[1], ip[2]);
      OctetNumeral(labels[2], ip[1]);
      OctetNumeral(labels[3], ip[0]);
      assert ip == [ip[0], ip[1], ip[2], ip[3]];
    }
  }
}
