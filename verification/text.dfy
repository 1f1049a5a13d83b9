/** Character and string helpers with Python's meaning: `str.isspace`,
    `str.strip`, slicing, `in` on strings, `str.lower` (ASCII letters only)
    and the decimal renderings used by f-strings for integers. */
module Text {

  /** Python's `str.isspace` (and the regex class `\s` on str patterns). */
  predicate IsSpace(c: char) {
    || c == ' '
    || ('\t' <= c <= '\r')
    || ('\U{1C}' <= c <= '\U{1F}')
    || c == '\U{85}' || c == '\U{A0}' || c == '\U{1680}'
    || ('\U{2000}' <= c <= '\U{200A}')
    || c == '\U{2028}' || c == '\U{2029}' || c == '\U{202F}'
    || c == '\U{205F}' || c == '\U{3000}'
  }

  predicate IsDigit(c: char) {
    '0' <= c <= '9'
  }

  predicate AllDigits(s: string) {
    forall i :: 0 <= i < |s| ==> IsDigit(s[i])
  }

  function LowerChar(c: char): char {
    if 'A' <= c <= 'Z' then (c as int + 32) as char else c
  }

  /** `str.lower()` restricted to ASCII letters. */
  function ToLower(s: string): (r: string)
    ensures |r| == |s|
    ensures forall i :: 0 <= i < |s| ==> r[i] == LowerChar(s[i])
  {
    seq(|s|, i requires 0 <= i < |s| => LowerChar(s[i]))
  }

  // ---------------------------------------------------------------- substring

  /** `needle` occurs in `hay` starting at index `i`. */
  predicate OccursAt(needle: string, hay: string, i: int) {
    0 <= i && i + |needle| <= |hay| && hay[i..i + |needle|] == needle
  }

  /** Python's `needle in hay`. */
  function Contains(hay: string, needle: string): (r: bool)
    ensures r <==> exists i :: OccursAt(needle, hay, i)
  {
    ContainsFrom(hay, needle, 0)
  }

  function ContainsFrom(hay: string, needle: string, start: nat): (r: bool)
    requires start <= |hay|
    ensures r <==> exists i :: start <= i && OccursAt(needle, hay, i)
    decreases |hay| - start
  {
    if start + |needle| > |hay| then false
    else if hay[start..start + |needle|] == needle then assert OccursAt(needle, hay, start); true
    else ContainsFrom(hay, needle, start + 1)
  }

  /** Python's `s.endswith(suffix)`. */
  predicate EndsWith(s: string, suffix: string) {
    |suffix| <= |s| && s[|s| - |suffix|..] == suffix
  }

  // ---------------------------------------------------------------- strip

  /** Index of the first non-whitespace character (or |s|). */
  function StripStart(s: string): (i: nat)
    ensures i <= |s|
    ensures forall k {:trigger IsSpace(s[k])} :: 0 <= k < i ==> IsSpace(s[k])
    ensures i < |s| ==> !IsSpace(s[i])
  {
    if |s| == 0 || !IsSpace(s[0]) then 0 else 1 + StripStart(s[1..])
  }

  /** Index one past the last non-whitespace character at or after `lo`. */
  function StripEnd(s: string, lo: nat): (j: nat)
    requires lo <= |s|
    ensures lo <= j <= |s|
    ensures forall k {:trigger IsSpace(s[k])} :: j <= k < |s| ==> IsSpace(s[k])
    ensures j > lo ==> !IsSpace(s[j - 1])
    decreases |s|
  {
    if |s| == lo || !IsSpace(s[|s| - 1]) then |s| else StripEnd(s[..|s| - 1], lo)
  }

  /** Python's `s.strip()`: the slice between the surrounding whitespace. */
  function Strip(s: string): (r: string)
    ensures |r| <= |s|
    ensures |r| > 0 ==> !IsSpace(r[0]) && !IsSpace(r[|r| - 1])
    ensures r == s[StripStart(s)..StripEnd(s, StripStart(s))]
  {
    var i := StripStart(s);
    s[i..StripEnd(s, i)]
  }

  /** Python's `s[:n]`. */
  function Take(s: string, n: nat): (r: string)
    ensures |r| <= n && |r| <= |s|
    ensures r == s[..|r|]
    ensures |s| <= n ==> r == s
  {
    if |s| <= n then s else s[..n]
  }

  // ---------------------------------------------------------------- integers

  function DigitChar(d: nat): (c: char)
    requires d < 10
    ensures IsDigit(c)
  {
    ('0' as int + d) as char
  }

  function DigitValue(c: char): nat
    requires IsDigit(c)
  {
    c as int - '0' as int
  }

  /** Python's `str(n)` for a non-negative integer. */
  function NatToString(n: nat): (r: string)
    ensures |r| >= 1 && AllDigits(r)
  {
    if n < 10 then [DigitChar(n)] else NatToString(n / 10) + [DigitChar(n % 10)]
  }

  /** The number written by a string of decimal digits. */
  function DecimalValue(s: string): nat
    requires AllDigits(s)
  {
    if |s| == 0 then 0 else 10 * DecimalValue(s[..|s| - 1]) + DigitValue(s[|s| - 1])
  }

  function Pow10(k: nat): nat {
    if k == 0 then 1 else 10 * Pow10(k - 1)
  }

  lemma AllDigitsConcat(a: string, b: string)
    requires AllDigits(a) && AllDigits(b)
    ensures AllDigits(a + b)
  {
    forall i | 0 <= i < |a + b| ensures IsDigit((a + b)[i]) {
      if i < |a| { assert (a + b)[i] == a[i]; } else { assert (a + b)[i] == b[i - |a|]; }
    }
  }

  /** Appending digits `b` to `a` shifts `a` left by `|b|` places. */
  lemma {:induction false} DecimalValueAppend(a: string, b: string)
    requires AllDigits(a) && AllDigits(b)
    ensures AllDigits(a + b)
    ensures DecimalValue(a + b) == DecimalValue(a) * Pow10(|b|) + DecimalValue(b)
    decreases |b|
  {
    AllDigitsConcat(a, b);
    if |b| == 0 {
      assert a + b == a;
    } else {
      var b' := b[..|b| - 1];
      assert (a + b)[..|a + b| - 1] == a + b';
      assert (a + b)[|a + b| - 1] == b[|b| - 1];
      DecimalValueAppend(a, b');
      var x, p, y, d := DecimalValue(a), Pow10(|b'|), DecimalValue(b'), DigitValue(b[|b| - 1]);
      assert DecimalValue(a + b) == 10 * (x * p + y) + d;
      ShiftDigit(x, p, y, d);
    }
  }

  lemma ShiftDigit(x: int, p: int, y: int, d: int)
    ensures 10 * (x * p + y) + d == x * (10 * p) + (10 * y + d)
  {
  }

  /** Reading back the decimal rendering gives the number. */
  lemma {:induction false} NatToStringRoundTrip(n: nat)
    ensures DecimalValue(NatToString(n)) == n
  {
    if n >= 10 {
      var r := NatToString(n);
      NatToStringRoundTrip(n / 10);
      assert r[..|r| - 1] == NatToString(n / 10);
      assert r[|r| - 1] == DigitChar(n % 10);
    }
  }

  /** Three digits with leading zeros. */
  function Pad3(n: nat): (r: string)
    requires n < 1000
    ensures |r| == 3 && AllDigits(r)
  {
    [DigitChar(n / 100), DigitChar(n / 10 % 10), DigitChar(n % 10)]
  }

  /** Python's `f"{n:,}"`: decimal digits grouped by three with commas. */
  function GroupThousands(n: nat): (r: string)
    ensures |r| >= 1
  {
    if n < 1000 then NatToString(n) else GroupThousands(n / 1000) + "," + Pad3(n % 1000)
  }

  function RemoveCommas(s: string): (r: string)
    ensures forall i :: 0 <= i < |r| ==> r[i] != ','
  {
    if |s| == 0 then []
    else (if s[0] == ',' then [] else [s[0]]) + RemoveCommas(s[1..])
  }

  lemma {:induction false} RemoveCommasAppend(a: string, b: string)
    ensures RemoveCommas(a + b) == RemoveCommas(a) + RemoveCommas(b)
  {
    if |a| == 0 {
      assert a + b == b;
    } else {
      assert (a + b)[1..] == a[1..] + b;
      RemoveCommasAppend(a[1..], b);
    }
  }

  lemma {:induction false} RemoveCommasDigits(s: string)
    requires AllDigits(s)
    ensures RemoveCommas(s) == s
  {
    if |s| > 0 {
      RemoveCommasDigits(s[1..]);
      assert s == [s[0]] + s[1..];
    }
  }

  lemma Pad3Value(m: nat)
    requires m < 1000
    ensures DecimalValue(Pad3(m)) == m
  {
    var t := Pad3(m);
    var t1 := t[..1];
    var t2 := t[..2];
    assert t2[..1] == t1 && t1[..0] == [];
    assert DecimalValue(t1) == m / 100;
    assert DecimalValue(t2) == 10 * (m / 100) + m / 10 % 10;
  }

  /** Dropping the separators from the grouped rendering gives the plain
      digits of `n`, so the grouping never changes the value shown. */
  lemma {:induction false} GroupThousandsRoundTrip(n: nat)
    ensures AllDigits(RemoveCommas(GroupThousands(n)))
    ensures DecimalValue(RemoveCommas(GroupThousands(n))) == n
  {
    if n < 1000 {
      RemoveCommasDigits(NatToString(n));
      NatToStringRoundTrip(n);
    } else {
      var head := GroupThousands(n / 1000);
      var tail := Pad3(n % 1000);
      GroupThousandsRoundTrip(n / 1000);
      RemoveCommasAppend(head + ",", tail);
      RemoveCommasAppend(head, ",");
      RemoveCommasDigits(tail);
      assert RemoveCommas(",") == [];
      var h := RemoveCommas(head);
      assert RemoveCommas(GroupThousands(n)) == h + tail;
      DecimalValueAppend(h, tail);
      Pad3Value(n % 1000);
      assert Pow10(3) == 1000;
      assert DecimalValue(h + tail) == n / 1000 * 1000 + n % 1000;
    }
  }

  /** Python's `str(x)` for a float `x` holding `c / 100` exactly: at least
      one fractional digit, trailing zeros dropped. */
  function FormatCents(c: int): (r: string)
    ensures |r| >= 3
  {
    var a := if c < 0 then -c else c;
    var frac := a % 100;
    (if c < 0 then "-" else "") + NatToString(a / 100) + "."
      + (if frac % 10 == 0 then [DigitChar(frac / 10)]
         else [DigitChar(frac / 10), DigitChar(frac % 10)])
  }
}
