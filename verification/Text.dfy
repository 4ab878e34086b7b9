/** Text as the modelled code treats it: trimming, and decimal numerals. */
module Text {

  /** The characters String.prototype.trim removes. */
  predicate IsSpace(c: char) {
    || '\t' <= c <= '\r' || c == ' ' || c == '\U{a0}' || c == '\U{1680}'
    || '\U{2000}' <= c <= '\U{200a}' || c == '\U{2028}' || c == '\U{2029}'
    || c == '\U{202f}' || c == '\U{205f}' || c == '\U{3000}' || c == '\U{feff}'
  }

  /** The white space and line ends of sections 12.2 and 12.3 of ECMA-262, by code point. */
  lemma WhiteSpaceIs(c: char)
    ensures IsSpace(c) <==> c as int in [
      0x9, 0xa, 0xb, 0xc, 0xd, 0x20, 0xa0, 0x1680, 0x2000, 0x2001, 0x2002, 0x2003, 0x2004, 0x2005, 0x2006, 0x2007,
      0x2008, 0x2009, 0x200a, 0x2028, 0x2029, 0x202f, 0x205f, 0x3000, 0xfeff]
  {
  }

  function SpaceRun(s: string): (n: nat)
    ensures n <= |s| && (s != [] && IsSpace(s[0]) ==> n > 0)
  {
    if s != [] && IsSpace(s[0]) then 1 + SpaceRun(s[1..]) else 0
  }

  function TrimStart(s: string): string {
    if s != [] && IsSpace(s[0]) then TrimStart(s[1..]) else s
  }

  function TrimEnd(s: string): string {
    if s != [] && IsSpace(s[|s| - 1]) then TrimEnd(s[..|s| - 1]) else s
  }

  function Trim(s: string): string {
    TrimEnd(TrimStart(s))
  }

  lemma {:induction false} TrimStartClears(s: string)
    ensures TrimStart(s) == [] || !IsSpace(TrimStart(s)[0])
  {
    if s != [] && IsSpace(s[0]) {
      TrimStartClears(s[1..]);
    }
  }

  lemma {:induction false} TrimEndClears(s: string)
    ensures TrimEnd(s) == [] || !IsSpace(TrimEnd(s)[|TrimEnd(s)| - 1])
    ensures TrimEnd(s) <= s
  {
    if s != [] && IsSpace(s[|s| - 1]) {
      TrimEndClears(s[..|s| - 1]);
    }
  }

  lemma TrimIdempotent(s: string)
    ensures Trim(Trim(s)) == Trim(s)
  {
    TrimStartClears(s);
    TrimEndClears(TrimStart(s));
  }

  lemma TrimKeeps(s: string)
    requires s != [] && !IsSpace(s[0]) && !IsSpace(s[|s| - 1])
    ensures Trim(s) == s
  {
  }

  /** The pieces trimmed, without those that trim to nothing. */
  function TrimmedNonEmpty(pieces: seq<string>): seq<string> {
    if pieces == [] then
      []
    else
      (if Trim(pieces[0]) == [] then [] else [Trim(pieces[0])]) + TrimmedNonEmpty(pieces[1..])
  }

  lemma {:induction false} TrimmedOfAppend(xs: seq<string>, x: string)
    ensures TrimmedNonEmpty(xs + [x])
         == TrimmedNonEmpty(xs) + if Trim(x) == [] then [] else [Trim(x)]
  {
    hide Trim;
    if xs == [] {
      assert [] + [x] == [x];
    } else {
      assert (xs + [x])[1..] == xs[1..] + [x];
      TrimmedOfAppend(xs[1..], x);
    }
  }

  /** `join(" ")` */
  function JoinSpaced(claims: seq<string>): string {
    if claims == [] then "" else if |claims| == 1 then claims[0] else claims[0] + " " + JoinSpaced(claims[1..])
  }

  // ---- decimal numerals ----

  predicate IsDigit(c: char) {
    '0' <= c <= '9'
  }

  predicate AllDigits(s: string) {
    forall i :: 0 <= i < |s| ==> IsDigit(s[i])
  }

  function DigitRun(s: string): (n: nat)
    ensures n <= |s| && AllDigits(s[..n]) && (n < |s| ==> !IsDigit(s[n]))
  {
    if s != [] && IsDigit(s[0]) then 1 + DigitRun(s[1..]) else 0
  }

  function Digit(n: nat): char
    requires n < 10
  {
    '0' + n as char
  }

  function Decimal(n: nat): string {
    (if n < 10 then "" else Decimal(n / 10)) + [Digit(n % 10)]
  }

  function Value(s: string): int {
    if s == [] then 0 else 10 * Value(s[..|s| - 1]) + (s[|s| - 1] as int - '0' as int)
  }

  lemma {:induction false} ValueOfDecimal(n: nat)
    ensures Value(Decimal(n)) == n
  {
    var init := if n < 10 then "" else Decimal(n / 10);
    assert Decimal(n)[..|Decimal(n)| - 1] == init;
    if 10 <= n {
      ValueOfDecimal(n / 10);
    }
  }

  lemma {:induction false} DigitRunOf(digits: string, rest: string)
    requires AllDigits(digits) && (rest == [] || !IsDigit(rest[0]))
    ensures DigitRun(digits + rest) == |digits|
  {
    if digits != [] {
      assert (digits + rest)[1..] == digits[1..] + rest;
      DigitRunOf(digits[1..], rest);
    }
  }

  /** `^(?:0|[1-9][0-9]*)$` */
  predicate IsNumeral(s: string) {
    s != [] && AllDigits(s) && (|s| > 1 ==> s[0] != '0')
  }

  lemma {:induction false} DecimalIsNumeral(n: nat)
    ensures IsNumeral(Decimal(n)) && (n > 0 ==> Decimal(n)[0] != '0')
  {
    if n >= 10 {
      DecimalIsNumeral(n / 10);
    }
  }

  lemma DecimalStep(n: int, d: nat)
    requires 0 <= n && d < 10
    ensures n > 0 ==> Decimal(10 * n + d) == Decimal(n) + [Digit(d)]
    ensures n == 0 ==> Decimal(10 * n + d) == [Digit(d)]
  {
    assert (10 * n + d) / 10 == n && (10 * n + d) % 10 == d;
  }

  lemma ValueStep(init: string, d: nat)
    requires d < 10
    ensures Value(init + [Digit(d)]) == 10 * Value(init) + d
    ensures Value([]) == 0
  {
    assert (init + [Digit(d)])[..|init|] == init;
  }

  lemma NumeralInit(s: string)
    requires IsNumeral(s) && |s| > 1
    ensures IsNumeral(s[..|s| - 1]) && s[..|s| - 1][0] == s[0] != '0'
  {
  }

  /** A numeral is the only spelling of its value. */
  lemma {:induction false} DecimalOfValue(s: string)
    requires IsNumeral(s)
    ensures Value(s) >= 0 && Decimal(Value(s)) == s
    ensures s[0] != '0' ==> Value(s) > 0
  {
    var init, last := s[..|s| - 1], s[|s| - 1];
    assert s == init + [last] && IsDigit(last);
    var d := last as int - '0' as int;
    assert Digit(d) == last;
    if |s| > 1 {
      NumeralInit(s);
    }
    hide Value, Decimal, Digit, AllDigits;
    ValueStep(init, d);
    if |s| > 1 {
      DecimalOfValue(init);
    }
    DecimalStep(Value(init), d);
  }
}
