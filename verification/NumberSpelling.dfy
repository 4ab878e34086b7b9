/** The digits of normalizeNumber in `src/agents/narrator.ts`: how grouped and decimal spellings are
    brought to one canonical spelling before Number reads it. */
module NumberSpelling {
  import opened Text

  function Unsigned(s: string): string {
    if s != [] && s[0] == '-' then s[1..] else s
  }

  /** `(?:G\d{3})*(?:D\d+)?$` for group mark G and decimal mark D. */
  predicate GroupsThenFraction(s: string, group: char, decimal: char) {
    || s == []
    || (s[0] == decimal && |s| > 1 && AllDigits(s[1..]))
    || (s[0] == group && |s| >= 4 && AllDigits(s[1..4]) && GroupsThenFraction(s[4..], group, decimal))
  }

  /** `^-?\d{1,3}(?:G\d{3})+(?:D\d+)?$` */
  predicate IsGrouped(s: string, group: char, decimal: char) {
    var u := Unsigned(s);
    var n := DigitRun(u);
    1 <= n <= 3 && n < |u| && u[n] == group && GroupsThenFraction(u[n..], group, decimal)
  }

  /** `^-?\d+,\d+$` */
  predicate IsCommaDecimal(s: string) {
    var u := Unsigned(s);
    var n := DigitRun(u);
    1 <= n && n + 1 < |u| && u[n] == ',' && AllDigits(u[n + 1..])
  }

  function Without(s: string, c: char): string {
    if s == [] then "" else (if s[0] == c then "" else [s[0]]) + Without(s[1..], c)
  }

  function ReplaceFirst(s: string, c: char, mark: char): string {
    if s == [] then "" else if s[0] == c then [mark] + s[1..] else [s[0]] + ReplaceFirst(s[1..], c, mark)
  }

  function Normalize(s: string): string {
    if IsGrouped(s, ',', '.') then Without(s, ',')
    else if IsGrouped(s, '.', ',') then ReplaceFirst(Without(s, '.'), ',', '.')
    else if IsCommaDecimal(s) then ReplaceFirst(s, ',', '.')
    else s
  }

  // ---- amounts and their spellings ----

  /** An amount as digits: an optional sign, a whole part and a possibly empty fraction. */
  datatype Amount = Amount(negative: bool, whole: string, fraction: string)

  predicate WellFormed(a: Amount) {
    a.whole != [] && AllDigits(a.whole) && AllDigits(a.fraction)
  }

  function Sign(a: Amount): string {
    if a.negative then "-" else ""
  }

  function Tail(a: Amount, decimal: char): string {
    if a.fraction == [] then "" else [decimal] + a.fraction
  }

  function Thousands(digits: string, group: char): string
    requires |digits| % 3 == 0
  {
    if digits == [] then "" else [group] + digits[..3] + Thousands(digits[3..], group)
  }

  function Lead(whole: string): nat
    requires whole != []
    ensures 1 <= Lead(whole) <= 3 && Lead(whole) <= |whole| && (|whole| - Lead(whole)) % 3 == 0
  {
    (|whole| - 1) % 3 + 1
  }

  /** With a mark before every three digits from the right, as in 63,800.50 or 63.800,50. */
  function Grouped(a: Amount, group: char, decimal: char): string
    requires a.whole != []
  {
    var lead := Lead(a.whole);
    Sign(a) + a.whole[..lead] + Thousands(a.whole[lead..], group) + Tail(a, decimal)
  }

  /** Without group marks. */
  function Ungrouped(a: Amount, decimal: char): string {
    Sign(a) + a.whole + Tail(a, decimal)
  }

  predicate Marks(group: char, decimal: char) {
    !IsDigit(group) && !IsDigit(decimal) && group != decimal && group != '-' && decimal != '-'
  }

  lemma {:induction false} WithoutAbsent(s: string, c: char)
    requires c !in s
    ensures Without(s, c) == s
  {
    if s != [] {
      WithoutAbsent(s[1..], c);
    }
  }

  lemma {:induction false} WithoutConcat(a: string, b: string, c: char)
    ensures Without(a + b, c) == Without(a, c) + Without(b, c)
  {
    if a == [] {
      assert a + b == b;
    } else {
      assert (a + b)[1..] == a[1..] + b;
      WithoutConcat(a[1..], b, c);
    }
  }

  lemma {:induction false} WithoutThousands(digits: string, group: char)
    requires |digits| % 3 == 0 && AllDigits(digits) && !IsDigit(group)
    ensures Without(Thousands(digits, group), group) == digits
  {
    if digits != [] {
      var rest := Thousands(digits[3..], group);
      assert Thousands(digits, group) == [group] + (digits[..3] + rest);
      assert Thousands(digits, group)[1..] == digits[..3] + rest;
      WithoutConcat(digits[..3], rest, group);
      WithoutAbsent(digits[..3], group);
      WithoutThousands(digits[3..], group);
      assert digits[..3] + digits[3..] == digits;
    }
  }

  lemma {:induction false} ThousandsAreGroups(digits: string, a: Amount, group: char, decimal: char)
    requires |digits| % 3 == 0 && AllDigits(digits) && WellFormed(a) && Marks(group, decimal)
    ensures GroupsThenFraction(Thousands(digits, group) + Tail(a, decimal), group, decimal)
  {
    var s := Thousands(digits, group) + Tail(a, decimal);
    if digits == [] {
      assert s == Tail(a, decimal);
      if a.fraction != [] {
        assert s[1..] == a.fraction;
      }
    } else {
      var rest := Thousands(digits[3..], group) + Tail(a, decimal);
      assert s == [group] + digits[..3] + rest;
      assert s[1..4] == digits[..3] && s[4..] == rest;
      hide Thousands, Tail;
      ThousandsAreGroups(digits[3..], a, group, decimal);
    }
  }

  lemma SignComesOff(a: Amount, rest: string)
    requires rest != [] && rest[0] != '-'
    ensures Unsigned(Sign(a) + rest) == rest
  {
  }

  /** A spelling that starts with digits up to some mark. */
  lemma DigitsThenMark(a: Amount, digits: string, rest: string)
    requires digits != [] && AllDigits(digits) && (rest == [] || !IsDigit(rest[0]))
    ensures var u := Unsigned(Sign(a) + digits + rest);
      u == digits + rest && DigitRun(u) == |digits| && u[|digits|..] == rest
  {
    assert Sign(a) + digits + rest == Sign(a) + (digits + rest);
    SignComesOff(a, digits + rest);
    DigitRunOf(digits, rest);
  }

  /** The regular expression, for a sign, digits and a rest that starts with some mark. */
  lemma IsGroupedOf(a: Amount, digits: string, rest: string, group: char, decimal: char)
    requires digits != [] && AllDigits(digits) && rest != [] && !IsDigit(rest[0])
    ensures IsGrouped(Sign(a) + digits + rest, group, decimal)
      <==> |digits| <= 3 && rest[0] == group && GroupsThenFraction(rest, group, decimal)
  {
    DigitsThenMark(a, digits, rest);
    hide Unsigned, DigitRun, GroupsThenFraction, Sign, AllDigits;
  }

  lemma Reassociate(a: string, b: string, c: string, d: string)
    ensures a + b + (c + d) == a + (b + c) + d
  {
  }

  lemma GroupedIsGrouped(a: Amount, group: char, decimal: char)
    requires WellFormed(a) && |a.whole| >= 4 && Marks(group, decimal)
    ensures IsGrouped(Grouped(a, group, decimal), group, decimal)
    ensures !IsGrouped(Grouped(a, group, decimal), decimal, group)
  {
    var lead := Lead(a.whole);
    var head, digits := a.whole[..lead], a.whole[lead..];
    var rest := Thousands(digits, group) + Tail(a, decimal);
    assert Grouped(a, group, decimal) == Sign(a) + head + rest;
    assert rest[0] == group && |head| <= 3;
    ThousandsAreGroups(digits, a, group, decimal);
    hide GroupsThenFraction, Thousands, Tail, Sign, IsGrouped, Lead, Grouped;
    IsGroupedOf(a, head, rest, group, decimal);
    IsGroupedOf(a, head, rest, decimal, group);
  }

  lemma GroupedWithout(a: Amount, group: char, decimal: char)
    requires WellFormed(a) && Marks(group, decimal)
    ensures Without(Grouped(a, group, decimal), group) == Ungrouped(a, decimal)
  {
    var lead := Lead(a.whole);
    var head, digits := a.whole[..lead], a.whole[lead..];
    assert AllDigits(digits) && AllDigits(head);
    assert group !in Sign(a) + head && group !in Tail(a, decimal);
    assert Grouped(a, group, decimal) == Sign(a) + head + (Thousands(digits, group) + Tail(a, decimal));
    WithoutThousands(digits, group);
    assert head + digits == a.whole;
    hide Without, Thousands, Tail, Sign, AllDigits, Lead;
    WithoutConcat(Sign(a) + head, Thousands(digits, group) + Tail(a, decimal), group);
    WithoutAbsent(Sign(a) + head, group);
    WithoutConcat(Thousands(digits, group), Tail(a, decimal), group);
    WithoutAbsent(Tail(a, decimal), group);
    Reassociate(Sign(a), head, digits, Tail(a, decimal));
  }

  lemma {:induction false} ReplaceFirstAfter(prefix: string, c: char, rest: string, mark: char)
    requires c !in prefix
    ensures ReplaceFirst(prefix + [c] + rest, c, mark) == prefix + [mark] + rest
  {
    if prefix == [] {
      assert prefix + [c] + rest == [c] + rest;
    } else {
      assert (prefix + [c] + rest)[1..] == prefix[1..] + [c] + rest;
      ReplaceFirstAfter(prefix[1..], c, rest, mark);
    }
  }

  lemma {:induction false} ReplaceAbsent(s: string, c: char, mark: char)
    requires c !in s
    ensures ReplaceFirst(s, c, mark) == s
  {
    if s != [] {
      ReplaceAbsent(s[1..], c, mark);
    }
  }

  lemma CommaToPoint(a: Amount)
    requires WellFormed(a)
    ensures ReplaceFirst(Ungrouped(a, ','), ',', '.') == Ungrouped(a, '.')
  {
    if a.fraction == [] {
      ReplaceAbsent(Ungrouped(a, ','), ',', '.');
    } else {
      assert Ungrouped(a, ',') == Sign(a) + a.whole + [','] + a.fraction;
      ReplaceFirstAfter(Sign(a) + a.whole, ',', a.fraction, '.');
    }
  }

  /** Comma-grouped and dot-grouped spellings of one amount normalise alike: to its plain digits. */
  lemma GroupingsNormaliseAlike(a: Amount)
    requires WellFormed(a) && |a.whole| >= 4
    ensures Normalize(Grouped(a, ',', '.')) == Ungrouped(a, '.')
    ensures Normalize(Grouped(a, '.', ',')) == Ungrouped(a, '.')
  {
    GroupedIsGrouped(a, ',', '.');
    GroupedIsGrouped(a, '.', ',');
    GroupedWithout(a, ',', '.');
    GroupedWithout(a, '.', ',');
    CommaToPoint(a);
    hide IsGrouped, Grouped, Ungrouped, Without, ReplaceFirst, IsCommaDecimal;
  }

  /** A plain decimal that reads as one group of three after at most three digits. */
  predicate LooksGrouped(a: Amount) {
    |a.whole| <= 3 && |a.fraction| == 3
  }

  lemma FractionIsGroup(fraction: string, mark: char, decimal: char)
    requires fraction != [] && AllDigits(fraction) && Marks(mark, decimal)
    ensures GroupsThenFraction([mark] + fraction, mark, decimal) <==> |fraction| == 3
  {
    var rest := [mark] + fraction;
    assert rest[1..] == fraction;
    if |rest| >= 4 {
      assert rest[4..] == fraction[3..];
      assert rest[1..4] == fraction[..3];
    }
  }

  lemma UngroupedIsGrouped(a: Amount, mark: char, decimal: char)
    requires WellFormed(a) && a.fraction != [] && Marks(mark, decimal)
    ensures IsGrouped(Ungrouped(a, mark), mark, decimal) <==> LooksGrouped(a)
    ensures !IsGrouped(Ungrouped(a, mark), decimal, mark)
  {
    var rest := [mark] + a.fraction;
    assert Ungrouped(a, mark) == Sign(a) + a.whole + rest;
    FractionIsGroup(a.fraction, mark, decimal);
    hide GroupsThenFraction, Sign, IsGrouped, Ungrouped, AllDigits;
    IsGroupedOf(a, a.whole, rest, mark, decimal);
    IsGroupedOf(a, a.whole, rest, decimal, mark);
  }

  lemma UngroupedWithout(a: Amount, mark: char)
    requires WellFormed(a) && a.fraction != [] && !IsDigit(mark) && mark != '-'
    ensures Without(Ungrouped(a, mark), mark) == Sign(a) + a.whole + a.fraction
  {
    var rest := [mark] + a.fraction;
    assert Ungrouped(a, mark) == Sign(a) + a.whole + rest;
    assert Without(rest, mark) == Without(a.fraction, mark) by {
      assert rest[1..] == a.fraction;
    }
    WithoutConcat(Sign(a) + a.whole, rest, mark);
    WithoutAbsent(Sign(a) + a.whole, mark);
    WithoutAbsent(a.fraction, mark);
  }

  lemma UngroupedIsCommaDecimal(a: Amount, mark: char)
    requires WellFormed(a) && a.fraction != [] && !IsDigit(mark)
    ensures IsCommaDecimal(Ungrouped(a, mark)) <==> mark == ','
  {
    var rest := [mark] + a.fraction;
    assert Ungrouped(a, mark) == Sign(a) + a.whole + rest;
    assert rest[1..] == a.fraction && rest[0] == mark;
    hide Unsigned, DigitRun, AllDigits, Sign, Tail, Ungrouped;
    DigitsThenMark(a, a.whole, rest);
    AfterMark(a.whole, rest);
  }

  lemma AfterMark(digits: string, rest: string)
    requires rest != []
    ensures (digits + rest)[|digits|] == rest[0] && (digits + rest)[|digits| + 1..] == rest[1..]
  {
  }

  /** A decimal without group marks keeps its spelling exactly when it does not look grouped. */
  lemma DecimalSpellings(a: Amount, mark: char)
    requires WellFormed(a) && a.fraction != [] && mark in [',', '.']
    ensures Normalize(Ungrouped(a, mark)) ==
      if LooksGrouped(a) then Sign(a) + a.whole + a.fraction else Ungrouped(a, '.')
  {
    hide IsGrouped, IsCommaDecimal, Ungrouped, Without, ReplaceFirst, LooksGrouped, AllDigits, Sign, Tail;
    UngroupedIsGrouped(a, ',', '.');
    UngroupedIsGrouped(a, '.', ',');
    UngroupedWithout(a, ',');
    UngroupedWithout(a, '.');
    UngroupedIsCommaDecimal(a, ',');
    UngroupedIsCommaDecimal(a, '.');
    CommaToPoint(a);
    MarklessDigits(a);
  }

  // ---- what Number reads ----

  function PowerOfTen(n: nat): (p: nat)
    ensures p > 0
  {
    if n == 0 then 1 else 10 * PowerOfTen(n - 1)
  }

  /** The number an amount denotes. */
  function AmountValue(a: Amount): real {
    var size := Value(a.whole + a.fraction) as real / PowerOfTen(|a.fraction|) as real;
    if a.negative then -size else size
  }

  /** A plain decimal numeral taken apart: sign, digits, and digits after the first point. */
  function Parse(s: string): Amount {
    var u := Unsigned(s);
    var n := DigitRun(u);
    Amount(s != [] && s[0] == '-', u[..n], if n < |u| then u[n + 1..] else "")
  }

  lemma ParseUndoesUngrouped(a: Amount)
    requires WellFormed(a)
    ensures Parse(Ungrouped(a, '.')) == a
  {
    var tail := Tail(a, '.');
    DigitsThenMark(a, a.whole, tail);
    assert Ungrouped(a, '.') == Sign(a) + a.whole + tail;
    assert tail != [] ==> tail[1..] == a.fraction;
    var u := a.whole + tail;
    assert u[..|a.whole|] == a.whole;
    assert tail != [] ==> u[|a.whole| + 1..] == tail[1..];
  }

  lemma {:induction false} ZeroDigits(s: string)
    requires AllDigits(s)
    ensures Value(s) >= 0 && (Value(s) == 0 <==> AllZeros(s))
  {
    if s != [] {
      var init := s[..|s| - 1];
      ZeroDigits(init);
      assert AllZeros(s) <==> AllZeros(init) && s[|s| - 1] == '0';
    }
  }

  predicate AllZeros(s: string) {
    forall i :: 0 <= i < |s| ==> s[i] == '0'
  }

  /** The number that Number reads from the normalised spelling is the one written exactly when the
      spelling does not look grouped, or is zero: 1.234 and 1,234 both become 1234. */
  lemma DecimalsNormaliseExactly(a: Amount, mark: char)
    requires WellFormed(a) && a.fraction != [] && mark in [',', '.']
    ensures AmountValue(Parse(Normalize(Ungrouped(a, mark)))) == AmountValue(a)
      <==> !LooksGrouped(a) || AllZeros(a.whole + a.fraction)
  {
    hide Normalize, Ungrouped, Parse, Value, AllDigits, AllZeros;
    DecimalSpellings(a, mark);
    ParseUndoesUngrouped(a);
    if LooksGrouped(a) {
      var digits := Amount(a.negative, a.whole + a.fraction, "");
      DigitsAreDigits(a);
      assert Ungrouped(digits, '.') == Sign(a) + a.whole + a.fraction;
      ParseUndoesUngrouped(digits);
      ZeroDigits(a.whole + a.fraction);
      assert digits.whole + digits.fraction == a.whole + a.fraction;
      Thousandfold(Value(a.whole + a.fraction));
    }
  }

  lemma Thousandfold(n: nat)
    ensures PowerOfTen(3) == 1000 && PowerOfTen(0) == 1
    ensures n as real / 1000.0 == n as real <==> n == 0
  {
    assert PowerOfTen(1) == 10 && PowerOfTen(2) == 100;
  }

  lemma DigitsAreDigits(a: Amount)
    requires WellFormed(a)
    ensures AllDigits(a.whole + a.fraction) && WellFormed(Amount(a.negative, a.whole + a.fraction, ""))
    ensures Ungrouped(Amount(a.negative, a.whole + a.fraction, ""), '.') == Sign(a) + a.whole + a.fraction
  {
  }

  lemma MarklessDigits(a: Amount)
    requires WellFormed(a) && a.fraction != []
    ensures var digits := Sign(a) + a.whole + a.fraction;
      ReplaceFirst(digits, ',', '.') == digits && digits != Ungrouped(a, '.')
  {
    var digits := Sign(a) + a.whole + a.fraction;
    assert |Ungrouped(a, '.')| == |digits| + 1;
    ReplaceAbsent(digits, ',', '.');
  }
}
