/** Which numbers the pattern of extractNumberLexemes in `src/agents/narrator.ts` matches, and how far. */
module NumberForms {
  import opened NumberLexemes
  import opened Text

  /** Letters of either case are one letter to the patterns, and so is the long s; nothing else changes. */
  lemma CaseIsIgnored(c: char)
    ensures 'A' <= c <= 'Z' ==> Fold(c) == (c as int - 'A' as int + 'a' as int) as char
    ensures Fold('\U{17f}') == 's'
    ensures !('A' <= c <= 'Z') && c != '\U{17f}' ==> Fold(c) == c
  {
  }

  /** A mark and the digits after it. */
  datatype Part = Part(mark: char, digits: string)

  predicate IsPart(p: Part) {
    (p.mark == '.' || p.mark == ',') && p.digits != [] && AllDigits(p.digits)
  }

  function Parted(parts: seq<Part>): string {
    if parts == [] then "" else [parts[0].mark] + (parts[0].digits + Parted(parts[1..]))
  }

  /** What follows does not go on with the number: no digit, and no mark with a digit after it. */
  predicate Ended(post: string) {
    && (post == [] || !IsDigit(post[0]))
    && (|post| > 1 && (post[0] == '.' || post[0] == ',') ==> !IsDigit(post[1]))
  }

  predicate DigitFirst(s: string) {
    s != [] && IsDigit(s[0])
  }

  lemma PartStep(p: Part, rest: string)
    requires IsPart(p) && !DigitFirst(rest)
    ensures GroupsLength([p.mark] + (p.digits + rest)) == 1 + |p.digits| + GroupsLength(rest)
  {
    var s := [p.mark] + (p.digits + rest);
    assert s[1..] == p.digits + rest && s[1] == p.digits[0];
    DigitRunOf(p.digits, rest);
    assert s[1 + |p.digits|..] == rest;
    hide DigitRun;
  }

  lemma {:induction false} PartsAreMatched(parts: seq<Part>, post: string)
    requires Ended(post) && forall i :: 0 <= i < |parts| ==> IsPart(parts[i])
    ensures GroupsLength(Parted(parts) + post) == |Parted(parts)| && !DigitFirst(Parted(parts) + post)
  {
    hide GroupsLength, IsPart, Ended;
    EndedEnds(post);
    if parts == [] {
      assert Parted(parts) + post == post;
    } else {
      var p, tail := parts[0], Parted(parts[1..]);
      PartsAreMatched(parts[1..], post);
      PartStep(p, tail + post);
      hide Parted;
      PartedIs(parts);
      assert Parted(parts) + post == [p.mark] + (p.digits + (tail + post));
      MarkFirst(p);
    }
  }

  lemma PartedIs(parts: seq<Part>)
    requires parts != []
    ensures Parted(parts) == [parts[0].mark] + (parts[0].digits + Parted(parts[1..]))
  {
  }

  lemma MarkFirst(p: Part)
    requires IsPart(p)
    ensures !IsDigit(p.mark)
  {
  }

  lemma EndedEnds(post: string)
    requires Ended(post)
    ensures GroupsLength(post) == 0 && !DigitFirst(post)
  {
  }

  function Sign(negative: bool): string {
    if negative then "-" else ""
  }

  lemma NumberStep(negative: bool, digits: string, rest: string)
    requires digits != [] && AllDigits(digits) && !DigitFirst(rest)
    ensures NumberLength(Sign(negative) + (digits + rest)) == |Sign(negative)| + |digits| + GroupsLength(rest)
  {
    var s := Sign(negative) + (digits + rest);
    DigitRunOf(digits, rest);
    assert s[|Sign(negative)|..] == digits + rest && s[|Sign(negative)| + |digits|..] == rest;
    assert s[0] == (if negative then '-' else digits[0]) && IsDigit(digits[0]);
    hide DigitRun, GroupsLength;
  }

  /** A number as the pattern describes it, perhaps a sign, digits, and parts, is matched whole. */
  lemma NumbersAreMatched(negative: bool, digits: string, parts: seq<Part>, post: string)
    requires digits != [] && AllDigits(digits) && Ended(post) && forall i :: 0 <= i < |parts| ==> IsPart(parts[i])
    ensures var number := Sign(negative) + digits + Parted(parts);
      NumberLength(number + post) == |number|
  {
    hide NumberLength, GroupsLength, Parted, Sign;
    PartsAreMatched(parts, post);
    NumberStep(negative, digits, Parted(parts) + post);
    assert Sign(negative) + digits + Parted(parts) + post == Sign(negative) + (digits + (Parted(parts) + post));
  }

  lemma PartAhead(s: string) returns (p: Part, rest: string)
    requires GroupsLength(s) > 0
    ensures IsPart(p) && s == [p.mark] + (p.digits + rest) && !DigitFirst(rest)
    ensures GroupsLength(s) == 1 + |p.digits| + GroupsLength(rest)
  {
    var n := DigitRun(s[1..]);
    p, rest := Part(s[0], s[1..][..n]), s[1..][n..];
    assert s[1 + n..] == rest && s[1..] == p.digits + rest;
    assert s[1..][0] == s[1];
  }

  lemma {:induction false} GroupsAreParts(s: string) returns (parts: seq<Part>, post: string)
    requires !DigitFirst(s)
    ensures s == Parted(parts) + post && |Parted(parts)| == GroupsLength(s) && Ended(post)
    ensures forall i :: 0 <= i < |parts| ==> IsPart(parts[i])
    decreases |s|
  {
    hide GroupsLength, IsPart, Ended, DigitFirst, Parted;
    if GroupsLength(s) > 0 {
      var p, rest := PartAhead(s);
      var more, last := GroupsAreParts(rest);
      parts, post := [p] + more, last;
      assert parts[1..] == more;
      PartedIs(parts);
      Grouped(p, more, last);
    } else {
      parts, post := [], s;
      NoPartAhead(s);
      NoParts();
      assert "" + s == s;
    }
  }

  lemma NoParts()
    ensures Parted([]) == ""
  {
  }

  lemma Grouped(p: Part, more: seq<Part>, last: string)
    ensures [p.mark] + (p.digits + (Parted(more) + last)) == [p.mark] + (p.digits + Parted(more)) + last
  {
    hide Parted;
  }

  lemma NoPartAhead(s: string)
    requires GroupsLength(s) == 0 && !DigitFirst(s)
    ensures Ended(s)
  {
  }

  lemma NumberAhead(s: string) returns (negative: bool, digits: string, rest: string)
    requires NumberLength(s) > 0
    ensures digits != [] && AllDigits(digits) && !DigitFirst(rest) && s == Sign(negative) + (digits + rest)
  {
    negative := s[0] == '-';
    var u := s[|Sign(negative)|..];
    var n := DigitRun(u);
    digits, rest := u[..n], u[n..];
    assert u == digits + rest && s == Sign(negative) + u;
    hide GroupsLength;
  }

  /** And what is matched is such a number, to its end. */
  lemma OnlyNumbersAreMatched(s: string) returns (negative: bool, digits: string, parts: seq<Part>, post: string)
    requires NumberLength(s) > 0
    ensures digits != [] && AllDigits(digits) && (forall i :: 0 <= i < |parts| ==> IsPart(parts[i])) && Ended(post)
    ensures s == Sign(negative) + digits + Parted(parts) + post
    ensures NumberLength(s) == |Sign(negative) + digits + Parted(parts)|
  {
    hide Sign, GroupsLength, Parted, AllDigits;
    var rest;
    negative, digits, rest := NumberAhead(s);
    hide NumberLength;
    parts, post := GroupsAreParts(rest);
    NumberStep(negative, digits, rest);
    assert s == Sign(negative) + digits + Parted(parts) + post;
  }

  /** Nothing is matched exactly where neither a digit nor a sign with a digit after it comes first. */
  lemma NoNumberExactly(s: string)
    ensures NumberLength(s) == 0 <==> !DigitFirst(s) && !(|s| > 1 && s[0] == '-' && IsDigit(s[1]))
  {
    hide GroupsLength;
    if s != [] {
      assert s[0..] == s;
    }
  }
}
