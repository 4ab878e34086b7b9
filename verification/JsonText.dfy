/** What canonical JSON of `scripts/evaluate-memory-architecture.ts` looks like on paper: in which order
    the members of an object come, and how values are spelled, as JSON.stringify spells them. */
module JsonText {
  import opened CanonicalJson
  import Numerals = Text

  /** A text of ASCII characters as code units. */
  function Units(s: string): (t: seq<Unit>)
    requires forall i :: 0 <= i < |s| ==> s[i] as int < 0x80
    ensures |t| == |s|
  {
    seq(|s|, i requires 0 <= i < |s| => s[i] as int as Unit)
  }

  // ---- the order of members ----

  /** At the first difference the smaller code unit; a proper prefix comes first. */
  ghost predicate Precedes(a: seq<Unit>, b: seq<Unit>) {
    exists d :: 0 <= d <= |a| && d < |b| && a[..d] == b[..d] && (d == |a| || a[d] < b[d])
  }

  lemma {:induction false} LessIsPrecedes(a: seq<Unit>, b: seq<Unit>)
    ensures Less(a, b) <==> Precedes(a, b)
  {
    if a != [] && b != [] && a[0] == b[0] {
      LessIsPrecedes(a[1..], b[1..]);
      if Precedes(a[1..], b[1..]) {
        var d :| 0 <= d <= |a[1..]| && d < |b[1..]| && a[1..][..d] == b[1..][..d]
          && (d == |a[1..]| || a[1..][d] < b[1..][d]);
        assert a[..d + 1] == [a[0]] + a[1..][..d] && b[..d + 1] == [b[0]] + b[1..][..d];
      }
      if Precedes(a, b) {
        var d :| 0 <= d <= |a| && d < |b| && a[..d] == b[..d] && (d == |a| || a[d] < b[d]);
        assert d > 0 && a[1..][..d - 1] == a[..d][1..] && b[1..][..d - 1] == b[..d][1..];
      }
    } else if Less(a, b) {
      assert a[..0] == b[..0];
    } else if Precedes(a, b) {
      DifferAtOnce(a, b);
    }
  }

  lemma DifferAtOnce(a: seq<Unit>, b: seq<Unit>)
    requires Precedes(a, b) && (a == [] || b == [] || a[0] != b[0])
    ensures b != [] && (a == [] || a[0] < b[0])
  {
    var d :| 0 <= d <= |a| && d < |b| && a[..d] == b[..d] && (d == |a| || a[d] < b[d]);
    if d > 0 {
      assert a[0] == a[..d][0] && b[0] == b[..d][0];
    }
  }

  lemma {:induction false} NumeralIsAscii(n: nat)
    ensures Numerals.Decimal(n) != [] && forall i :: 0 <= i < |Numerals.Decimal(n)| ==>
      '0' <= Numerals.Decimal(n)[i] <= '9'
  {
    if n >= 10 {
      NumeralIsAscii(n / 10);
    }
  }

  /** An array index as a key: the plain numeral of a number below 4294967295. */
  function Index(n: nat): (key: seq<Unit>)
  {
    NumeralIsAscii(n);
    Units(Numerals.Decimal(n))
  }

  ghost predicate IsIndexOf(key: seq<Unit>, n: nat) {
    n < 4_294_967_295 && key == Index(n)
  }

  lemma {:induction false} IndexNumber(n: nat)
    ensures IndexValue(Index(n)) == n && DigitUnits(Index(n)) && Index(n) != []
    ensures n > 0 ==> Index(n)[0] != 48
    ensures n < 10 ==> |Index(n)| == 1
  {
    NumeralIsAscii(n);
    var key := Index(n);
    if n >= 10 {
      IndexNumber(n / 10);
      assert key[..|key| - 1] == Index(n / 10);
    } else {
      assert key[..|key| - 1] == [];
    }
  }

  lemma IndexExactly(key: seq<Unit>)
    ensures IsIndex(key) <==> exists n: nat :: IsIndexOf(key, n)
    ensures forall n: nat :: IsIndexOf(key, n) ==> IndexValue(key) == n
  {
    hide IndexValue, DigitUnits, Index;
    forall n: nat | IsIndexOf(key, n)
      ensures IsIndex(key) && IndexValue(key) == n
    {
      IndexNumber(n);
    }
    if IsIndex(key) {
      IndexValueBounds(key);
      var n: nat := IndexValue(key);
      IndexNumber(n);
      IndexValueInjective(key, Index(n));
      assert IsIndexOf(key, n);
    }
  }

  /** Array indices come first, by increasing number, and then the other keys by their code units. */
  ghost predicate InOrder(a: seq<Unit>, b: seq<Unit>) {
    && (forall n: nat :: IsIndexOf(b, n) ==> exists m: nat :: m < n && IsIndexOf(a, m))
    && ((forall n: nat :: !IsIndexOf(a, n)) ==> Precedes(a, b))
  }

  lemma BeforeIsInOrder(a: seq<Unit>, b: seq<Unit>)
    ensures Before(a, b) ==> InOrder(a, b)
  {
    hide Less, IsIndex, Precedes, IsIndexOf, IndexValue;
    IndexExactly(a);
    IndexExactly(b);
    LessIsPrecedes(a, b);
  }

  lemma MembersInOrder(members: seq<Member>)
    requires DistinctKeys(members)
    ensures Canonicalize(Object(members)).Object?
    ensures var r := Canonicalize(Object(members)).members;
      forall i, j :: 0 <= i < j < |r| ==> InOrder(r[i].key, r[j].key)
  {
    hide Canonicalize, Before, InOrder;
    CanonicalMembers(members);
    var r := Canonicalize(Object(members)).members;
    forall i, j | 0 <= i < j < |r|
      ensures InOrder(r[i].key, r[j].key)
    {
      BeforeIsInOrder(r[i].key, r[j].key);
    }
  }

  // ---- strings ----

  const HEX: string := "0123456789abcdef"

  function Hex(n: int): Unit
    requires 0 <= n < 16
  {
    HEX[n] as int as Unit
  }

  lemma HexDigitIsHex(n: int)
    requires 0 <= n < 16
    ensures HexDigit(n) == Hex(n)
  {
  }

  /** The escapes with a letter or sign of their own. */
  lemma ShortEscapes()
    ensures EscapedUnit(8) == Units("\\b") && EscapedUnit(9) == Units("\\t") && EscapedUnit(10) == Units("\\n")
    ensures EscapedUnit(12) == Units("\\f") && EscapedUnit(13) == Units("\\r")
    ensures EscapedUnit(34) == Units("\\\"") && EscapedUnit(92) == Units("\\\\")
  {
  }

  /** The other control characters, and surrogates without their other half. */
  lemma UnicodeEscapes(u: Unit)
    requires (u < 0x20 && u !in [8, 9, 10, 12, 13]) || 0xd800 <= u <= 0xdfff
    ensures EscapedUnit(u) == Units("\\u") + [Hex(u as int / 0x1000), Hex(u as int / 0x100 % 16),
                                            Hex(u as int / 16 % 16), Hex(u as int % 16)]
  {
    hide Hex, HexDigit;
    var n := u as int;
    HexDigitIsHex(n / 16 / 16 / 16);
    HexDigitIsHex(n / 16 / 16 % 16);
    HexDigitIsHex(n / 16 % 16);
    HexDigitIsHex(n % 16);
    assert n / 16 / 16 / 16 == n / 0x1000 && n / 16 / 16 == n / 0x100;
    assert Units("\\u") == [BACKSLASH, 117];
  }

  /** Everything else is written as it is. */
  lemma OtherUnits(u: Unit)
    requires 0x20 <= u && u != 34 && u != 92 && !(0xd800 <= u <= 0xdfff)
    ensures EscapedUnit(u) == [u]
  {
  }

  /** A string is written unit by unit between quotes, but a surrogate pair as it is. */
  lemma StringsAreQuoted(s: seq<Unit>)
    ensures Print(String(s)) == Units("\"") + QuotedBody(s) + Units("\"")
    ensures QuotedBody([]) == []
    ensures s != [] ==>
      QuotedBody(s) ==
        if |s| > 1 && 0xd800 <= s[0] <= 0xdbff && 0xdc00 <= s[1] <= 0xdfff then s[..2] + QuotedBody(s[2..])
        else EscapedUnit(s[0]) + QuotedBody(s[1..])
  {
    hide EscapedUnit, PrintItems, PrintMembers;
    assert Units("\"") == [QUOTE];
    if s != [] {
      BodyUnfolds(s);
    }
  }

  lemma BodyUnfolds(s: seq<Unit>)
    requires s != []
    ensures StartsWithPair(s) ==> QuotedBody(s) == s[..2] + QuotedBody(s[2..])
    ensures !StartsWithPair(s) ==> QuotedBody(s) == EscapedUnit(s[0]) + QuotedBody(s[1..])
  {
    hide EscapedUnit;
    if StartsWithPair(s) {
      assert s[..2] == [s[0], s[1]];
    }
  }

  // ---- values ----

  lemma LiteralsAreWords(s: seq<Unit>, negative: bool)
    ensures Print(Null) == Units("null") && Print(NonFinite(negative)) == Units("null")
    ensures Print(Bool(true)) == Units("true") && Print(Bool(false)) == Units("false")
    ensures Print(Number(s)) == s
  {
  }

  /** What a number's spelling may be made of: digits after a first digit or minus sign, a point, an
      exponent and its sign. */
  lemma NumbersAreSpelled(s: seq<Unit>)
    ensures ValidSpelling(s) <==>
      s != [] && (48 <= s[0] <= 57 || s[0] == 45)
      && forall i :: 0 <= i < |s| ==> s[i] in Units("0123456789+-.e")
    ensures ValidSpelling(Units("-1.5e+21")) && ValidSpelling(Units("1e-7"))
  {
    forall i | 0 <= i < |s|
      ensures NumberUnit(s[i]) <==> s[i] in Units("0123456789+-.e")
    {
      NumberUnits(s[i]);
    }
  }

  lemma NumberUnits(u: Unit)
    ensures NumberUnit(u) <==> u in Units("0123456789+-.e")
  {
    assert Units("0123456789+-.e") == [48, 49, 50, 51, 52, 53, 54, 55, 56, 57, 43, 45, 46, 101];
  }

  /** The parts with a separator between any two. */
  function Separated(parts: seq<seq<Unit>>, separator: seq<Unit>): seq<Unit> {
    if parts == [] then []
    else if |parts| == 1 then parts[0]
    else parts[0] + separator + Separated(parts[1..], separator)
  }

  function Printed(items: seq<Json>): (r: seq<seq<Unit>>)
    ensures |r| == |items|
  {
    seq(|items|, i requires 0 <= i < |items| => Print(items[i]))
  }

  function PrintedMember(m: Member): seq<Unit> {
    Units("\"") + QuotedBody(m.key) + Units("\":") + Print(m.value)
  }

  function PrintedMembers(members: seq<Member>): (r: seq<seq<Unit>>)
    ensures |r| == |members|
  {
    seq(|members|, i requires 0 <= i < |members| => PrintedMember(members[i]))
  }

  lemma {:induction false} ItemsAreSeparated(items: seq<Json>)
    ensures items != [] ==> PrintItems(items) == [COMMA] + Separated(Printed(items), [COMMA])
  {
    hide Print;
    if items != [] {
      ItemsAreSeparated(items[1..]);
      assert Printed(items)[1..] == Printed(items[1..]);
      if |items| == 1 {
        assert PrintItems(items[1..]) == [];
      }
    }
  }

  lemma {:induction false} MembersAreSeparated(members: seq<Member>)
    ensures members != [] ==> PrintMembers(members) == [COMMA] + Separated(PrintedMembers(members), [COMMA])
  {
    hide PrintMembers, PrintedMembers;
    if members != [] {
      var parts := PrintedMembers(members);
      FirstPrinted(members);
      if |members| > 1 {
        MembersAreSeparated(members[1..]);
        Associate(parts[0], [COMMA], Separated(parts[1..], [COMMA]));
      } else {
        PrintNothing();
        assert members[1..] == [] && parts[0] + [] == parts[0];
      }
    }
  }

  lemma FirstPrinted(members: seq<Member>)
    requires members != []
    ensures var parts := PrintedMembers(members);
      && parts[1..] == PrintedMembers(members[1..])
      && PrintMembers(members) == [COMMA] + (parts[0] + PrintMembers(members[1..]))
  {
    hide Print, QuotedBody;
    var body, value, rest := QuotedBody(members[0].key), Print(members[0].value), PrintMembers(members[1..]);
    assert PrintMembers(members) == [COMMA, QUOTE] + body + [QUOTE, COLON] + value + rest;
    assert Units("\"") == [QUOTE] && Units("\":") == [QUOTE, COLON];
    hide PrintMembers;
    assert PrintedMembers(members)[0] == [QUOTE] + body + [QUOTE, COLON] + value;
  }

  /** Arrays and objects: elements with commas between them, in brackets; a member is its quoted key, a
      colon and its value. */
  lemma ContainersAreBracketed(items: seq<Json>, members: seq<Member>)
    ensures Print(Array(items)) == Units("[") + Separated(Printed(items), Units(",")) + Units("]")
    ensures Print(Object(members)) == Units("{") + Separated(PrintedMembers(members), Units(",")) + Units("}")
  {
    ItemsAreSeparated(items);
    MembersAreSeparated(members);
    hide PrintItems, PrintMembers, PrintedMember, QuotedBody;
    PunctuationUnits();
    PrintNothing();
  }

  lemma PunctuationUnits()
    ensures Units(",") == [COMMA] && Units("[") == [91] && Units("]") == [93]
    ensures Units("{") == [123] && Units("}") == [125] && Units("\n") == [10]
  {
  }

  lemma PrintNothing()
    ensures PrintItems([]) == [] && PrintMembers([]) == []
  {
  }

  // ---- the indented form ----

  function Line(indent: nat): seq<Unit> {
    Units("\n") + seq(indent, i => 0x20)
  }

  function Indented(items: seq<Json>, indent: nat): (r: seq<seq<Unit>>)
    ensures |r| == |items|
  {
    seq(|items|, i requires 0 <= i < |items| => Pretty(items[i], indent))
  }

  function IndentedMembers(members: seq<Member>, indent: nat): (r: seq<seq<Unit>>)
    ensures |r| == |members|
  {
    seq(|members|, i requires 0 <= i < |members| =>
      Units("\"") + QuotedBody(members[i].key) + Units("\": ") + Pretty(members[i].value, indent))
  }

  lemma LineIsNewLine(indent: nat)
    ensures Line(indent) == NewLine(indent)
  {
  }

  lemma {:induction false} ItemsAreIndented(items: seq<Json>, indent: nat)
    ensures items != [] ==>
      PrettyItems(items, indent)
      == [COMMA] + (Line(indent) + Separated(Indented(items, indent), [COMMA] + Line(indent)))
  {
    hide Pretty, Line, NewLine;
    LineIsNewLine(indent);
    if items != [] {
      ItemsAreIndented(items[1..], indent);
      assert Indented(items, indent)[1..] == Indented(items[1..], indent);
      if |items| == 1 {
        assert PrettyItems(items[1..], indent) == [];
      }
    }
  }

  lemma {:induction false} MembersAreIndented(members: seq<Member>, indent: nat)
    ensures members != [] ==>
      PrettyMembers(members, indent)
      == [COMMA] + (Line(indent) + Separated(IndentedMembers(members, indent), [COMMA] + Line(indent)))
  {
    hide Pretty, Line, NewLine, QuotedBody, IndentedMembers, PrettyMembers;
    if members != [] {
      var parts := IndentedMembers(members, indent);
      FirstMember(members, indent);
      if |members| > 1 {
        MembersAreIndented(members[1..], indent);
        var rest := Separated(parts[1..], [COMMA] + Line(indent));
        Associate([COMMA], Line(indent), rest);
        Associate(parts[0], [COMMA] + Line(indent), rest);
      } else {
        NoMember(members[1..], indent);
        assert parts[0] + [] == parts[0];
      }
    }
  }

  lemma NoMember(members: seq<Member>, indent: nat)
    ensures members == [] ==> PrettyMembers(members, indent) == []
  {
  }

  lemma FirstMember(members: seq<Member>, indent: nat)
    requires members != []
    ensures var parts := IndentedMembers(members, indent);
      && parts[1..] == IndentedMembers(members[1..], indent)
      && PrettyMembers(members, indent) == [COMMA] + (Line(indent) + (parts[0] + PrettyMembers(members[1..], indent)))
  {
    hide Pretty, QuotedBody, Line, NewLine;
    LineIsNewLine(indent);
    var quoted := [QUOTE] + QuotedBody(members[0].key) + [QUOTE];
    var value, rest := Pretty(members[0].value, indent), PrettyMembers(members[1..], indent);
    assert PrettyMembers(members, indent)
      == [COMMA] + (NewLine(indent) + (quoted + ([COLON] + ([SPACE] + (value + rest)))));
    assert Units("\"") == [QUOTE] && Units("\": ") == [QUOTE, COLON, SPACE];
    hide PrettyMembers;
    assert quoted + [COLON, SPACE] + value + rest == quoted + ([COLON] + ([SPACE] + (value + rest)));
    assert IndentedMembers(members, indent)[0] == quoted + [COLON, SPACE] + value;
  }

  /** In a file: elements on lines of their own, two further spaces in, a space after each colon, nothing
      between empty brackets, anything else as in the compact form, and a line end last. */
  lemma FilesAreIndented(j: Json, items: seq<Json>, members: seq<Member>, indent: nat)
    ensures PrettyJson(j) == Pretty(Canonicalize(j), 0) + Units("\n")
    ensures items != [] ==>
      Pretty(Array(items), indent)
      == Units("[") + Line(indent + 2) + Separated(Indented(items, indent + 2), Units(",") + Line(indent + 2))
         + Line(indent) + Units("]")
    ensures members != [] ==>
      Pretty(Object(members), indent)
      == Units("{") + Line(indent + 2) + Separated(IndentedMembers(members, indent + 2), Units(",") + Line(indent + 2))
         + Line(indent) + Units("}")
    ensures Pretty(Array([]), indent) == Units("[]") && Pretty(Object([]), indent) == Units("{}")
    ensures !j.Array? && !j.Object? ==> Pretty(j, indent) == Print(j)
  {
    hide PrettyItems, PrettyMembers, Canonicalize, Line, NewLine, Print, Indented, IndentedMembers, Separated;
    PunctuationUnits();
    assert Units("[]") == [91, 93] && Units("{}") == [123, 125];
    LineIsNewLine(indent);
    if items != [] {
      ItemsAreIndented(items, indent + 2);
      Enclosed(91, PrettyItems(items, indent + 2), Line(indent + 2),
               Separated(Indented(items, indent + 2), [COMMA] + Line(indent + 2)), Line(indent), 93);
    }
    if members != [] {
      MembersAreIndented(members, indent + 2);
      Enclosed(123, PrettyMembers(members, indent + 2), Line(indent + 2),
               Separated(IndentedMembers(members, indent + 2), [COMMA] + Line(indent + 2)), Line(indent), 125);
    }
  }

  lemma Enclosed(open: Unit, all: seq<Unit>, line: seq<Unit>, elements: seq<Unit>, last: seq<Unit>, close: Unit)
    requires all == [COMMA] + (line + elements)
    ensures [open] + (DropComma(all) + (last + [close])) == [open] + line + elements + last + [close]
  {
  }

  // ---- two names ----

  lemma NamesAreSpelled()
    ensures PROTO == Units("__proto__") && RECEIPT == Units("receipt")
  {
  }

  // ---- an example ----

  lemma TwoMembers(a: Member, b: Member)
    requires a == Member([97], Number([49])) && b == Member([98], Number([50]))
    ensures Canonicalize(Object([b, a])) == Object([a, b])
  {
    CanonicalMembers([b, a]);
    assert CanonicalMember(a) == a && CanonicalMember(b) == b;
    hide Canonicalize, Before;
    var r := Canonicalize(Object([b, a])).members;
    assert [b, a][0] == b && [b, a][1] == a;
    forall n
      ensures n in r <==> n in [a, b]
    {
    }
    AIsBeforeB(a, b);
    SortedUnique(r, [a, b]);
  }

  lemma AIsBeforeB(a: Member, b: Member)
    requires a.key == [97] && b.key == [98]
    ensures Before(a.key, b.key)
  {
  }

  lemma TwoMembersText(a: Member, b: Member)
    requires a == Member([97], Number([49])) && b == Member([98], Number([50]))
    ensures Print(Object([a, b])) == [123] + [34, 97, 34, 58, 49] + [44] + [34, 98, 34, 58, 50] + [125]
  {
    hide Print, PrintedMember;
    ContainersAreBracketed([], [a, b]);
    SmallMember(97, 49);
    SmallMember(98, 50);
    PunctuationUnits();
    var parts := PrintedMembers([a, b]);
    assert parts == [[34, 97, 34, 58, 49], [34, 98, 34, 58, 50]];
    assert parts[1..] == [parts[1]];
    assert Separated([parts[1]], [44]) == parts[1];
  }

  /** {"b":2,"a":1} is written with a first. */
  lemma KeysAreSorted()
    ensures CanonicalText(Object([Member(Units("b"), Number(Units("2"))), Member(Units("a"), Number(Units("1")))]))
      == Units("{\"a\":1,\"b\":2}")
  {
    hide Print, Canonicalize;
    var a, b := Member([97], Number([49])), Member([98], Number([50]));
    assert Units("a") == [97] && Units("b") == [98] && Units("1") == [49] && Units("2") == [50];
    TwoMembers(a, b);
    TwoMembersText(a, b);
    assert Units("{\"a\":1,\"b\":2}") == [123] + [34, 97, 34, 58, 49] + [44] + [34, 98, 34, 58, 50] + [125];
  }

  lemma SmallMember(key: Unit, digit: Unit)
    requires 97 <= key <= 122
    ensures PrintedMember(Member([key], Number([digit]))) == [34, key, 34, 58, digit]
  {
    assert QuotedBody([key]) == [key] by {
      StringsAreQuoted([key]);
      OtherUnits(key);
      assert [key][1..] == [];
    }
  }
}
