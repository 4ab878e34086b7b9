/** What normalizeNumber of `src/agents/narrator.ts` makes of an amount, wherever its currencies stand:
    when two amounts compare equal. */
module AmountNotations {
  import NumberSpelling
  import opened NormalizedNumbers
  import opened NumberLexemes
  import opened Options
  import opened Text

  // ---- how an amount is written ----

  /** An amount as the pattern for numbers matches it: it starts and ends like one. */
  predicate BareNumber(s: string) {
    s != [] && StartsNumber(s[0]) && IsDigit(s[|s| - 1])
  }

  /** A spelling of a currency, in any case. */
  predicate Spells(v: string, word: string) {
    |v| == |word| && Begins(v, word)
  }

  /** A currency next to a number: its spelling, the alternative of the pattern that it spells, and the
      white space, perhaps none, between it and the digits. */
  datatype Mention = Mention(spelling: string, word: string, gap: string)

  /** A number with a currency in front, behind, on both sides or on neither, and a percent sign after
      white space, or none. */
  datatype Notation = Notation(
    front: Option<Mention>, digits: string, behind: Option<Mention>, percent: Option<string>)

  predicate Blank(gap: string) {
    forall i :: 0 <= i < |gap| ==> IsSpace(gap[i])
  }

  predicate IsMention(m: Option<Mention>) {
    m.Some? ==> m.value.word in CURRENCIES && Spells(m.value.spelling, m.value.word) && Blank(m.value.gap)
  }

  predicate IsNotation(a: Notation) {
    && IsMention(a.front) && BareNumber(a.digits) && IsMention(a.behind)
    && (a.percent.Some? ==> Blank(a.percent.value))
  }

  function Front(a: Notation): string {
    if a.front.None? then "" else a.front.value.spelling + a.front.value.gap
  }

  function Behind(a: Notation): string {
    if a.behind.None? then "" else a.behind.value.gap + a.behind.value.spelling
  }

  function WithoutPercent(a: Notation): string {
    Front(a) + (a.digits + Behind(a))
  }

  /** The amount as it stands in a text. */
  function Spelled(a: Notation): string {
    WithoutPercent(a) + if a.percent.None? then "" else a.percent.value + "%"
  }

  function WordOf(m: Option<Mention>): Option<string> {
    if m.None? then None else Some(m.value.word)
  }

  /** What the code takes for the currency in front: the word itself, but EUR for euro and euros. */
  function Taken(word: string): string {
    if word in ["euro", "euros"] then "eur" else word
  }

  /** Euro and euros in front are taken for EUR followed by letters. */
  predicate Misread(a: Notation) {
    a.front.Some? && Taken(a.front.value.word) != a.front.value.word
  }

  /** What is left when the currencies are off. */
  function Bare(a: Notation): string
    requires IsNotation(a)
  {
    if Misread(a) then a.front.value.spelling[3..] + a.front.value.gap + a.digits else a.digits
  }

  /** What Number is given to read. */
  function Read(a: Notation): string
    requires IsNotation(a)
  {
    if Misread(a) then Bare(a) else NumberSpelling.Normalize(a.digits)
  }

  function FrontIso(a: Notation): string {
    Iso(WordOf(a.front))
  }

  function BehindIso(a: Notation): string {
    Iso(WordOf(a.behind))
  }

  function Mark(a: Notation): string {
    CurrencyMark(FrontIso(a), BehindIso(a))
  }

  function PercentSign(a: Notation): string {
    if a.percent.Some? then "%" else ""
  }

  function NormalForm(a: Notation, numeral: string -> string): string
    requires IsNotation(a)
  {
    Mark(a) + numeral(Read(a)) + PercentSign(a)
  }

  // ---- the currency behind ----

  lemma {:induction false} NoFirstCurrency(s: string, words: seq<string>)
    requires s != [] && StartsNumber(s[0])
    requires forall word :: word in words ==> word != [] && !StartsNumber(word[0])
    ensures FirstCurrency(s, words) == None
  {
    if words != [] {
      assert words[0] in words;
      assert !Begins(s, words[0]);
      assert forall word :: word in words[1..] ==> word in words;
      NoFirstCurrency(s, words[1..]);
    }
  }

  lemma {:induction false} NoLastCurrency(s: string, words: seq<string>)
    requires s != [] && IsDigit(s[|s| - 1])
    requires forall word :: word in words ==> word != [] && !IsDigit(word[|word| - 1])
    ensures LastCurrency(s, words) == None
  {
    if words != [] {
      assert words[0] in words;
      if Ends(s, words[0]) {
        EndsWith(s, words[0]);
      }
      assert forall word :: word in words[1..] ==> word in words;
      NoLastCurrency(s, words[1..]);
    }
  }

  lemma EndsWith(s: string, word: string)
    requires Ends(s, word) && word != []
    ensures s != [] && Fold(s[|s| - 1]) == word[|word| - 1]
    ensures |word| > 1 ==> |s| > 1 && Fold(s[|s| - 2]) == word[|word| - 2]
  {
    var tail := s[|s| - |word|..];
    assert tail[|word| - 1] == s[|s| - 1];
    assert |word| > 1 ==> tail[|word| - 2] == s[|s| - 2];
  }

  lemma OneEnd(s: string, u: string, w: string)
    requires u in CURRENCIES && w in CURRENCIES && Ends(s, u) && Ends(s, w)
    ensures u == w
  {
    hide OfEnding, Symbol, Letter, Ends;
    CurrencyByEnding(u);
    CurrencyByEnding(w);
    EndsWith(s, u);
    EndsWith(s, w);
    SymbolsAndLetters(Fold(s[|s| - 1]));
    assert Ending(u) == Ending(w);
  }

  lemma {:induction false} LastCurrencyFound(s: string, words: seq<string>, word: string)
    requires word in words && Ends(s, word)
    ensures LastCurrency(s, words).Some?
  {
    if words[0] != word {
      LastCurrencyFound(s, words[1..], word);
    }
  }

  lemma {:induction false} LastCurrencyEnds(s: string, words: seq<string>)
    ensures var r := LastCurrency(s, words); r.Some? ==> r.value in words && Ends(s, r.value)
  {
    if words != [] {
      LastCurrencyEnds(s, words[1..]);
    }
  }

  lemma LastCurrencyIs(s: string, word: string)
    requires word in CURRENCIES && Ends(s, word)
    ensures LastCurrency(s, CURRENCIES) == Some(word)
  {
    hide Ends, LastCurrency;
    LastCurrencyFound(s, CURRENCIES, word);
    LastCurrencyEnds(s, CURRENCIES);
    OneEnd(s, LastCurrency(s, CURRENCIES).value, word);
  }

  lemma CurrenciesEndNoNumber()
    ensures forall word :: word in CURRENCIES ==> word != [] && !IsDigit(word[|word| - 1])
  {
    hide OfEnding;
    forall word | word in CURRENCIES
      ensures word != [] && !IsDigit(word[|word| - 1])
    {
      CurrencyByEnding(word);
      NoNumberEnds(word[|word| - 1]);
    }
  }

  lemma NoNumberEnds(c: char)
    requires Symbol(c) || Letter(c)
    ensures !IsDigit(c)
  {
  }

  lemma NumbersAreNoSpace(c: char)
    requires StartsNumber(c)
    ensures !IsSpace(c) && c != '%'
  {
  }

  lemma SpellingEnds(v: string, word: string)
    requires word in CURRENCIES && Spells(v, word)
    ensures v != [] && !IsSpace(v[0]) && !IsSpace(v[|v| - 1]) && v[|v| - 1] != '%'
  {
    assert Fold(v[|v| - 1]) == word[|word| - 1] && Fold(v[0]) == word[0];
    CurrencyByEnding(word);
    SymbolsAndLetters(v[|v| - 1]);
    SymbolsAndLetters(v[0]);
  }

  lemma {:induction false} TrimEndOff(d: string, gap: string)
    requires Blank(gap) && d != [] && !IsSpace(d[|d| - 1])
    ensures TrimEnd(d + gap) == d
  {
    if gap == [] {
      assert d + gap == d;
    } else {
      var init := gap[..|gap| - 1];
      assert (d + gap)[..|d + gap| - 1] == d + init;
      TrimEndOff(d, init);
    }
  }

  lemma TrimOff(d: string, gap: string)
    requires Blank(gap) && d != [] && !IsSpace(d[0]) && !IsSpace(d[|d| - 1])
    ensures Trim(d + gap) == d
  {
    TrimEndOff(d, gap);
    hide IsSpace, TrimEnd;
  }

  /** With the currency behind, and its white space, taken off, the rest is as it was. */
  lemma BehindOff(bare: string, behind: Option<Mention>)
    requires IsMention(behind) && bare != [] && !IsSpace(bare[0]) && IsDigit(bare[|bare| - 1])
    ensures var s := bare + if behind.None? then "" else behind.value.gap + behind.value.spelling;
      && LastCurrency(s, CURRENCIES) == WordOf(behind)
      && (behind.Some? ==>
            |behind.value.word| <= |s| && Trim(s[..|s| - |behind.value.word|]) == bare)
      && (behind.None? ==> s == bare)
  {
    hide IsSpace, LastCurrency, Trim, CURRENCIES;
    if behind.None? {
      assert bare + "" == bare;
      CurrenciesEndNoNumber();
      NoLastCurrency(bare, CURRENCIES);
    } else {
      var v, gap := behind.value.spelling, behind.value.gap;
      var s := bare + (gap + v);
      assert s[|s| - |v|..] == v && s[..|s| - |v|] == bare + gap;
      LastCurrencyIs(s, behind.value.word);
      NumbersAreNoSpace(bare[|bare| - 1]);
      TrimOff(bare, gap);
    }
  }

  // ---- the currency in front ----

  lemma {:induction false} FirstAt(s: string, words: seq<string>, i: nat)
    requires i < |words| && Begins(s, words[i]) && forall j :: 0 <= j < i ==> !Begins(s, words[j])
    ensures FirstCurrency(s, words) == Some(words[i])
  {
    hide Begins;
    if i > 0 {
      FirstAt(s, words[1..], i - 1);
    }
  }

  /** An earlier alternative is longer or starts differently; only EUR is the start of a later one. */
  lemma EarlierIsNoPrefix(i: nat, j: nat)
    requires j < i < |CURRENCIES| && (j > 0 || CURRENCIES[i] !in ["euro", "euros"])
    ensures CURRENCIES[i] != [] && CURRENCIES[j] != []
    ensures |CURRENCIES[j]| > |CURRENCIES[i]| || CURRENCIES[j][0] != CURRENCIES[i][0]
  {
  }

  lemma CurrencyLetters(word: string)
    requires word in CURRENCIES && |word| > 1
    ensures forall k :: 0 <= k < |word| ==> Letter(word[k])
  {
  }

  lemma SpacesAreNoLetters(c: char)
    ensures IsSpace(c) ==> !Letter(Fold(c))
  {
  }

  /** After a whole currency word, neither white space nor a number makes it a longer one. */
  predicate NoLetterNext(t: string) {
    t == [] || !Letter(Fold(t[0]))
  }

  /** What begins a text that starts with a whole currency word starts like it, and if it is longer
      goes on into what follows. */
  lemma BeginsAlike(v: string, t: string, u: string, word: string)
    requires Spells(v, u) && u != [] && word != [] && Begins(v + t, word)
    ensures word[0] == u[0]
    ensures |word| > |u| ==> t != [] && Fold(t[0]) == word[|u|]
  {
    var s := v + t;
    assert s[0] == v[0];
    assert |word| > |u| ==> s[|u|] == t[0];
  }

  lemma NotEarlier(v: string, t: string, i: nat, j: nat)
    requires j < i < |CURRENCIES| && CURRENCIES[i] !in ["euro", "euros"]
    requires Spells(v, CURRENCIES[i]) && NoLetterNext(t)
    ensures !Begins(v + t, CURRENCIES[j])
  {
    EarlierIsNoPrefix(i, j);
    hide Letter, Begins;
    if |CURRENCIES[j]| > 1 {
      CurrencyLetters(CURRENCIES[j]);
    }
    if Begins(v + t, CURRENCIES[j]) {
      BeginsAlike(v, t, CURRENCIES[i], CURRENCIES[j]);
    }
  }

  lemma TakenFirst(v: string, word: string, t: string)
    requires word in CURRENCIES && Spells(v, word) && NoLetterNext(t)
    ensures FirstCurrency(v + t, CURRENCIES) == Some(Taken(word))
  {
    hide FirstCurrency, NoLetterNext;
    var s := v + t;
    var i :| 0 <= i < |CURRENCIES| && CURRENCIES[i] == word;
    assert forall k :: 0 <= k < |word| ==> s[k] == v[k];
    if Taken(word) != word {
      assert Begins(s, CURRENCIES[0]);
      FirstAt(s, CURRENCIES, 0);
    } else {
      forall j | 0 <= j < i
        ensures !Begins(s, CURRENCIES[j])
      {
        NotEarlier(v, t, i, j);
      }
      FirstAt(s, CURRENCIES, i);
    }
  }

  lemma {:induction false} SpacesOff(gap: string, t: string)
    requires Blank(gap) && t != [] && !IsSpace(t[0])
    ensures AfterSpaces(gap + t) == t
  {
    hide IsSpace;
    if gap == [] {
      assert gap + t == t && t[0..] == t;
      assert SpaceRun(t) == 0;
    } else {
      assert (gap + t)[1..] == gap[1..] + t;
      SpacesOff(gap[1..], t);
      var n := SpaceRun(gap[1..] + t);
      assert (gap + t)[1 + n..] == (gap + t)[1..][n..];
    }
  }

  lemma IsoOfTaken(word: string)
    ensures Iso(Some(Taken(word))) == Iso(Some(word))
  {
  }

  lemma IsoIsThere(word: string)
    requires word in CURRENCIES
    ensures Iso(None) == ""
    ensures Iso(Some(word)) == "EUR" || Iso(Some(word)) == "USD" || Iso(Some(word)) == "GBP"
  {
  }

  lemma LettersAreNoGroups(s: string)
    requires s != [] && !StartsNumber(s[0])
    ensures NumberSpelling.Normalize(s) == s
  {
    assert DigitRun(s) == 0;
  }

  // ---- the normal form ----

  lemma NumberFollows(d: string, t: string)
    requires BareNumber(d)
    ensures NoLetterNext(d + t) && !IsSpace((d + t)[0])
  {
    assert (d + t)[0] == d[0];
    NumbersAreNoLetters(d[0]);
    NumbersAreNoSpace(d[0]);
  }

  lemma GapFollows(gap: string, t: string)
    requires Blank(gap) && NoLetterNext(t)
    ensures NoLetterNext(gap + t)
  {
    if gap == [] {
      assert gap + t == t;
    } else {
      SpacesAreNoLetters(gap[0]);
    }
  }

  /** The text after the currency taken in front. */
  lemma FrontOff(a: Notation, t: string)
    requires IsNotation(a) && a.front.Some? && t == a.digits + Behind(a)
    ensures var m := a.front.value;
      var s := m.spelling + (m.gap + t);
      && FirstCurrency(s, CURRENCIES) == Some(Taken(m.word)) && |Taken(m.word)| <= |s|
      && AfterSpaces(s[|Taken(m.word)|..]) == if Misread(a) then m.spelling[3..] + (m.gap + t) else t
  {
    hide IsSpace, FirstCurrency, CURRENCIES, NoLetterNext, Letter;
    var m := a.front.value;
    var s := m.spelling + (m.gap + t);
    NumberFollows(a.digits, Behind(a));
    GapFollows(m.gap, t);
    TakenFirst(m.spelling, m.word, m.gap + t);
    if Misread(a) {
      var rest := m.spelling[3..] + (m.gap + t);
      assert s[3..] == rest && rest[0] == m.spelling[3] && Fold(m.spelling[3]) == m.word[3] == 'o';
      NoSpaceFoldsToLetter(rest[0]);
      SpacesOff("", rest);
      assert "" + rest == rest;
    } else {
      assert s[|m.word|..] == m.gap + t;
      SpacesOff(m.gap, t);
    }
  }

  lemma NoSpaceFoldsToLetter(c: char)
    requires Fold(c) == 'o'
    ensures !IsSpace(c) && !StartsNumber(c)
  {
  }

  lemma BareIsSolid(a: Notation)
    requires IsNotation(a)
    ensures Bare(a) != [] && !IsSpace(Bare(a)[0]) && IsDigit(Bare(a)[|Bare(a)| - 1])
    ensures Misread(a) ==> !StartsNumber(Bare(a)[0])
  {
    hide IsSpace, StartsNumber, CURRENCIES;
    var bare := Bare(a);
    assert bare[|bare| - 1] == a.digits[|a.digits| - 1];
    if Misread(a) {
      var m := a.front.value;
      assert bare[0] == m.spelling[3] && Fold(m.spelling[3]) == m.word[3] == 'o';
      NoSpaceFoldsToLetter(bare[0]);
    } else {
      BareNumberStarts(a.digits);
    }
  }

  lemma BareNumberStarts(d: string)
    requires BareNumber(d)
    ensures !IsSpace(d[0]) && FirstCurrency(d, CURRENCIES) == None
    ensures forall t: string :: FirstCurrency(d + t, CURRENCIES) == None
  {
    hide IsSpace, FirstCurrency, CURRENCIES, StartsNumber;
    NumbersAreNoSpace(d[0]);
    CurrenciesStartNoNumber();
    NoFirstCurrency(d, CURRENCIES);
    forall t: string
      ensures FirstCurrency(d + t, CURRENCIES) == None
    {
      assert (d + t)[0] == d[0];
      NoFirstCurrency(d + t, CURRENCIES);
    }
  }

  function Captured(a: Notation): Option<string> {
    if a.front.None? then None else Some(Taken(a.front.value.word))
  }

  lemma DissectBy(amount: string, prefix: Option<string>, rest: string, suffix: Option<string>, bare: string)
    requires FirstCurrency(amount, CURRENCIES) == prefix && LastCurrency(rest, CURRENCIES) == suffix
    requires if prefix.None? then rest == amount
             else |prefix.value| <= |amount| && AfterSpaces(amount[|prefix.value|..]) == rest
    requires if suffix.None? then rest == bare
             else |suffix.value| <= |rest| && Trim(rest[..|rest| - |suffix.value|]) == bare
    ensures Dissect(amount) == Parts(prefix, suffix, bare)
  {
    hide FirstCurrency, LastCurrency, Trim, CURRENCIES, AfterSpaces;
  }

  lemma BareThenBehind(a: Notation)
    requires IsNotation(a)
    ensures var t := a.digits + Behind(a);
      Bare(a) + Behind(a) ==
        if Misread(a) then a.front.value.spelling[3..] + (a.front.value.gap + t) else t
  {
    hide CURRENCIES, BareNumber, Blank;
  }

  /** Dissecting finds the currencies on both sides and what is between them. */
  lemma DissectFinds(a: Notation)
    requires IsNotation(a)
    ensures Dissect(WithoutPercent(a)) == Parts(Captured(a), WordOf(a.behind), Bare(a))
  {
    hide IsSpace, FirstCurrency, LastCurrency, Trim, CURRENCIES, AfterSpaces, BareNumber, Bare, Misread, Dissect, Taken,
         Spells, Blank;
    var t := a.digits + Behind(a);
    BareIsSolid(a);
    BehindOff(Bare(a), a.behind);
    BareThenBehind(a);
    FrontNone(a);
    if a.front.None? {
      BareNumberStarts(a.digits);
      assert WithoutPercent(a) == t;
    } else {
      FrontOff(a, t);
      var m := a.front.value;
      assert WithoutPercent(a) == m.spelling + (m.gap + t);
    }
    DissectBy(WithoutPercent(a), Captured(a), Bare(a) + Behind(a), WordOf(a.behind), Bare(a));
  }

  lemma FrontNone(a: Notation)
    ensures a.front.None? ==> !Misread(a)
  {
  }

  lemma NotationEnds(a: Notation)
    requires IsNotation(a)
    ensures var s := WithoutPercent(a);
      s != [] && !IsSpace(s[0]) && !IsSpace(s[|s| - 1]) && s[|s| - 1] != '%'
  {
    hide IsSpace, CURRENCIES, Spells, StartsNumber, IsDigit;
    var s := WithoutPercent(a);
    NumberEnds(a.digits);
    if a.front.Some? {
      SpellingEnds(a.front.value.spelling, a.front.value.word);
      assert s[0] == a.front.value.spelling[0];
    } else {
      assert s[0] == a.digits[0];
    }
    if a.behind.Some? {
      var v := a.behind.value.spelling;
      SpellingEnds(v, a.behind.value.word);
      assert s[|s| - 1] == v[|v| - 1];
    } else {
      assert s[|s| - 1] == a.digits[|a.digits| - 1];
    }
  }

  lemma NumberEnds(d: string)
    requires BareNumber(d)
    ensures !IsSpace(d[0]) && !IsSpace(d[|d| - 1]) && d[|d| - 1] != '%'
  {
    NumbersAreNoSpace(d[0]);
    NumbersAreNoSpace(d[|d| - 1]);
  }

  /** The percent sign and the white space before it come off. */
  lemma PercentOff(a: Notation, numeral: string -> string)
    requires IsNotation(a)
    ensures NormalizeNumber(Spelled(a), numeral) == Compose(Dissect(WithoutPercent(a)), numeral) + PercentSign(a)
  {
    hide IsSpace, Trim, Dissect, Compose, WithoutPercent, BareNumber, Spells, CURRENCIES;
    var s := WithoutPercent(a);
    NotationEnds(a);
    if a.percent.None? {
      assert s + "" == s;
      TrimKeeps(s);
      assert Compose(Dissect(s), numeral) + "" == Compose(Dissect(s), numeral);
    } else {
      var gap := a.percent.value;
      var raw := s + (gap + "%");
      assert raw[0] == s[0] && raw[|raw| - 1] == '%' && raw[..|raw| - 1] == s + gap;
      PercentIsNoSpace();
      TrimKeeps(raw);
      TrimOff(s, gap);
    }
  }

  lemma PercentIsNoSpace()
    ensures !IsSpace('%')
  {
  }

  /** What normalizeNumber makes of any amount: a mark for the currencies, the number that is read, and
      the percent sign. */
  lemma Normalizes(a: Notation, numeral: string -> string)
    requires IsNotation(a)
    ensures NormalizeNumber(Spelled(a), numeral) == NormalForm(a, numeral)
  {
    hide NormalizeNumber, Dissect, Iso, NumberSpelling.Normalize, CurrencyMark, Spelled, WithoutPercent, IsNotation,
         Bare, Taken, CURRENCIES, StartsNumber;
    PercentOff(a, numeral);
    DissectFinds(a);
    FrontNone(a);
    if a.front.Some? {
      IsoOfTaken(a.front.value.word);
    }
    if Misread(a) {
      BareIsSolid(a);
      LettersAreNoGroups(Bare(a));
    } else {
      BareOfRead(a);
    }
  }

  lemma BareOfRead(a: Notation)
    requires IsNotation(a) && !Misread(a)
    ensures Bare(a) == a.digits
  {
  }

  // ---- when amounts compare equal ----

  predicate IsIso(code: string) {
    code in ["", "EUR", "USD", "GBP"]
  }

  lemma IsoIsIso(m: Option<Mention>)
    requires IsMention(m)
    ensures IsIso(Iso(WordOf(m))) && (Iso(WordOf(m)) == "" <==> m.None?)
  {
    if m.Some? {
      IsoIsThere(m.value.word);
    }
  }

  lemma MarkShape(p: string, s: string)
    requires IsIso(p) && IsIso(s)
    ensures var mark := CurrencyMark(p, s);
      && '%' !in mark && (mark != "" ==> mark[|mark| - 1] == ':')
      && (forall i :: 0 <= i < |mark| - 1 ==> mark[i] != ':')
    ensures p == "" ==> |CurrencyMark(p, s)| == if s == "" then 0 else 1
    ensures p != "" ==> |p| == 3 && |CurrencyMark(p, s)| >= 4 && CurrencyMark(p, s)[..3] == p
    ensures p != "" && Other(p, s) == "" ==> |CurrencyMark(p, s)| == 4
    ensures p != "" && Other(p, s) != "" ==> |s| == 3 && |CurrencyMark(p, s)| == 8 && CurrencyMark(p, s)[4..7] == s
  {
  }

  /** The currency behind, where it differs from one in front. */
  function Other(p: string, s: string): string {
    if s == p then "" else s
  }

  lemma SameMarks(p: string, s: string, q: string, t: string)
    requires IsIso(p) && IsIso(s) && IsIso(q) && IsIso(t)
    ensures CurrencyMark(p, s) == CurrencyMark(q, t) <==>
      p == q && if p == "" then s == "" <==> t == "" else Other(p, s) == Other(q, t)
  {
    MarkShape(p, s);
    MarkShape(q, t);
  }

  /** The currencies of an amount, wherever they stand. */
  function Currencies(a: Notation): set<string> {
    {FrontIso(a), BehindIso(a)} - {""}
  }

  /** Only a currency behind: the code has lost which. */
  predicate OnlyBehind(a: Notation) {
    a.front.None? && a.behind.Some?
  }

  predicate SamePercent(a: Notation, b: Notation) {
    a.percent.Some? <==> b.percent.Some?
  }

  /** The marks differ between amounts in different currencies unless both stand behind alone, and
      between amounts in the same currencies unless the same one is in front. */
  lemma MarksAndCurrencies(a: Notation, b: Notation)
    requires IsNotation(a) && IsNotation(b)
    ensures Currencies(a) != Currencies(b) ==> (Mark(a) == Mark(b) <==> OnlyBehind(a) && OnlyBehind(b))
    ensures Currencies(a) == Currencies(b) ==> (Mark(a) == Mark(b) <==> FrontIso(a) == FrontIso(b))
  {
    hide Iso, IsMention, IsIso, CurrencyMark, BareNumber;
    IsoIsIso(a.front);
    IsoIsIso(a.behind);
    IsoIsIso(b.front);
    IsoIsIso(b.behind);
    SameMarks(FrontIso(a), BehindIso(a), FrontIso(b), BehindIso(b));
    CurrencySets(FrontIso(a), BehindIso(a), FrontIso(b), BehindIso(b));
  }

  lemma CurrencySets(p: string, s: string, q: string, t: string)
    ensures p == q ==>
      ({p, s} - {""} == {q, t} - {""} <==> if p == "" then s == t else Other(p, s) == Other(q, t))
  {
    var x, y := {p, s} - {""}, {q, t} - {""};
    assert p in x <==> p != "";
    assert s in x <==> s != "";
    assert t in y <==> t != "";
    assert s in y <==> s != "" && (s == q || s == t);
    assert t in x <==> t != "" && (t == p || t == s);
  }

  lemma MarkOf(a: Notation)
    requires IsNotation(a)
    ensures '%' !in Mark(a) && (Mark(a) != "" ==> Mark(a)[|Mark(a)| - 1] == ':')
    ensures forall i :: 0 <= i < |Mark(a)| - 1 ==> Mark(a)[i] != ':'
  {
    IsoIsIso(a.front);
    IsoIsIso(a.behind);
    hide CurrencyMark, Iso;
    MarkShape(FrontIso(a), BehindIso(a));
  }

  /** Around one and the same text, marks and percent signs are told apart. */
  lemma AroundOne(m: string, n: string, percent: bool, m': string, percent': bool)
    requires '%' !in m && '%' !in m'
    requires m + n + (if percent then "%" else "") == m' + n + if percent' then "%" else ""
    ensures m == m' && percent == percent'
  {
    var x, y := m + n + (if percent then "%" else ""), m' + n + if percent' then "%" else "";
    assert multiset(x)['%'] == multiset(n)['%'] + if percent then 1 else 0;
    assert multiset(y)['%'] == multiset(n)['%'] + if percent' then 1 else 0;
    assert x[..|m|] == m && y[..|m'|] == m';
  }

  /** Two amounts of one number, neither with euro or euros in front, whatever the white space: in
      different currencies they compare equal exactly when each has its currency behind and none in
      front; in the same currencies, exactly when the same one, or none, is in front. */
  lemma ComparedExactly(a: Notation, b: Notation, numeral: string -> string)
    requires IsNotation(a) && IsNotation(b) && !Misread(a) && !Misread(b)
    requires numeral(NumberSpelling.Normalize(a.digits)) == numeral(NumberSpelling.Normalize(b.digits))
    ensures Currencies(a) != Currencies(b) ==>
      (NormalizeNumber(Spelled(a), numeral) == NormalizeNumber(Spelled(b), numeral)
       <==> OnlyBehind(a) && OnlyBehind(b) && SamePercent(a, b))
    ensures Currencies(a) == Currencies(b) ==>
      (NormalizeNumber(Spelled(a), numeral) == NormalizeNumber(Spelled(b), numeral)
       <==> FrontIso(a) == FrontIso(b) && SamePercent(a, b))
  {
    hide NormalizeNumber, Spelled, Mark, NumberSpelling.Normalize, Currencies, IsNotation, Misread, OnlyBehind,
         FrontIso;
    Normalizes(a, numeral);
    Normalizes(b, numeral);
    MarksAndCurrencies(a, b);
    MarkOf(a);
    MarkOf(b);
    if NormalForm(a, numeral) == NormalForm(b, numeral) {
      AroundOne(Mark(a), numeral(Read(a)), a.percent.Some?, Mark(b), b.percent.Some?);
    }
  }

  /** A number as Number prints it: with neither colon nor percent sign. */
  predicate Printed(n: string) {
    ':' !in n && '%' !in n
  }

  lemma ApartAtColon(m: string, n: string, m': string, n': string)
    requires ':' !in n && ':' !in n' && m + n == m' + n'
    requires m != "" ==> m[|m| - 1] == ':'
    requires m' != "" ==> m'[|m'| - 1] == ':'
    requires forall i :: 0 <= i < |m| - 1 ==> m[i] != ':'
    requires forall i :: 0 <= i < |m'| - 1 ==> m'[i] != ':'
    ensures m == m' && n == n'
  {
    var x, y := m + n, m' + n';
    assert forall i :: 0 <= i < |m| ==> x[i] == m[i];
    assert forall i :: 0 <= i < |m'| ==> y[i] == m'[i];
    assert forall i :: |m| <= i < |x| ==> x[i] == n[i - |m|];
    assert forall i :: |m'| <= i < |y| ==> y[i] == n'[i - |m'|];
    assert |m| == |m'|;
    assert x[..|m|] == m && y[..|m'|] == m' && x[|m|..] == n && y[|m'|..] == n';
  }

  lemma ApartAtPercent(n: string, percent: bool, n': string, percent': bool)
    requires '%' !in n && '%' !in n'
    requires n + (if percent then "%" else "") == n' + if percent' then "%" else ""
    ensures n == n' && percent == percent'
  {
    var x, y := n + (if percent then "%" else ""), n' + if percent' then "%" else "";
    assert multiset(x)['%'] == if percent then 1 else 0;
    assert multiset(y)['%'] == if percent' then 1 else 0;
    assert x[..|n|] == n && y[..|n'|] == n';
  }

  /** Any two amounts, euro and euros in front included: they compare equal exactly when the code gives
      them one mark and one number to read, and both or neither a percent sign; in different currencies
      the marks agree exactly when each has its currency behind and none in front. */
  lemma AllComparedExactly(a: Notation, b: Notation, numeral: string -> string)
    requires IsNotation(a) && IsNotation(b) && Printed(numeral(Read(a))) && Printed(numeral(Read(b)))
    ensures NormalizeNumber(Spelled(a), numeral) == NormalizeNumber(Spelled(b), numeral)
      <==> && numeral(Read(a)) == numeral(Read(b)) && SamePercent(a, b)
           && if Currencies(a) == Currencies(b) then FrontIso(a) == FrontIso(b) else OnlyBehind(a) && OnlyBehind(b)
  {
    hide NormalizeNumber, Spelled, Mark, Read, Currencies, IsNotation, OnlyBehind, FrontIso;
    Normalizes(a, numeral);
    Normalizes(b, numeral);
    MarksAndCurrencies(a, b);
    MarkOf(a);
    MarkOf(b);
    if NormalForm(a, numeral) == NormalForm(b, numeral) {
      var n, n' := numeral(Read(a)), numeral(Read(b));
      Associate(Mark(a), n, PercentSign(a));
      Associate(Mark(b), n', PercentSign(b));
      ApartAtColon(Mark(a), n + PercentSign(a), Mark(b), n' + PercentSign(b));
      ApartAtPercent(n, a.percent.Some?, n', b.percent.Some?);
    }
  }

  lemma Associate(x: string, y: string, z: string)
    ensures x + y + z == x + (y + z)
  {
  }

  /** Currencies on both sides that are not the same. */
  predicate Conflicting(a: Notation) {
    a.front.Some? && a.behind.Some? && FrontIso(a) != BehindIso(a)
  }

  /** What the code promises of conflicting notation holds: it never compares equal to an amount in one
      currency or none, whatever the numbers. */
  lemma ConflictStaysApart(a: Notation, b: Notation, numeral: string -> string)
    requires IsNotation(a) && IsNotation(b) && Printed(numeral(Read(a))) && Printed(numeral(Read(b)))
    requires Conflicting(a) && !Conflicting(b)
    ensures NormalizeNumber(Spelled(a), numeral) != NormalizeNumber(Spelled(b), numeral)
  {
    hide NormalizeNumber, Spelled, Read, Printed, Iso, BareNumber;
    IsoIsIso(a.front);
    IsoIsIso(a.behind);
    IsoIsIso(b.front);
    IsoIsIso(b.behind);
    AllComparedExactly(a, b, numeral);
    assert FrontIso(a) in Currencies(a) && BehindIso(a) in Currencies(a);
    if Currencies(a) == Currencies(b) {
      assert FrontIso(a) in Currencies(b) && BehindIso(a) in Currencies(b);
    }
  }

  /** After the number alone the currency is lost: every currency leaves the same lone colon. */
  lemma SuffixIsLost(a: Notation, numeral: string -> string)
    requires IsNotation(a) && OnlyBehind(a)
    ensures NormalizeNumber(Spelled(a), numeral) == ":" + numeral(NumberSpelling.Normalize(a.digits)) + PercentSign(a)
  {
    hide NormalizeNumber, Spelled, Iso, NumberSpelling.Normalize, BareNumber;
    Normalizes(a, numeral);
    IsoIsIso(a.front);
    IsoIsIso(a.behind);
  }

  /** In front alone the currency is kept, but euro and euros leave letters with the digits. */
  lemma PrefixIsKept(a: Notation, numeral: string -> string)
    requires IsNotation(a) && a.front.Some? && a.behind.None?
    ensures NormalizeNumber(Spelled(a), numeral) == FrontIso(a) + ":" + numeral(Read(a)) + PercentSign(a)
  {
    hide NormalizeNumber, Spelled, Iso, Read, BareNumber;
    Normalizes(a, numeral);
    IsoIsIso(a.front);
    IsoIsIso(a.behind);
  }

  /** So amounts of one number with a currency behind alone are alike whatever the currencies, and never
      like one with a currency in front, whatever its number. */
  lemma FormsNeverCollapse(a: Notation, b: Notation, c: Notation, numeral: string -> string)
    requires IsNotation(a) && IsNotation(b) && IsNotation(c) && OnlyBehind(a) && OnlyBehind(b) && c.front.Some?
    requires numeral(NumberSpelling.Normalize(a.digits)) == numeral(NumberSpelling.Normalize(b.digits))
    requires SamePercent(a, b)
    ensures NormalizeNumber(Spelled(a), numeral) == NormalizeNumber(Spelled(b), numeral)
    ensures NormalizeNumber(Spelled(a), numeral) != NormalizeNumber(Spelled(c), numeral)
  {
    hide NormalizeNumber, Spelled, Iso, NumberSpelling.Normalize, IsNotation, Read;
    SuffixIsLost(a, numeral);
    SuffixIsLost(b, numeral);
    Normalizes(c, numeral);
    FrontLeads(c);
    assert NormalizeNumber(Spelled(a), numeral)[0] == ':';
    assert NormalizeNumber(Spelled(c), numeral)[0] == Mark(c)[0];
  }

  lemma FrontLeads(c: Notation)
    requires IsNotation(c) && c.front.Some?
    ensures Mark(c) != "" && Mark(c)[0] != ':'
  {
    hide Iso, BareNumber;
    IsoIsIso(c.front);
    IsoIsIso(c.behind);
  }

  // ---- every lexeme is such an amount ----

  lemma {:induction false} SpaceRunIsBlank(s: string)
    ensures Blank(s[..SpaceRun(s)])
  {
    hide IsSpace;
    if s != [] && IsSpace(s[0]) {
      SpaceRunIsBlank(s[1..]);
      var n := SpaceRun(s);
      assert s[..n] == [s[0]] + s[1..][..n - 1];
    }
  }

  lemma {:induction false} LeadIsMention(s: string, words: seq<string>)
    requires forall word :: word in words ==> word in CURRENCIES
    ensures LeadLength(s, words) > 0 ==>
      exists m :: IsMention(Some(m)) && s[..LeadLength(s, words)] == m.spelling + m.gap
  {
    hide CURRENCIES, IsSpace, Begins, NumberLength, AfterSpaces;
    if words != [] {
      if Leads(s, words[0]) {
        FoundWord(s, words[0]);
        var n := |words[0]|;
        var m := Mention(s[..n], words[0], s[n..][..SpaceRun(s[n..])]);
        SpaceRunIsBlank(s[n..]);
        assert IsMention(Some(m)) && s[..Reach(s, words[0])] == m.spelling + m.gap;
      } else {
        LeadIsMention(s, words[1..]);
      }
    }
  }

  lemma FoundWord(s: string, word: string)
    requires Begins(s, word)
    ensures |word| <= |s| && Spells(s[..|word|], word)
  {
  }

  lemma TrailIsMention(s: string)
    requires TrailLength(s) > 0
    ensures exists m :: IsMention(Some(m)) && s[..TrailLength(s)] == m.gap + m.spelling
  {
    hide CURRENCIES, IsSpace, Begins, FirstWord;
    var n, rest := SpaceRun(s), AfterSpaces(s);
    FirstWordEnds(rest, CURRENCIES);
    var word :| word in CURRENCIES && Begins(rest, word) && FirstWord(rest, CURRENCIES) == |word|;
    FoundWord(rest, word);
    SpaceRunIsBlank(s);
    var m := Mention(rest[..|word|], word, s[..n]);
    assert IsMention(Some(m)) && s[..TrailLength(s)] == m.gap + m.spelling;
  }

  lemma PercentIsBlank(s: string)
    requires PercentLength(s) > 0
    ensures exists gap: string :: Blank(gap) && s[..PercentLength(s)] == gap + "%"
  {
    hide IsSpace;
    SpaceRunIsBlank(s);
    assert s[..PercentLength(s)] == s[..SpaceRun(s)] + "%";
  }

  /** What the pattern matches at the start of a text is an amount. */
  lemma MatchIsNotation(s: string)
    requires LexemeLength(s) > 0
    ensures exists a :: IsNotation(a) && Spelled(a) == s[..LexemeLength(s)]
  {
    hide CURRENCIES, LeadLength, NumberLength, TrailLength, PercentLength, IsMention, BareNumber, Blank;
    var lead := LeadLength(s, CURRENCIES);
    var number := NumberLength(s[lead..]);
    var m := lead + number;
    var trail := TrailLength(s[m..]);
    var n := m + trail;
    var percent := PercentLength(s[n..]);
    LeadIsMention(s, CURRENCIES);
    MatchedIsBare(s[lead..]);
    var front: Option<Mention>, behind: Option<Mention>, sign: Option<string> := None, None, None;
    NoMention();
    if lead > 0 {
      var x :| IsMention(Some(x)) && s[..lead] == x.spelling + x.gap;
      front := Some(x);
    }
    if trail > 0 {
      TrailIsMention(s[m..]);
      var x :| IsMention(Some(x)) && s[m..][..trail] == x.gap + x.spelling;
      behind := Some(x);
    }
    if percent > 0 {
      PercentIsBlank(s[n..]);
      var gap: string :| Blank(gap) && s[n..][..percent] == gap + "%";
      sign := Some(gap);
    }
    var a := Notation(front, s[lead..][..number], behind, sign);
    Concatenated(s, lead, number, trail, percent);
    assert Front(a) == s[..lead] && Behind(a) == s[m..][..trail];
    assert Spelled(a) == s[..lead] + (s[lead..][..number] + s[m..][..trail]) + s[n..][..percent];
    assert IsNotation(a);
  }

  lemma NoMention()
    ensures IsMention(None)
  {
  }

  lemma MatchedIsBare(s: string)
    requires NumberLength(s) > 0
    ensures BareNumber(s[..NumberLength(s)])
  {
    hide NumberLength, StartsNumber, IsDigit;
    NumberStarts(s);
    NumberEndsInDigit(s);
  }

  lemma Concatenated(s: string, lead: nat, number: nat, trail: nat, percent: nat)
    requires lead + number + trail + percent <= |s|
    ensures var m := lead + number;
      var n := m + trail;
      s[..lead] + (s[lead..][..number] + s[m..][..trail]) + s[n..][..percent] == s[..n + percent]
  {
  }

  /** Every number the validator looks at is such an amount. */
  lemma {:induction false} LexemesAreNotations(text: string)
    ensures forall lexeme :: lexeme in Lexemes(text) ==> exists a :: IsNotation(a) && Spelled(a) == lexeme
    decreases |text|
  {
    hide LexemeLength, IsNotation, Spelled;
    if text != [] {
      LexemesUnfold(text);
      var n := LexemeLength(text);
      if n > 0 {
        MatchIsNotation(text);
      }
      LexemesAreNotations(text[if n > 0 then n else 1..]);
    }
  }
}
