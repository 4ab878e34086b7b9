/** extractNumberLexemes of `src/agents/narrator.ts`: the pieces of a text that spell numbers, and what
    becomes of them when texts are joined with a space. */
module NumberLexemes {
  import opened Text

  // ---- the pieces of the pattern ----

  /** The alternatives for a currency, in the order the patterns try them. */
  const CURRENCIES: seq<string> :=
    ["eur", "usd", "gbp", "euros", "euro", "dollars", "dollar", "pounds", "pound", "€", "$", "£"]

  /** Case folding as the patterns' flags `iu` do it, as far as currencies go: the long s folds too. */
  function Fold(c: char): char {
    if 'A' <= c <= 'Z' then c + 32 as char else if c == '\U{17f}' then 's' else c
  }

  predicate Begins(s: string, word: string) {
    |word| <= |s| && forall i :: 0 <= i < |word| ==> Fold(s[i]) == word[i]
  }

  /** `-?\d+(?:[.,]\d+)*`, how much of it matches at the start. */
  function NumberLength(s: string): (n: nat)
    ensures n <= |s|
  {
    var sign := if s != [] && s[0] == '-' then 1 else 0;
    var digits := DigitRun(s[sign..]);
    if digits == 0 then 0 else sign + digits + GroupsLength(s[sign + digits..])
  }

  function GroupsLength(s: string): (n: nat)
    ensures n <= |s|
  {
    if |s| >= 2 && (s[0] == '.' || s[0] == ',') && IsDigit(s[1]) then
      var n := 1 + DigitRun(s[1..]);
      n + GroupsLength(s[n..])
    else 0
  }

  /** A currency that white space at most separates from a number. */
  predicate Leads(s: string, word: string) {
    Begins(s, word) && NumberLength(AfterSpaces(s[|word|..])) > 0
  }

  /** How far a currency that leads reaches, with its white space. */
  function Reach(s: string, word: string): nat
    requires Leads(s, word)
    ensures Reach(s, word) <= |s|
  {
    |word| + SpaceRun(s[|word|..])
  }

  function AfterSpaces(s: string): string {
    s[SpaceRun(s)..]
  }

  /** The optional currency in front, with its white space: the first alternative from which the rest
      of the pattern matches. */
  function LeadLength(s: string, words: seq<string>): (n: nat)
    ensures n <= |s|
  {
    if words == [] then 0
    else if Leads(s, words[0]) then Reach(s, words[0])
    else LeadLength(s, words[1..])
  }

  function FirstWord(s: string, words: seq<string>): (n: nat)
    ensures n <= |s|
  {
    if words == [] then 0 else if Begins(s, words[0]) then |words[0]| else FirstWord(s, words[1..])
  }

  /** `(?:\s*CURRENCY)?` */
  function TrailLength(s: string): (n: nat)
    ensures n <= |s|
  {
    var word := FirstWord(AfterSpaces(s), CURRENCIES);
    if word == 0 then 0 else SpaceRun(s) + word
  }

  /** `(?:\s*%)?` */
  function PercentLength(s: string): (n: nat)
    ensures n <= |s|
  {
    var spaces := SpaceRun(s);
    if spaces < |s| && s[spaces] == '%' then spaces + 1 else 0
  }

  /** How much of a text the whole pattern matches at its start; nothing if it does not. */
  function LexemeLength(s: string): (n: nat)
    ensures n <= |s|
  {
    var lead := LeadLength(s, CURRENCIES);
    var number := NumberLength(s[lead..]);
    if number == 0 then 0
    else
      var m := lead + number;
      var n := m + TrailLength(s[m..]);
      n + PercentLength(s[n..])
  }

  /** extractNumberLexemes: all matches, left to right. */
  function Lexemes(s: string): seq<string>
    decreases |s|
  {
    if s == [] then []
    else
      var n := LexemeLength(s);
      if n > 0 then [s[..n]] + Lexemes(s[n..]) else Lexemes(s[1..])
  }

  // ---- what the currencies look like ----

  predicate Letter(c: char) {
    'a' <= c <= 'z'
  }

  predicate Symbol(c: char) {
    c == '€' || c == '$' || c == '£'
  }

  /** The last two characters; a space stands for the one a single character lacks. */
  function Ending(word: string): (char, char)
    requires word != []
  {
    (if |word| < 2 then ' ' else word[|word| - 2], word[|word| - 1])
  }

  function OfEnding(before: char, last: char): string {
    if last == 'r' then (if before == 'u' then "eur" else "dollar")
    else if last == 'd' then (if before == 's' then "usd" else "pound")
    else if last == 'p' then "gbp"
    else if last == 'o' then "euro"
    else if last == 's' then (if before == 'o' then "euros" else if before == 'r' then "dollars" else "pounds")
    else [last]
  }

  /** No currency is the end of another: their last two characters tell them apart. */
  lemma CurrencyByEnding(word: string)
    requires word in CURRENCIES
    ensures word != [] && OfEnding(Ending(word).0, Ending(word).1) == word
    ensures if |word| == 1 then Symbol(word[0]) else Letter(word[0]) && Letter(word[|word| - 1])
  {
  }

  lemma CurrencyByStart(word: string)
    requires word in CURRENCIES
    ensures word != []
    ensures if |word| == 1 then Symbol(word[0]) else Letter(word[0]) && word[1] in ['u', 's', 'b', 'o']
  {
  }

  lemma SymbolsAndLetters(c: char)
    ensures Symbol(c) || Letter(c) ==> !IsDigit(c) && !IsSpace(c) && c != '%' && c != '-'
    ensures !(Symbol(c) && Letter(c))
    ensures Symbol(Fold(c)) || Letter(Fold(c)) ==> !IsDigit(c) && !IsSpace(c) && c != '%' && c != '-'
  {
  }

  lemma SymbolsDoNotFold(c: char)
    ensures Symbol(Fold(c)) ==> Symbol(c)
  {
  }

  // ---- a space ends whatever does not reach over it ----

  lemma {:induction false} SpaceRunLocal(x: string, b: string)
    ensures SpaceRun(x) < |x| ==>
      SpaceRun(x + " " + b) == SpaceRun(x) && AfterSpaces(x + " " + b) == AfterSpaces(x) + " " + b
    ensures SpaceRun(x) == |x| ==>
      SpaceRun(x + " " + b) == |x| + 1 + SpaceRun(b) && AfterSpaces(x + " " + b) == AfterSpaces(b)
  {
    if x == [] {
      assert x + " " + b == " " + b;
      assert (" " + b)[1..] == b;
    } else {
      assert (x + " " + b)[1..] == x[1..] + " " + b;
      SpaceRunLocal(x[1..], b);
    }
  }

  lemma Suffix(x: string, b: string, n: nat)
    requires n <= |x|
    ensures (x + " " + b)[n..] == x[n..] + " " + b
  {
  }

  lemma {:induction false} DigitRunLocal(x: string, b: string)
    ensures DigitRun(x + " " + b) == DigitRun(x)
  {
    if x == [] {
      assert x + " " + b == " " + b;
    } else {
      Suffix(x, b, 1);
      DigitRunLocal(x[1..], b);
    }
  }

  lemma {:induction false} GroupsLocal(x: string, b: string)
    ensures GroupsLength(x + " " + b) == GroupsLength(x)
  {
    hide DigitRun;
    if |x| >= 2 && (x[0] == '.' || x[0] == ',') && IsDigit(x[1]) {
      Suffix(x, b, 1);
      DigitRunLocal(x[1..], b);
      var n := 1 + DigitRun(x[1..]);
      Suffix(x, b, n);
      GroupsLocal(x[n..], b);
    }
  }

  lemma NumberLocal(x: string, b: string)
    ensures NumberLength(x + " " + b) == NumberLength(x)
  {
    hide DigitRun, GroupsLength;
    var sign := if x != [] && x[0] == '-' then 1 else 0;
    assert (x + " " + b)[0] == '-' <==> sign == 1;
    Suffix(x, b, sign);
    DigitRunLocal(x[sign..], b);
    var digits := DigitRun(x[sign..]);
    Suffix(x, b, sign + digits);
    GroupsLocal(x[sign + digits..], b);
  }

  predicate SpaceFree(word: string) {
    word != [] && forall i :: 0 <= i < |word| ==> word[i] != ' '
  }

  lemma BeginsLocal(x: string, b: string, word: string)
    requires SpaceFree(word)
    ensures Begins(x + " " + b, word) <==> Begins(x, word)
    ensures Begins(x, word) ==> (x + " " + b)[|word|..] == x[|word|..] + " " + b
  {
    var s := x + " " + b;
    if Begins(s, word) && |x| < |word| {
      BeginsReaches(x, b, word);
    }
    assert forall i :: 0 <= i < |x| ==> s[i] == x[i];
  }

  lemma BeginsReaches(x: string, b: string, word: string)
    requires Begins(x + " " + b, word) && |x| < |word|
    ensures word[|x|] == ' '
  {
    assert (x + " " + b)[|x|] == ' ';
  }

  /** A currency leads in the joined text iff it does in the part before the seam, or reaches over it. */
  lemma LeadsLocal(x: string, b: string, word: string)
    requires SpaceFree(word)
    ensures Leads(x, word) ==>
      Leads(x + " " + b, word) && Reach(x + " " + b, word) == Reach(x, word) <= |x|
    ensures Leads(x + " " + b, word) && !Leads(x, word) ==>
      && Begins(x, word) && SpaceRun(x[|word|..]) == |x| - |word|
      && Reach(x + " " + b, word) == |x| + 1 + SpaceRun(b) && NumberLength(AfterSpaces(b)) > 0
  {
    BeginsLocal(x, b, word);
    if Begins(x, word) {
      var y := x[|word|..];
      SpaceRunLocal(y, b);
      NumberLocal(AfterSpaces(y), b);
    }
  }

  predicate AllSpaceFree(words: seq<string>) {
    forall word :: word in words ==> SpaceFree(word)
  }

  lemma CurrenciesAreSpaceFree()
    ensures AllSpaceFree(CURRENCIES)
  {
  }

  /** The text is some currency and white space. */
  predicate IsCurrency(s: string, words: seq<string>) {
    exists word :: word in words && Begins(s, word) && SpaceRun(s[|word|..]) == |s| - |word|
  }

  /** What leads does so in both texts alike, unless in the joined one it reaches over the seam. */
  lemma {:induction false} LeadLocal(x: string, b: string, words: seq<string>)
    requires AllSpaceFree(words)
    ensures var lead := LeadLength(x + " " + b, words);
      if lead <= |x| then LeadLength(x, words) == lead
      else lead == |x| + 1 + SpaceRun(b) && NumberLength(AfterSpaces(b)) > 0 && IsCurrency(x, words)
  {
    hide Leads, SpaceFree, Reach, NumberLength, Begins;
    if words != [] {
      assert words[0] in words;
      LeadsLocal(x, b, words[0]);
      assert forall word :: word in words[1..] ==> word in words;
      LeadLocal(x, b, words[1..]);
    }
  }

  lemma {:induction false} FirstWordLocal(x: string, b: string, words: seq<string>)
    requires AllSpaceFree(words)
    ensures FirstWord(x + " " + b, words) == FirstWord(x, words)
  {
    hide SpaceFree, Begins;
    if words != [] {
      assert words[0] in words;
      BeginsLocal(x, b, words[0]);
      assert forall word :: word in words[1..] ==> word in words;
      FirstWordLocal(x, b, words[1..]);
    }
  }

  lemma TrailLocal(x: string, b: string)
    ensures var trail := TrailLength(x + " " + b);
      if trail <= |x| then TrailLength(x) == trail else SpaceRun(x) == |x|
  {
    CurrenciesAreSpaceFree();
    SpaceRunLocal(x, b);
    FirstWordLocal(AfterSpaces(x), b, CURRENCIES);
    hide AllSpaceFree, FirstWord;
    NothingBegins(AfterSpaces(x));
  }

  lemma NothingBegins(s: string)
    ensures s == [] ==> FirstWord(s, CURRENCIES) == 0
  {
    CurrenciesAreSpaceFree();
    NothingBeginsNothing(CURRENCIES);
  }

  lemma {:induction false} NothingBeginsNothing(words: seq<string>)
    requires AllSpaceFree(words)
    ensures FirstWord([], words) == 0
  {
    if words != [] {
      assert words[0] in words;
      assert forall word :: word in words[1..] ==> word in words;
      NothingBeginsNothing(words[1..]);
    }
  }

  lemma PercentLocal(x: string, b: string)
    ensures var percent := PercentLength(x + " " + b);
      if percent <= |x| then PercentLength(x) == percent else SpaceRun(x) == |x|
  {
    SpaceRunLocal(x, b);
  }

  /** A match in the joined text that ends before the seam is the match in the part before it. */
  lemma LexemeLocal(x: string, b: string)
    ensures LexemeLength(x + " " + b) <= |x| ==> LexemeLength(x) == LexemeLength(x + " " + b)
  {
    hide LeadLength, NumberLength, TrailLength, PercentLength;
    var s := x + " " + b;
    CurrenciesAreSpaceFree();
    LeadLocal(x, b, CURRENCIES);
    var lead := LeadLength(s, CURRENCIES);
    if lead <= |x| {
      Suffix(x, b, lead);
      NumberLocal(x[lead..], b);
      var m := lead + NumberLength(x[lead..]);
      Suffix(x, b, m);
      TrailLocal(x[m..], b);
      var n := m + TrailLength(s[m..]);
      if n <= |x| {
        Suffix(x, b, n);
        PercentLocal(x[n..], b);
      }
    } else {
      LeadMatches(s, CURRENCIES);
    }
  }

  lemma ReachLeadsToNumber(s: string, word: string)
    requires Leads(s, word)
    ensures NumberLength(s[Reach(s, word)..]) > 0
  {
    assert s[Reach(s, word)..] == AfterSpaces(s[|word|..]);
  }

  lemma {:induction false} LeadMatches(s: string, words: seq<string>)
    ensures LeadLength(s, words) > 0 ==> NumberLength(s[LeadLength(s, words)..]) > 0
  {
    hide Leads, Reach, NumberLength;
    if words != [] {
      if Leads(s, words[0]) {
        ReachLeadsToNumber(s, words[0]);
      } else {
        LeadMatches(s, words[1..]);
      }
    }
  }

  // ---- the seam ----

  /** Some lexeme found in `a + " " + b` begins in `a` and ends after the space. */
  predicate Spans(a: string, b: string)
    decreases |a|
  {
    a != []
    && var n := LexemeLength(a + " " + b);
       n > |a| || Spans(if n > 0 then a[n..] else a[1..], b)
  }

  lemma SpaceStartsNothing(b: string)
    ensures LexemeLength(" " + b) == 0 && Lexemes(" " + b) == Lexemes(b)
  {
    CurrenciesAreSpaceFree();
    assert (" " + b)[1..] == b;
    NothingAtSpace(" " + b);
  }

  lemma {:induction false} NoneLeads(s: string, words: seq<string>)
    requires s != [] && IsSpace(s[0]) && forall word :: word in words ==> word != [] && !IsSpace(word[0])
    ensures LeadLength(s, words) == 0
  {
    if words != [] {
      assert words[0] in words;
      assert !Begins(s, words[0]);
      assert forall word :: word in words[1..] ==> word in words;
      NoneLeads(s, words[1..]);
    }
  }

  /** Texts whose lexemes stay apart. */
  lemma {:induction false} SeamSeparates(a: string, b: string)
    requires !Spans(a, b)
    ensures Lexemes(a + " " + b) == Lexemes(a) + Lexemes(b)
    decreases |a|
  {
    hide LexemeLength, Lexemes;
    var s := a + " " + b;
    if a == [] {
      assert s == " " + b && [] + Lexemes(b) == Lexemes(b);
      NoLexemes();
      SpaceStartsNothing(b);
    } else {
      LexemeLocal(a, b);
      var n := LexemeLength(s);
      var k := if n > 0 then n else 1;
      Suffix(a, b, k);
      SeamSeparates(a[k..], b);
      LexemesUnfold(s);
      LexemesUnfold(a);
      if n > 0 {
        assert s[..n] == a[..n];
        Regroup([a[..n]], Lexemes(a[n..]), Lexemes(b));
      }
    }
  }

  lemma Regroup(x: seq<string>, y: seq<string>, z: seq<string>)
    ensures x + (y + z) == x + y + z
  {
  }

  lemma LexemesUnfold(s: string)
    requires s != []
    ensures var n := LexemeLength(s);
      Lexemes(s) == if n > 0 then [s[..n]] + Lexemes(s[n..]) else Lexemes(s[1..])
  {
    hide LexemeLength;
  }

  lemma {:induction false} LexemesFit(s: string)
    ensures forall lexeme :: lexeme in Lexemes(s) ==> 0 < |lexeme| <= |s|
    decreases |s|
  {
    hide LexemeLength;
    if s != [] {
      LexemesUnfold(s);
      var n := LexemeLength(s);
      LexemesFit(s[if n > 0 then n else 1..]);
    }
  }

  predicate StartsNumber(c: char) {
    IsDigit(c) || c == '-'
  }

  /** If a text begins, after white space, with a number, then so do the lexemes in the list. */
  predicate Follows(lexemes: seq<string>, b: string) {
    NumberLength(AfterSpaces(b)) > 0 && lexemes != [] ==> lexemes[0] != [] && StartsNumber(lexemes[0][0])
  }

  lemma NoCurrencyStartsNumber(s: string)
    requires IsCurrency(s, CURRENCIES)
    ensures s != [] && !StartsNumber(s[0])
  {
    hide CURRENCIES, StartsNumber, IsSpace;
    var word :| word in CURRENCIES && Begins(s, word) && SpaceRun(s[|word|..]) == |s| - |word|;
    CurrencyByStart(word);
    NumbersAreNoLetters(s[0]);
  }

  lemma NumbersAreNoLetters(c: char)
    ensures StartsNumber(c) ==> !Symbol(Fold(c)) && !Letter(Fold(c))
  {
  }

  /** What a match that reaches over the seam begins with, if nothing matches before the seam. */
  lemma SpanStartsWithCurrency(a: string, b: string)
    requires a != [] && LexemeLength(a + " " + b) > |a| && LexemeLength(a) == 0
    ensures !StartsNumber(a[0]) && NumberLength(AfterSpaces(b)) > 0
  {
    hide NumberLength, TrailLength, PercentLength, LeadLength, IsCurrency, StartsNumber;
    CurrenciesAreSpaceFree();
    LeadLocal(a, b, CURRENCIES);
    var lead := LeadLength(a + " " + b, CURRENCIES);
    if lead <= |a| {
      Suffix(a, b, lead);
      NumberLocal(a[lead..], b);
    } else {
      NoCurrencyStartsNumber(a);
    }
  }

  /** Texts with a lexeme over their seam: the lexemes differ, whatever follows. */
  lemma {:induction false} SpanDiffers(a: string, b: string, later: seq<string>)
    requires Spans(a, b) && Follows(later, b)
    ensures Lexemes(a + " " + b) != Lexemes(a) + later
    decreases |a|
  {
    hide LexemeLength, NumberLength, StartsNumber;
    var s := a + " " + b;
    var n := LexemeLength(s);
    LexemesUnfold(s);
    LexemesUnfold(a);
    LexemesFit(a);
    if n > |a| {
      if Lexemes(a) != [] {
        assert Lexemes(a)[0] in Lexemes(a);
        assert (Lexemes(a) + later)[0] == Lexemes(a)[0];
      } else {
        assert Lexemes(a) + later == later;
        SpanStartsWithCurrency(a, b);
        assert s[..n][0] == a[0];
      }
    } else {
      LexemeLocal(a, b);
      var k := if n > 0 then n else 1;
      Suffix(a, b, k);
      SpanDiffers(a[k..], b, later);
      if n > 0 {
        assert s[..n] == a[..n];
        SameHead(a[..n], Lexemes(a[n..] + " " + b), Lexemes(a[n..]), later);
      }
    }
  }

  lemma SameHead(x: string, joined: seq<string>, own: seq<string>, later: seq<string>)
    ensures [x] + joined == [x] + own + later ==> joined == own + later
  {
    assert [x] + own + later == [x] + (own + later);
    assert ([x] + joined)[1..] == joined && ([x] + (own + later))[1..] == own + later;
  }

  lemma {:induction false} SpacesHoldNothing(s: string)
    ensures Lexemes(s) == Lexemes(AfterSpaces(s))
  {
    hide LexemeLength;
    if s != [] && IsSpace(s[0]) {
      NothingAtSpace(s);
      LexemesUnfold(s);
      SpacesHoldNothing(s[1..]);
      assert s[1..][SpaceRun(s[1..])..] == s[SpaceRun(s)..];
    } else {
      assert s[0..] == s;
    }
  }

  lemma NothingAtSpace(s: string)
    requires s != [] && IsSpace(s[0])
    ensures LexemeLength(s) == 0
  {
    hide LeadLength, NumberLength, TrailLength, PercentLength, IsSpace;
    CurrenciesStartWithNoSpace();
    NoneLeads(s, CURRENCIES);
    assert s[0..] == s;
    NumberStarts(s);
    SpaceIsNoNumber(s[0]);
  }

  lemma SpaceIsNoNumber(c: char)
    ensures IsSpace(c) ==> !StartsNumber(c)
  {
  }

  lemma CurrenciesStartWithNoSpace()
    ensures forall word :: word in CURRENCIES ==> word != [] && !IsSpace(word[0])
  {
  }

  lemma {:induction false} NoneLeadsNumber(s: string, words: seq<string>)
    requires s != [] && StartsNumber(s[0])
    requires forall word :: word in words ==> word != [] && !StartsNumber(word[0])
    ensures LeadLength(s, words) == 0
  {
    if words != [] {
      assert words[0] in words;
      assert !Begins(s, words[0]);
      assert forall word :: word in words[1..] ==> word in words;
      NoneLeadsNumber(s, words[1..]);
    }
  }

  lemma NumberStarts(u: string)
    ensures NumberLength(u) > 0 ==> u != [] && StartsNumber(u[0])
  {
  }

  lemma NumberMatches(u: string)
    requires NumberLength(u) > 0
    ensures LexemeLength(u) > 0
  {
    hide LeadLength, NumberLength, TrailLength, PercentLength;
    NumberStarts(u);
    CurrenciesStartNoNumber();
    NoneLeadsNumber(u, CURRENCIES);
    assert u[0..] == u;
  }

  lemma CurrenciesStartNoNumber()
    ensures forall word :: word in CURRENCIES ==> word != [] && !StartsNumber(word[0])
  {
  }

  lemma NumberComesFirst(b: string)
    ensures Follows(Lexemes(b), b)
    ensures NumberLength(AfterSpaces(b)) > 0 ==> Lexemes(b) != []
  {
    hide NumberLength, LexemeLength, StartsNumber;
    SpacesHoldNothing(b);
    var u := AfterSpaces(b);
    NumberStarts(u);
    if NumberLength(u) > 0 {
      NumberMatches(u);
      LexemesUnfold(u);
    }
  }

  // ---- any number of texts ----

  function AllLexemes(texts: seq<string>): seq<string> {
    if texts == [] then [] else Lexemes(texts[0]) + AllLexemes(texts[1..])
  }

  /** No lexeme of the joined texts reaches over a seam. */
  predicate Seamless(texts: seq<string>) {
    |texts| <= 1 || (!Spans(texts[0], JoinSpaced(texts[1..])) && Seamless(texts[1..]))
  }

  lemma {:induction false} AllFollow(texts: seq<string>)
    ensures Follows(AllLexemes(texts), JoinSpaced(texts))
  {
    hide NumberLength, Lexemes, StartsNumber;
    if texts == [] {
    } else if |texts| == 1 {
      NumberComesFirst(texts[0]);
      assert Lexemes(texts[0]) + [] == Lexemes(texts[0]) && texts[1..] == [];
    } else {
      var first, rest := texts[0], JoinSpaced(texts[1..]);
      AllFollow(texts[1..]);
      SpaceRunLocal(first, rest);
      NumberComesFirst(first);
      if SpaceRun(first) < |first| {
        NumberLocal(AfterSpaces(first), rest);
      } else {
        SpacesHoldNothing(first);
        NoLexemes();
        assert AfterSpaces(first) == "" && [] + AllLexemes(texts[1..]) == AllLexemes(texts[1..]);
      }
    }
  }

  lemma NoLexemes()
    ensures Lexemes("") == []
  {
  }

  /** The joined texts have exactly the lexemes of the single texts, in order, iff no lexeme reaches
      over a seam. */
  lemma {:induction false} SeamlessExactly(texts: seq<string>)
    ensures Lexemes(JoinSpaced(texts)) == AllLexemes(texts) <==> Seamless(texts)
  {
    hide Lexemes, Spans, Follows;
    if texts == [] {
      NoLexemes();
    } else if |texts| == 1 {
      assert Lexemes(texts[0]) + [] == Lexemes(texts[0]) && texts[1..] == [];
    } else {
      var first, rest := texts[0], JoinSpaced(texts[1..]);
      SeamlessExactly(texts[1..]);
      if Spans(first, rest) {
        AllFollow(texts[1..]);
        SpanDiffers(first, rest, AllLexemes(texts[1..]));
      } else {
        SeamSeparates(first, rest);
        SameTail(Lexemes(first), Lexemes(rest), AllLexemes(texts[1..]));
      }
    }
  }

  lemma SameTail(own: seq<string>, x: seq<string>, y: seq<string>)
    ensures own + x == own + y <==> x == y
  {
    assert (own + x)[|own|..] == x && (own + y)[|own|..] == y;
  }

  // ---- a text that ends like a sentence ----

  /** No character with which anything that could reach over a seam ends. */
  predicate Closes(c: char) {
    !IsDigit(c) && !IsSpace(c) && !Letter(Fold(c)) && !Symbol(c)
  }

  lemma {:induction false} SpacesEndInSpace(s: string)
    requires s != [] && SpaceRun(s) == |s|
    ensures IsSpace(s[|s| - 1])
  {
    if |s| > 1 {
      SpacesEndInSpace(s[1..]);
    }
  }

  lemma {:induction false} GroupsEndInDigit(s: string)
    requires GroupsLength(s) > 0
    ensures IsDigit(s[GroupsLength(s) - 1])
  {
    hide DigitRun;
    var n := 1 + DigitRun(s[1..]);
    assert s[1..][..n - 1][n - 2] == s[n - 1];
    if GroupsLength(s[n..]) > 0 {
      GroupsEndInDigit(s[n..]);
    }
  }

  lemma NumberEndsInDigit(s: string)
    requires NumberLength(s) > 0
    ensures IsDigit(s[NumberLength(s) - 1])
  {
    hide DigitRun, GroupsLength;
    var sign := if s[0] == '-' then 1 else 0;
    var n := sign + DigitRun(s[sign..]);
    assert s[sign..][..n - sign][n - sign - 1] == s[n - 1];
    if GroupsLength(s[n..]) > 0 {
      GroupsEndInDigit(s[n..]);
    }
  }

  lemma CurrencyEnds(s: string, word: string)
    requires word in CURRENCIES && Begins(s, word)
    ensures word != [] && !Closes(s[|word| - 1])
  {
    CurrencyByEnding(word);
    hide CURRENCIES, Letter, Symbol, OfEnding, IsSpace;
    SymbolsDoNotFold(s[|word| - 1]);
  }

  lemma CurrencyTextEnds(s: string)
    requires IsCurrency(s, CURRENCIES)
    ensures s != [] && !Closes(s[|s| - 1])
  {
    hide CURRENCIES, Fold, Symbol, Letter, IsSpace;
    var word :| word in CURRENCIES && Begins(s, word) && SpaceRun(s[|word|..]) == |s| - |word|;
    CurrencyEnds(s, word);
    if |word| < |s| {
      SpacesEndInSpace(s[|word|..]);
    }
  }

  lemma {:induction false} FirstWordEnds(s: string, words: seq<string>)
    requires FirstWord(s, words) > 0
    ensures exists word :: word in words && Begins(s, word) && FirstWord(s, words) == |word|
  {
    hide Begins;
    if Begins(s, words[0]) {
      assert words[0] in words;
    } else {
      FirstWordEnds(s, words[1..]);
      var word :| word in words[1..] && Begins(s, word) && FirstWord(s, words[1..]) == |word|;
      assert word in words;
    }
  }

  lemma TrailEnds(s: string)
    requires TrailLength(s) > 0
    ensures !Closes(s[TrailLength(s) - 1])
  {
    hide CURRENCIES, Begins, FirstWord, Closes;
    var rest := AfterSpaces(s);
    FirstWordEnds(rest, CURRENCIES);
    var word :| word in CURRENCIES && Begins(rest, word) && FirstWord(rest, CURRENCIES) == |word|;
    CurrencyEnds(rest, word);
    assert rest[|word| - 1] == s[SpaceRun(s) + |word| - 1];
  }

  /** A lexeme that begins in a text with such an end does not reach over it. */
  lemma ClosedLocal(x: string, b: string)
    requires x != [] && Closes(x[|x| - 1])
    ensures LexemeLength(x + " " + b) <= |x|
  {
    hide LeadLength, NumberLength, TrailLength, PercentLength, CURRENCIES, SpaceRun, IsCurrency, Fold, IsSpace;
    var s := x + " " + b;
    CurrenciesAreSpaceFree();
    LeadLocal(x, b, CURRENCIES);
    var lead := LeadLength(s, CURRENCIES);
    if lead > |x| {
      CurrencyTextEnds(x);
    } else {
      Suffix(x, b, lead);
      NumberLocal(x[lead..], b);
      var number := NumberLength(x[lead..]);
      if number > 0 {
        NumberEndsInDigit(x[lead..]);
        ClosedAfterNumber(x[lead + number..], b);
        Suffix(x, b, lead + number);
      }
    }
  }

  lemma ClosedAfterNumber(u: string, b: string)
    requires u != [] && Closes(u[|u| - 1])
    ensures var s := u + " " + b;
      TrailLength(s) <= |u| && TrailLength(s) + PercentLength(s[TrailLength(s)..]) <= |u|
  {
    hide TrailLength, PercentLength, Closes;
    var s := u + " " + b;
    TrailLocal(u, b);
    SpacesDoNotClose(u);
    var trail := TrailLength(s);
    if trail > 0 {
      TrailEnds(u);
    }
    var rest := u[trail..];
    Suffix(u, b, trail);
    PercentLocal(rest, b);
    SpacesDoNotClose(rest);
  }

  lemma SpacesDoNotClose(s: string)
    requires s != [] && Closes(s[|s| - 1])
    ensures SpaceRun(s) < |s|
  {
    if SpaceRun(s) == |s| {
      SpacesEndInSpace(s);
    }
  }

  lemma {:induction false} ClosedSeparates(a: string, b: string)
    requires a == [] || Closes(a[|a| - 1])
    ensures !Spans(a, b)
    decreases |a|
  {
    hide Closes, LexemeLength;
    if a != [] {
      ClosedLocal(a, b);
      var n := LexemeLength(a + " " + b);
      ClosedSeparates(if n > 0 then a[n..] else a[1..], b);
    }
  }

  /** Texts that end like sentences have no lexeme over a seam. */
  lemma {:induction false} ClosedIsSeamless(texts: seq<string>)
    requires forall text :: text in texts ==> text == [] || Closes(text[|text| - 1])
    ensures Seamless(texts)
  {
    hide Spans, Closes;
    if |texts| > 1 {
      assert texts[0] in texts;
      ClosedSeparates(texts[0], JoinSpaced(texts[1..]));
      ClosedIsSeamless(texts[1..]);
    }
  }
}
