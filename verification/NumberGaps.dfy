/** Texts on which extractNumbers of `src/agents/narrator.ts` finds what one would not expect. */
module NumberGaps {
  import NumberSpelling
  import opened AmountNotations
  import opened NormalizedNumbers
  import opened NumberLexemes
  import opened Options
  import opened Text

  // ---- a number made by joining ----

  lemma OneSpace(t: string)
    requires t != [] && !IsSpace(t[0])
    ensures AfterSpaces(" " + t) == t
  {
    SpacesOff(" ", t);
  }

  /** Neither a number nor a currency begins where these two characters stand. */
  predicate Quiet(c: char, next: char) {
    !StartsNumber(c) && !Symbol(c) && Fold(next) !in ['u', 's', 'b', 'o']
  }

  lemma QuietBeginsNothing(s: string, word: string)
    requires |s| >= 2 && Quiet(s[0], s[1]) && word in CURRENCIES
    ensures !Begins(s, word)
  {
    CurrencyByStart(word);
    SymbolsDoNotFold(s[0]);
    hide CURRENCIES, Symbol;
  }

  lemma {:induction false} NothingLeads(s: string, words: seq<string>)
    requires forall word :: word in words ==> !Begins(s, word)
    ensures LeadLength(s, words) == 0
  {
    hide Begins;
    if words != [] {
      assert words[0] in words;
      assert forall word :: word in words[1..] ==> word in words;
      NothingLeads(s, words[1..]);
    }
  }

  lemma QuietHasNoLexeme(s: string)
    requires |s| >= 2 && Quiet(s[0], s[1])
    ensures LexemeLength(s) == 0
  {
    hide CURRENCIES, Begins, LeadLength, NumberLength, TrailLength, PercentLength, Fold, Symbol;
    forall word | word in CURRENCIES
      ensures !Begins(s, word)
    {
      QuietBeginsNothing(s, word);
    }
    NothingLeads(s, CURRENCIES);
    assert s[0..] == s;
    NumberStarts(s);
  }

  lemma {:induction false} QuietPrefix(pre: string, t: string)
    requires t != [] && forall i :: 0 <= i < |pre| ==> Quiet(pre[i], (pre + t)[i + 1])
    ensures Lexemes(pre + t) == Lexemes(t)
  {
    hide LexemeLength, Quiet;
    var s := pre + t;
    if pre == [] {
      assert s == t;
    } else {
      QuietHasNoLexeme(s);
      LexemesUnfold(s);
      assert s[1..] == pre[1..] + t;
      forall i | 0 <= i < |pre[1..]|
        ensures Quiet(pre[1..][i], (pre[1..] + t)[i + 1])
      {
        assert Quiet(pre[i + 1], s[i + 2]);
      }
      QuietPrefix(pre[1..], t);
    }
  }

  predicate NoDigit(s: string) {
    forall i :: 0 <= i < |s| ==> !IsDigit(s[i])
  }

  lemma {:induction false} NoDigitNoLexeme(s: string)
    requires NoDigit(s)
    ensures Lexemes(s) == []
  {
    hide LeadLength, NumberLength, TrailLength, PercentLength, CURRENCIES;
    if s != [] {
      var lead := LeadLength(s, CURRENCIES);
      NoDigitNoNumber(s[lead..]);
      LexemesUnfold(s);
      NoDigitNoLexeme(s[1..]);
    }
  }

  lemma NoDigitNoNumber(s: string)
    requires NoDigit(s)
    ensures NumberLength(s) == 0
  {
  }

  /** What follows a number without belonging to it. */
  predicate Ordinary(s: string) {
    |s| >= 3 && s[0] == ' ' && !IsSpace(s[1]) && Quiet(s[1], s[2]) && s[1] != '%' && NoDigit(s)
  }

  lemma OrdinaryAddsNothing(s: string)
    requires Ordinary(s)
    ensures TrailLength(s) == 0 && PercentLength(s) == 0 && Lexemes(s) == []
  {
    hide CURRENCIES, Begins, FirstWord, Fold, Symbol, Lexemes, IsSpace;
    NoDigitNoLexeme(s);
    OneSpace(s[1..]);
    assert s == " " + s[1..];
    forall word | word in CURRENCIES
      ensures !Begins(s[1..], word)
    {
      QuietBeginsNothing(s[1..], word);
    }
    NoneFirst(s[1..], CURRENCIES);
  }

  lemma {:induction false} NoneFirst(s: string, words: seq<string>)
    requires forall word :: word in words ==> !Begins(s, word)
    ensures FirstWord(s, words) == 0
  {
    hide Begins;
    if words != [] {
      assert words[0] in words;
      assert forall word :: word in words[1..] ==> word in words;
      NoneFirst(s, words[1..]);
    }
  }

  lemma FiveHundred(post: string)
    requires Ordinary(post)
    ensures NumberLength("500" + post) == 3 && Lexemes("500" + post) == ["500"]
  {
    hide LeadLength, TrailLength, PercentLength, Lexemes, Quiet, IsSpace, CURRENCIES;
    var s := "500" + post;
    NumberIs500(post);
    NumberMatches(s);
    CurrenciesStartNoNumber();
    NoneLeadsNumber(s, CURRENCIES);
    assert s[0..] == s && s[3..] == post && s[..3] == "500";
    OrdinaryAddsNothing(post);
    LexemesUnfold(s);
    assert ["500"] + [] == ["500"];
  }

  lemma NumberIs500(post: string)
    requires post != [] && post[0] == ' '
    ensures NumberLength("500" + post) == 3
  {
    var s := "500" + post;
    DigitRunOf("500", post);
    assert s[0..] == s && s[3..] == post;
  }

  lemma Euros500(post: string)
    requires Ordinary(post)
    ensures Lexemes("EUR 500" + post) == ["EUR 500"]
  {
    hide TrailLength, PercentLength, Lexemes, Quiet, NumberLength, LeadLength;
    var s := "EUR 500" + post;
    NumberIs500(post);
    EurosLead(s, "500" + post);
    assert s[4..] == "500" + post && s[7..] == post && s[..7] == "EUR 500";
    OrdinaryAddsNothing(post);
    LexemesUnfold(s);
    assert ["EUR 500"] + [] == ["EUR 500"];
  }

  lemma EurosLead(s: string, number: string)
    requires s == "EUR " + number && NumberLength(number) > 0
    ensures LeadLength(s, CURRENCIES) == 4
  {
    hide NumberLength, IsSpace;
    NumberStarts(number);
    NumbersAreNoSpace(number[0]);
    assert CURRENCIES[0] == "eur" && Begins(s, "eur");
    assert s[3..] == " " + number;
    OneSpace(number);
    assert SpaceRun(s[3..]) == 1 by {
      assert |AfterSpaces(s[3..])| == |number|;
    }
    assert Leads(s, "eur") && Reach(s, "eur") == 4;
  }

  lemma Plain500(numeral: string -> string)
    ensures NormalizeNumber("500", numeral) == numeral("500")
    ensures NormalizeNumber("EUR 500", numeral) == "EUR:" + numeral("500")
  {
    hide NormalizeNumber, NumberSpelling.Normalize, CURRENCIES;
    CodesAreCurrencies();
    NormalizesToItself();
    var alone := Notation(None, "500", None, None);
    assert Spelled(alone) == "500";
    Normalizes(alone, numeral);
    var euros := Notation(Some(Mention("EUR", "eur", " ")), "500", None, None);
    assert Spelled(euros) == "EUR 500";
    PrefixIsKept(euros, numeral);
  }

  lemma NormalizesToItself()
    ensures NumberSpelling.Normalize("500") == "500"
  {
    DigitRunOf("500", "");
    assert "500" + "" == "500";
  }

  /** Joining makes a number that neither text has, and loses the one that the second has. */
  lemma SeamMakesNumber(post: string, numeral: string -> string)
    requires Ordinary(post)
    ensures Numbers("Paid in EUR", numeral) == {} && Numbers("500" + post, numeral) == {numeral("500")}
    ensures Numbers("Paid in EUR" + " " + ("500" + post), numeral) == {"EUR:" + numeral("500")}
  {
    hide NormalizeNumber, Lexemes, Ordinary;
    Plain500(numeral);
    NoDigitNoLexeme("Paid in EUR");
    FiveHundred(post);
    Euros500(post);
    PaidIsQuiet("EUR 500" + post);
    assert "Paid in EUR" + " " + ("500" + post) == "Paid in " + ("EUR 500" + post);
  }

  lemma PaidIsQuiet(t: string)
    requires t != [] && t[0] == 'E'
    ensures Lexemes("Paid in " + t) == Lexemes(t)
  {
    hide Lexemes;
    QuietPrefix("Paid in ", t);
  }

  // ---- a lexeme over the seam that changes no number ----

  /** A digit or a percent sign is next, or nothing. */
  predicate NumericNext(s: string) {
    s == [] || IsDigit(s[0]) || s[0] == '%'
  }

  lemma NumericBeginsNothing(s: string)
    requires NumericNext(s)
    ensures FirstWord(s, CURRENCIES) == 0
  {
    if s == [] {
      NothingBegins(s);
    } else {
      forall word | word in CURRENCIES
        ensures !Begins(s, word)
      {
        CurrencyByStart(word);
        SymbolsAndLetters(s[0]);
      }
      hide CURRENCIES, Begins;
      NoneFirst(s, CURRENCIES);
    }
  }

  lemma FiveIsLexeme(post: string)
    requires (post == [] || post[0] in [' ', '%']) && NumericNext(AfterSpaces(post))
    ensures LexemeLength("5" + post) == 1 + PercentLength(post)
  {
    hide CURRENCIES, LeadLength, PercentLength, AfterSpaces, FirstWord;
    var s := "5" + post;
    CurrenciesStartNoNumber();
    NoneLeadsNumber(s, CURRENCIES);
    DigitRunOf("5", post);
    assert s[0..] == s && s[1..] == post && NumberLength(s) == 1;
    NumericBeginsNothing(AfterSpaces(post));
    assert TrailLength(post) == 0 && post[0..] == post;
  }

  lemma PercentStartsNothing(post: string)
    ensures Lexemes("%" + post) == Lexemes(post)
  {
    hide CURRENCIES, LeadLength, NumberLength, TrailLength, PercentLength, Lexemes;
    var s := "%" + post;
    forall word | word in CURRENCIES
      ensures !Begins(s, word)
    {
      NoPercent(s, word);
    }
    NothingLeads(s, CURRENCIES);
    assert s[0..] == s && s[1..] == post;
    NumberStarts(s);
    LexemesUnfold(s);
  }

  lemma NoPercent(s: string, word: string)
    requires s != [] && s[0] == '%' && word in CURRENCIES
    ensures !Begins(s, word)
  {
    CurrencyByStart(word);
    SymbolsAndLetters(s[0]);
  }

  lemma FiveAlone()
    ensures Lexemes("5") == ["5"] && Lexemes("% 5") == ["5"] && Lexemes("5% 5") == ["5%", "5"]
  {
    hide LexemeLength, Lexemes;
    NoLexemes();
    FiveIsLexeme("");
    assert "5" + "" == "5" && "5"[1..] == "" && "5"[..1] == "5";
    LexemesUnfold("5");
    SpaceStartsNothing("5");
    assert " " + "5" == " 5" && "%" + " 5" == "% 5";
    PercentStartsNothing(" 5");
    FivePercent(" 5");
    assert "5%" + " 5" == "5% 5" && ["5%"] + ["5"] == ["5%", "5"];
  }

  lemma FivePercent(post: string)
    requires post == [] || post[0] == ' '
    ensures Lexemes("5%" + post) == ["5%"] + Lexemes(post)
  {
    hide LexemeLength, Lexemes;
    var s := "5%" + post;
    assert s == "5" + ("%" + post);
    FiveIsLexeme("%" + post);
    assert s[2..] == post && s[..2] == "5%";
    LexemesUnfold(s);
  }

  lemma SpacedPercent()
    ensures AfterSpaces(" % 5") == "% 5" && PercentLength(" % 5") == 2
  {
    assert " % 5"[1..] == "% 5" && SpaceRun("% 5") == 0;
  }

  lemma FiveSpacedPercent()
    ensures LexemeLength("5 % 5") == 3 && Lexemes("5 % 5") == ["5 %", "5"]
  {
    hide Lexemes, LexemeLength, PercentLength, AfterSpaces;
    var s := "5 % 5";
    assert s == "5" + " % 5";
    SpacedPercent();
    FiveIsLexeme(" % 5");
    FiveAlone();
    SpaceStartsNothing("5");
    assert " " + "5" == " 5" && s[3..] == " 5" && s[..3] == "5 %";
    LexemesUnfold(s);
  }

  /** So a lexeme over the seam need not change the set of numbers, and the exact condition is one on
      the lexemes. */
  lemma SpanMayKeepNumbers(numeral: string -> string)
    ensures Spans("5% 5", "% 5")
    ensures Numbers("5% 5" + " " + "% 5", numeral) == Numbers("5% 5", numeral) + Numbers("% 5", numeral)
  {
    hide LexemeLength, Lexemes, NormalizeNumber;
    FiveAlone();
    FiveSpacedPercent();
    FivePercent(" 5 % 5");
    SpaceStartsNothing("5 % 5");
    assert "5%" + " 5 % 5" == "5% 5" + " " + "% 5" && " " + "5 % 5" == " 5 % 5";
    SpacedPercentIsPercent(numeral);
    FivePercentSpans();
  }

  lemma SpacedPercentIsPercent(numeral: string -> string)
    ensures NormalizeNumber("5 %", numeral) == NormalizeNumber("5%", numeral)
  {
    hide Compose, Dissect;
    assert "5 %"[..2] == "5 " && "5%"[..1] == "5";
    TrimKeeps("5 %");
    TrimKeeps("5%");
    TrimKeeps("5");
    assert "5" + " " == "5 ";
    TrimOff("5", " ");
  }

  lemma FivePercentSpans()
    ensures Spans("5% 5", "% 5")
  {
    hide LexemeLength;
    assert "5% 5" + " " + "% 5" == "5" + "% 5 % 5" && "5% 5"[2..] == " 5" && " 5"[1..] == "5";
    assert " 5" + " " + "% 5" == " " + "5 % 5" && "5" + " " + "% 5" == "5 % 5";
    FiveIsLexeme("% 5 % 5");
    SpaceStartsNothing("5 % 5");
    FiveSpacedPercent();
    assert Spans("5", "% 5") && Spans(" 5", "% 5");
  }

  // ---- one currency for another ----

  lemma {:induction false} FirstWordAt(s: string, words: seq<string>, i: nat)
    requires i < |words| && Begins(s, words[i]) && words[i] != []
    requires forall j :: 0 <= j < i ==> !Begins(s, words[j])
    ensures FirstWord(s, words) == |words[i]|
  {
    hide Begins;
    if i > 0 {
      FirstWordAt(s, words[1..], i - 1);
    }
  }

  /** What ends a lexeme after its currency. */
  predicate Stops(post: string) {
    post in [".", " ."]
  }

  lemma CurrencyTrails(code: string, post: string)
    requires code in ["EUR", "USD"] && Stops(post)
    ensures TrailLength(" " + code + post) == 4
  {
    hide FirstWord;
    var u := code + post;
    assert " " + code + post == " " + u && !IsSpace(u[0]);
    OneSpace(u);
    assert SpaceRun(" " + u) == 1 by {
      assert |AfterSpaces(" " + u)| == |u|;
    }
    assert CURRENCIES[0] == "eur" && CURRENCIES[1] == "usd";
    FirstWordAt(u, CURRENCIES, if code == "EUR" then 0 else 1);
  }

  lemma StopsHoldNothing(post: string)
    requires Stops(post)
    ensures PercentLength(post) == 0 && Lexemes(post) == []
  {
    NoDigitNoLexeme(post);
    assert SpaceRun(".") == 0 && " ."[1..] == ".";
    hide Lexemes;
  }

  lemma AmountIsLexeme(code: string, post: string)
    requires code in ["EUR", "USD"] && Stops(post)
    ensures Lexemes("500 " + code + post) == ["500 " + code]
  {
    hide LeadLength, TrailLength, PercentLength, Lexemes, CURRENCIES, NumberLength, Stops;
    var rest := " " + code + post;
    var s := "500" + rest;
    assert s == "500 " + code + post;
    NumberIs500(rest);
    CurrenciesStartNoNumber();
    NoneLeadsNumber(s, CURRENCIES);
    CurrencyTrails(code, post);
    StopsHoldNothing(post);
    assert s[0..] == s && s[3..] == rest && s[7..] == post && s[..7] == "500 " + code;
    LexemesUnfold(s);
    assert ["500 " + code] + [] == ["500 " + code];
  }

  /** An amount in one currency has the numbers of the same amount in another. */
  lemma CurrenciesAreConfused(numeral: string -> string)
    ensures Numbers("Paid 500 USD .", numeral) == Numbers("Paid 500 EUR.", numeral)
  {
    hide Lexemes, NormalizeNumber, CURRENCIES;
    AmountIsLexeme("USD", " .");
    AmountIsLexeme("EUR", ".");
    assert "Paid 500 USD ." == "Paid " + ("500 " + "USD" + " .") && "Paid 500 EUR." == "Paid " + ("500 " + "EUR" + ".");
    QuietPrefix("Paid ", "500 " + "USD" + " .");
    QuietPrefix("Paid ", "500 " + "EUR" + ".");
    DollarsForEuros(numeral);
  }

  lemma DollarsForEuros(numeral: string -> string)
    ensures NormalizeNumber("500 " + "USD", numeral) == NormalizeNumber("500 " + "EUR", numeral)
  {
    hide NormalizeNumber, NumberSpelling.Normalize, CURRENCIES, Iso;
    var dollars := Notation(None, "500", Some(Mention("USD", "usd", " ")), None);
    var euros := Notation(None, "500", Some(Mention("EUR", "eur", " ")), None);
    CodesAreCurrencies();
    DifferentCurrencies();
    assert Spelled(dollars) == "500 " + "USD" && Spelled(euros) == "500 " + "EUR";
    hide Spelled;
    ComparedExactly(dollars, euros, numeral);
  }

  lemma DifferentCurrencies()
    ensures Iso(Some("usd")) == "USD" && Iso(Some("eur")) == "EUR" && Iso(None) == ""
    ensures {"", "USD"} - {""} != {"", "EUR"} - {""}
  {
    assert "USD" in {"", "USD"} - {""} && "USD" !in {"", "EUR"} - {""};
  }

  lemma CodesAreCurrencies()
    ensures "eur" in CURRENCIES && "usd" in CURRENCIES && Spells("EUR", "eur") && Spells("USD", "usd")
    ensures BareNumber("500")
  {
    assert CURRENCIES[0] == "eur" && CURRENCIES[1] == "usd";
  }
}
