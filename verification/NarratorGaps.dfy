/** Inputs that show what the checks of `src/agents/narrator.ts` let through, refuse and leave out. The
    words of a text are a premise where they matter. */
module NarratorGaps {
  import opened NormalizedNumbers
  import opened NumberGaps
  import opened NumberLexemes
  import opened Narrator
  import opened Text

  // ---- a number made at a seam ----

  lemma {:induction false} NothingRemoved(pre: string, post: string)
    requires '[' !in pre
    ensures WithoutMarkers(pre + post) == pre + WithoutMarkers(post)
  {
    if pre == [] {
      assert pre + post == post;
    } else {
      assert (pre + post)[0] == pre[0];
      assert (pre + post)[1..] == pre[1..] + post;
      NothingRemoved(pre[1..], post);
    }
  }

  lemma MarkerRemoved(raw: string, post: string)
    requires raw != [] && AllDigits(raw)
    ensures WithoutMarkers(Marker(raw) + post) == WithoutMarkers(post)
  {
    MarkerMatches(raw, post);
  }

  /** A text cited to the first two memories. */
  function CiteBoth(text: string): string {
    text + " [1] [2]."
  }

  lemma BothFound(text: string)
    requires '[' !in text
    ensures FindMarkers(CiteBoth(text)) == ["1", "2"]
  {
    hide FindMarkers;
    var second := Marker("2") + ".";
    assert CiteBoth(text) == (text + " ") + (Marker("1") + (" " + second));
    MarkersAfter(text + " ", Marker("1") + (" " + second));
    MarkerFirst("1", " " + second);
    MarkersAfter(" ", second);
    MarkerFirst("2", ".");
    MarkersAfter(".", "");
    NoMarkers();
    assert "." + "" == ".";
  }

  lemma BothRemoved(text: string)
    requires '[' !in text
    ensures WithoutMarkers(CiteBoth(text)) == text + "  ."
  {
    EmptyText();
    hide WithoutMarkers;
    var second := Marker("2") + ".";
    assert CiteBoth(text) == (text + " ") + (Marker("1") + (" " + second));
    NothingRemoved(text + " ", Marker("1") + (" " + second));
    MarkerRemoved("1", " " + second);
    NothingRemoved(" ", second);
    MarkerRemoved("2", ".");
    NothingRemoved(".", "");
    assert "." + "" == "." && (text + " ") + (" " + ".") == text + "  .";
  }

  lemma BothAreCanonical()
    ensures Value("1") == 1 && Value("2") == 2 && CanonicalMarker("1", 2) && CanonicalMarker("2", 2)
  {
  }

  lemma BothAreUnique()
    ensures Unique(["1", "2"]) == ["1", "2"]
  {
    assert ["1", "2"][..1] == ["1"] && ["1"][..0] == [];
    assert Unique(["1"]) == ["1"];
  }

  lemma BothCited(claim: string, a: string, b: string)
    requires FindMarkers(claim) == ["1", "2"]
    ensures WellCited(claim, 2) && CitedEvidence(claim, [a, b]) == a + " " + b
  {
    hide FindMarkers, Value, Decimal, Unique, CanonicalMarker;
    BothAreCanonical();
    BothAreUnique();
    assert ["1", "2"][1..] == ["2"] && ["2"][1..] == [];
    assert ContentsOf([], [a, b]) == [] && ContentsOf(["2"], [a, b]) == [b];
    assert ContentsOf(["1", "2"], [a, b]) == [a, b];
    assert [a, b][1..] == [b] && JoinSpaced([b]) == b;
  }

  lemma BothIsOneClaim(text: string)
    requires Plain(text)
    ensures SplitClaims(CiteBoth(text)) == [CiteBoth(text)]
  {
    assert !IsSpace('.') && Calm(" [1] [2].");
    hide IsSpace;
    var claim := CiteBoth(text);
    CalmConcat(text, " [1] [2].");
    CutCalm(claim, false);
    assert claim[0] == text[0] && claim[|claim| - 1] == '.';
    NothingToTrim([claim]);
  }

  lemma VerdictOfBoth(text: string, a: string, b: string, lexicon: Lexicon)
    requires Plain(text)
    ensures ValidateGroundedAnswer(CiteBoth(text), [a, b], lexicon) ==
      if !(Numbers(text + "  .", lexicon.numeral) <= Numbers(a + " " + b, lexicon.numeral)) then
        Invalid(Checks(true, false, false))
      else if !SharesWords(lexicon.words(text + "  ."), lexicon.words(a + " " + b)) then
        Invalid(Checks(true, true, false))
      else
        Valid
    ensures Attributed(CiteBoth(text), [a, b], lexicon) ==>
      Numbers(text + "  .", lexicon.numeral) <= Numbers(a, lexicon.numeral) + Numbers(b, lexicon.numeral)
  {
    hide FindMarkers, WithoutMarkers, SplitClaims, Numbers, ClaimLike, CiteBoth, SharesWords, WellCited, CitedEvidence;
    var claim := CiteBoth(text);
    BothIsOneClaim(text);
    BothFound(text);
    BothRemoved(text);
    BothCited(claim, a, b);
    assert claim in SplitClaims(claim);
  }

  const MIXED := "Paid in EUR 500 staff"
  const PLAIN := "500 staff"

  lemma UnstoppedIsCalm(s: string)
    requires forall i :: 0 <= i < |s| ==> s[i] != '\n' && !IsTerminator(s[i])
    ensures Calm(s)
  {
  }

  lemma SeamTexts()
    ensures ClaimLike(MIXED) && !IsTerminator(MIXED[|MIXED| - 1]) && '[' !in MIXED
    ensures ClaimLike(PLAIN) && !IsTerminator(PLAIN[|PLAIN| - 1]) && '[' !in PLAIN
  {
    assert !IsSpace('P') && !IsSpace('5') && !IsSpace('f');
    hide IsSpace, Calm;
    UnstoppedIsCalm(MIXED);
    UnstoppedIsCalm(PLAIN);
  }

  lemma SeamSpellings()
    ensures CiteBoth(MIXED) == "Paid in EUR 500 staff [1] [2]." && CiteBoth(PLAIN) == "500 staff [1] [2]."
    ensures MIXED == "Paid in EUR" + " " + PLAIN && PLAIN == "500" + " staff"
    ensures MIXED + "  ." == "Paid in EUR 500 staff  ." == "Paid in EUR" + " " + ("500" + " staff  .")
    ensures PLAIN + "  ." == "500" + " staff  ."
  {
  }

  lemma SameWordsAreShared(words: set<string>)
    requires words != {}
    ensures SharesWords(words, words)
  {
    assert words * words == words;
  }

  /** Joining memories lets a number through that no memory has, and refuses one that a memory has. */
  lemma SeamMisleads(lexicon: Lexicon)
    requires lexicon.words("Paid in EUR 500 staff  .") == lexicon.words("Paid in EUR 500 staff") != {}
    ensures var memories := ["Paid in EUR", "500 staff"];
      && ValidateGroundedAnswer("Paid in EUR 500 staff [1] [2].", memories, lexicon) == Valid
      && !Attributed("Paid in EUR 500 staff [1] [2].", memories, lexicon)
      && ValidateGroundedAnswer("500 staff [1] [2].", memories, lexicon) == Invalid(Checks(true, false, false))
  {
    hide ValidateGroundedAnswer, Attributed, Numbers, SharesWords, ClaimLike, Ordinary, IsTerminator, CiteBoth;
    var a := "Paid in EUR";
    SeamTexts();
    SeamSpellings();
    VerdictOfBoth(MIXED, a, PLAIN, lexicon);
    VerdictOfBoth(PLAIN, a, PLAIN, lexicon);
    StaffIsOrdinary();
    SeamMakesNumber(" staff", lexicon.numeral);
    SeamMakesNumber(" staff  .", lexicon.numeral);
    SameWordsAreShared(lexicon.words(MIXED));
    assert |"EUR:" + lexicon.numeral("500")| > |lexicon.numeral("500")|;
  }

  lemma StaffIsOrdinary()
    ensures Ordinary(" staff") && Ordinary(" staff  .")
  {
  }

  // ---- a currency changed, and a memory left out ----

  /** A claim without its stop and without brackets. */
  predicate Plain(text: string) {
    ClaimLike(text) && !IsTerminator(text[|text| - 1]) && '[' !in text
  }

  lemma StoppedIsOneClaim(text: string, tail: string)
    requires Plain(text) && tail in [".", " [1]."]
    ensures SplitClaims(text + tail) == [text + tail]
  {
    assert !IsSpace('.') && Calm(".") && Calm(" [1].");
    hide IsSpace;
    var claim := text + tail;
    CalmConcat(text, tail);
    CutCalm(claim, false);
    assert claim[0] == text[0] && claim[|claim| - 1] == '.';
    NothingToTrim([claim]);
  }

  lemma StopComesOff(text: string)
    requires Plain(text)
    ensures Evidence(text + ".") == text
  {
    hide IsSpace;
    assert (text + ".")[..|text|] == text;
    assert DropTerminators(text) == text;
  }

  /** How a plain text is cited, and what the citation cites. */
  lemma CitedOnce(text: string)
    requires Plain(text)
    ensures FindMarkers(text + " [1].") == ["1"] && WithoutMarkers(text + " [1].") == text + " ."
    ensures FindMarkers(text) == []
  {
    EmptyText();
    hide FindMarkers, WithoutMarkers, MarkerAt, ClaimLike;
    MarkersAfter(text, "");
    NoMarkers();
    assert text + "" == text;
    assert (text + " ") + (Marker("1") + ".") == text + " [1]." && "." + "" == ".";
    MarkersAfter(text + " ", Marker("1") + ".");
    MarkerFirst("1", ".");
    MarkersAfter(".", "");
    NothingRemoved(text + " ", Marker("1") + ".");
    MarkerRemoved("1", ".");
    NothingRemoved(".", "");
  }

  lemma PlainIsRendered(text: string)
    requires Plain(text)
    ensures Cite(text + ".", 1) == text + " [1]."
  {
    hide Evidence, Plain;
    StopComesOff(text);
    assert Decimal(1) == "1";
  }

  lemma EmptyText()
    ensures WithoutMarkers("") == "" && SplitClaims(" ") == []
  {
    CutCalm(" ", false);
    assert " "[1..] == "" && TrimStart(" ") == "";
  }

  lemma OneRendered(text: string)
    requires Plain(text)
    ensures ExtractiveClaims([text + ".", " "]) == [text + " [1]."]
  {
    hide SplitClaims, Cite, Plain;
    EmptyText();
    StoppedIsOneClaim(text, ".");
    PlainIsRendered(text);
    var contents := [text + ".", " "];
    assert ExtractiveFrom(contents, 2) == [] && ExtractiveFrom(contents, 1) == [];
    assert CiteAll([text + "."], 1) == [text + " [1]."];
  }

  lemma OneRenderedIsValid(text: string, lexicon: Lexicon)
    requires Plain(text) && NoDigit(text) && lexicon.words(text + " .") == lexicon.words(text + ".") != {}
    ensures ValidateGroundedAnswer(text + " [1].", [text + ".", " "], lexicon) == Valid
  {
    hide SplitClaims, FindMarkers, WithoutMarkers, Lexemes, SharesWords, Plain, WellCited, CitedEvidence, Value;
    var answer, memories := text + " [1].", [text + ".", " "];
    StoppedIsOneClaim(text, " [1].");
    CitedOnce(text);
    assert Decimal(1) == "1";
    CitesOneMemory(answer, 0, memories);
    PlainHasNoNumbers(text);
    SameWordsAreShared(lexicon.words(text + "."));
    assert WordsShared(answer, memories, lexicon) && NumbersCovered(answer, memories, lexicon);
  }

  lemma PlainHasNoNumbers(text: string)
    requires NoDigit(text)
    ensures Lexemes(text + " .") == [] && Lexemes(text + ".") == []
  {
    NoDigitNoLexeme(text + " .");
    NoDigitNoLexeme(text + ".");
  }

  lemma NothingHostile(a: string, b: string)
    ensures ToCitations([a, b], (hit) => false) == [a, b]
  {
    assert [a, b][1..] == [b] && [b][1..] == [];
    assert ToCitations([b], (hit) => false) == [b];
  }

  /** A verified answer of the offline narrator that leaves a memory out. */
  lemma FakeOmitsBlank(text: string, lexicon: Lexicon)
    requires Plain(text) && NoDigit(text) && lexicon.words(text + " .") == lexicon.words(text + ".") != {}
    ensures var r := FakeNarrate([text + ".", " "], (hit) => false, lexicon);
      && r.status == Verified && r.answer == text + " [1]." && r.memories == [text + ".", " "]
      && !CitesAll(r.answer, |r.memories|)
  {
    hide ValidateGroundedAnswer, ExtractiveFrom, FindMarkers, ToCitations, Plain, NoMemory;
    NothingHostile(text + ".", " ");
    OneRendered(text);
    OneRenderedIsValid(text, lexicon);
    CitedOnce(text);
    assert Value("1") == 1;
    assert !Cites(text + " [1].", 2);
  }

  /** A claim may change the currency of the amount it cites. */
  lemma CurrencyMayChange(lexicon: Lexicon)
    requires lexicon.words("Paid 500 USD .") == lexicon.words("Paid 500 EUR.") != {}
    ensures ValidateGroundedAnswer("Paid 500 USD [1].", ["Paid 500 EUR."], lexicon) == Valid
  {
    hide SplitClaims, FindMarkers, WithoutMarkers, Numbers, SharesWords, WellCited, CitedEvidence, Value, ClaimLike;
    var text, memories := "Paid 500 USD", ["Paid 500 EUR."];
    assert text + " [1]." == "Paid 500 USD [1]." && text + " ." == "Paid 500 USD ." && Decimal(1) == "1";
    PaidIsPlain();
    StoppedIsOneClaim(text, " [1].");
    CitedOnce(text);
    CitesOneMemory("Paid 500 USD [1].", 0, memories);
    CurrenciesAreConfused(lexicon.numeral);
    SameWordsAreShared(lexicon.words("Paid 500 EUR."));
    assert WordsShared("Paid 500 USD [1].", memories, lexicon);
    assert NumbersCovered("Paid 500 USD [1].", memories, lexicon);
  }

  lemma PaidIsPlain()
    ensures Plain("Paid 500 USD")
  {
    assert !IsSpace('P') && !IsSpace('D');
    hide IsSpace, Calm;
    UnstoppedIsCalm("Paid 500 USD");
  }

  // ---- words of the claim that the memory does not have ----

  /** The verdict on one claim without numbers that cites one memory. */
  lemma PlainVerdict(text: string, memory: string, lexicon: Lexicon)
    requires Plain(text) && NoDigit(text)
    ensures var words, known := lexicon.words(text + " ."), lexicon.words(memory);
      ValidateGroundedAnswer(text + " [1].", [memory], lexicon) ==
        if |words| >= 1 && |words * known| >= 1 && (|words| >= 2 ==> |words * known| >= 2)
           && 5 * |words - known| <= |words|
        then Valid else Invalid(Checks(true, true, false))
  {
    hide SplitClaims, FindMarkers, WithoutMarkers, Lexemes, SharesWords, Plain, WellCited, CitedEvidence, Value;
    var answer := text + " [1].";
    StoppedIsOneClaim(text, " [1].");
    CitedOnce(text);
    assert Decimal(1) == "1";
    CitesOneMemory(answer, 0, [memory]);
    PlainHasNoNumbers(text);
    SharesWordsExactly(lexicon.words(text + " ."), lexicon.words(memory));
    assert WordsShared(answer, [memory], lexicon)
      <==> SharesWords(lexicon.words(text + " ."), lexicon.words(memory));
    assert NumbersCovered(answer, [memory], lexicon);
  }

  lemma PlainIfUnstopped(text: string)
    requires text != [] && !IsSpace(text[0]) && !IsSpace(text[|text| - 1])
    requires forall i :: 0 <= i < |text| ==> text[i] == ' ' || Letter(Fold(text[i]))
    ensures Plain(text) && NoDigit(text)
  {
    hide IsSpace, Calm;
    UnstoppedIsCalm(text);
  }

  /** Four known words of five are enough. */
  lemma FourOfFivePass(lexicon: Lexicon)
    requires lexicon.words("Invoice paid late again today .") == {"invoice", "paid", "late", "again", "today"}
    requires lexicon.words("Invoice paid late again.") == {"invoice", "paid", "late", "again"}
    ensures ValidateGroundedAnswer("Invoice paid late again today [1].", ["Invoice paid late again."], lexicon)
      == Valid
  {
    hide ValidateGroundedAnswer, Plain, Letter, Fold;
    var text := "Invoice paid late again today";
    assert text + " [1]." == "Invoice paid late again today [1]." && text + " ." == "Invoice paid late again today .";
    FourOfFiveText();
    PlainVerdict(text, "Invoice paid late again.", lexicon);
    FourOfFive();
  }

  lemma FourOfFiveText()
    ensures Plain("Invoice paid late again today") && NoDigit("Invoice paid late again today")
  {
    hide Plain, NoDigit;
    PlainIfUnstopped("Invoice paid late again today");
  }

  lemma FourOfFive()
    ensures var known := {"invoice", "paid", "late", "again"};
      var words := {"invoice", "paid", "late", "again", "today"};
      |words| == 5 && |words * known| == 4 && |words - known| == 1
  {
    var known := {"invoice", "paid", "late", "again"};
    var words := {"invoice", "paid", "late", "again", "today"};
    assert words == known + {"today"} && words * known == known && words - known == {"today"};
  }

  /** Three of four are not. */
  lemma ThreeOfFourFail(lexicon: Lexicon)
    requires lexicon.words("Invoice paid late today .") == {"invoice", "paid", "late", "today"}
    requires lexicon.words("Invoice paid late.") == {"invoice", "paid", "late"}
    ensures ValidateGroundedAnswer("Invoice paid late today [1].", ["Invoice paid late."], lexicon)
      == Invalid(Checks(true, true, false))
  {
    hide ValidateGroundedAnswer, Plain, Letter, Fold;
    var text := "Invoice paid late today";
    assert text + " [1]." == "Invoice paid late today [1]." && text + " ." == "Invoice paid late today .";
    ThreeOfFourText();
    PlainVerdict(text, "Invoice paid late.", lexicon);
    ThreeOfFour();
  }

  lemma ThreeOfFourText()
    ensures Plain("Invoice paid late today") && NoDigit("Invoice paid late today")
  {
    hide Plain, NoDigit;
    PlainIfUnstopped("Invoice paid late today");
  }

  lemma ThreeOfFour()
    ensures var known := {"invoice", "paid", "late"};
      var words := {"invoice", "paid", "late", "today"};
      |words| == 4 && |words - known| == 1
  {
    var known := {"invoice", "paid", "late"};
    assert {"invoice", "paid", "late", "today"} - known == {"today"};
  }

  /** Nor is a claim that has nothing of its memory, whatever the words are. */
  lemma UnrelatedClaimFails(lexicon: Lexicon)
    requires lexicon.words("Revenue collapsed .") * lexicon.words("Invoice paid on time.") == {}
    ensures ValidateGroundedAnswer("Revenue collapsed [1].", ["Invoice paid on time."], lexicon)
      == Invalid(Checks(true, true, false))
  {
    hide ValidateGroundedAnswer, Plain, Letter, Fold;
    assert "Revenue collapsed" + " [1]." == "Revenue collapsed [1].";
    assert "Revenue collapsed" + " ." == "Revenue collapsed .";
    UnrelatedText();
    PlainVerdict("Revenue collapsed", "Invoice paid on time.", lexicon);
  }

  lemma UnrelatedText()
    ensures Plain("Revenue collapsed") && NoDigit("Revenue collapsed")
  {
    hide Plain, NoDigit;
    PlainIfUnstopped("Revenue collapsed");
  }
}
