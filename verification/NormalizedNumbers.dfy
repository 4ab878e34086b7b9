/** normalizeNumber and extractNumbers of `src/agents/narrator.ts`: the numbers a text contains, with
    their currencies and percent signs. */
module NormalizedNumbers {
  import NumberSpelling
  import opened NumberLexemes
  import opened Options
  import opened Text

  // ---- normalizeNumber ----

  predicate Ends(s: string, word: string) {
    |word| <= |s| && Begins(s[|s| - |word|..], word)
  }

  function FirstCurrency(s: string, words: seq<string>): (r: Option<string>)
    ensures r.Some? ==> |r.value| <= |s|
  {
    if words == [] then None else if Begins(s, words[0]) then Some(words[0]) else FirstCurrency(s, words[1..])
  }

  function LastCurrency(s: string, words: seq<string>): (r: Option<string>)
    ensures r.Some? ==> |r.value| <= |s|
  {
    if words == [] then None else if Ends(s, words[0]) then Some(words[0]) else LastCurrency(s, words[1..])
  }

  /** canonicalCurrency, on what the patterns capture. */
  function Iso(word: Option<string>): string {
    if word.None? then ""
    else if word.value in ["€", "eur", "euro", "euros"] then "EUR"
    else if word.value in ["$", "usd", "dollar", "dollars"] then "USD"
    else if word.value in ["£", "gbp", "pound", "pounds"] then "GBP"
    else ""
  }

  /** The currency in front of the digits. `prefixCurrency ?? suffixCurrency` is the first of them even
      when it is the empty string. */
  function CurrencyMark(prefix: string, suffix: string): string {
    if prefix != "" && suffix != "" && prefix != suffix then prefix + "/" + suffix + ":"
    else if prefix != "" || suffix != "" then prefix + ":"
    else ""
  }

  /** An amount without percent sign: its currencies, as they were captured, and what is left. */
  datatype Parts = Parts(prefix: Option<string>, suffix: Option<string>, bare: string)

  function Dissect(amount: string): Parts {
    var prefix := FirstCurrency(amount, CURRENCIES);
    var unprefixed := if prefix.Some? then AfterSpaces(amount[|prefix.value|..]) else amount;
    var suffix := LastCurrency(unprefixed, CURRENCIES);
    Parts(prefix, suffix, if suffix.Some? then Trim(unprefixed[..|unprefixed| - |suffix.value|]) else unprefixed)
  }

  function Compose(parts: Parts, numeral: string -> string): string {
    CurrencyMark(Iso(parts.prefix), Iso(parts.suffix)) + numeral(NumberSpelling.Normalize(parts.bare))
  }

  /** `numeral` stands for Number(...).toString(), or for the spelling itself where that is not finite. */
  function NormalizeNumber(value: string, numeral: string -> string): string {
    var raw := Trim(value);
    if raw != [] && raw[|raw| - 1] == '%' then Compose(Dissect(Trim(raw[..|raw| - 1])), numeral) + "%"
    else Compose(Dissect(raw), numeral)
  }

  /** extractNumbers, as the set the validator makes of it. */
  function Numbers(text: string, numeral: string -> string): set<string> {
    set lexeme | lexeme in Lexemes(text) :: NormalizeNumber(lexeme, numeral)
  }

  lemma {:induction false} InAllLexemes(texts: seq<string>, lexeme: string)
    ensures lexeme in AllLexemes(texts) <==> exists text :: text in texts && lexeme in Lexemes(text)
  {
    hide Lexemes;
    if texts != [] {
      InAllLexemes(texts[1..], lexeme);
      assert texts[0] in texts;
      assert forall text :: text in texts <==> text == texts[0] || text in texts[1..];
    }
  }

  /** A number of one of the texts by itself. */
  predicate InOne(x: string, texts: seq<string>, numeral: string -> string) {
    exists text :: text in texts && x in Numbers(text, numeral)
  }

  /** Where no lexeme reaches over a seam, the joined texts have exactly the numbers of the single ones. */
  lemma NumbersOfJoin(texts: seq<string>, numeral: string -> string)
    requires Seamless(texts)
    ensures forall x :: x in Numbers(JoinSpaced(texts), numeral) <==> InOne(x, texts, numeral)
  {
    hide Lexemes, NormalizeNumber, Seamless, JoinSpaced;
    SeamlessExactly(texts);
    forall x
      ensures x in Numbers(JoinSpaced(texts), numeral) <==> InOne(x, texts, numeral)
    {
      if x in Numbers(JoinSpaced(texts), numeral) {
        var lexeme :| lexeme in Lexemes(JoinSpaced(texts)) && NormalizeNumber(lexeme, numeral) == x;
        InAllLexemes(texts, lexeme);
        var text :| text in texts && lexeme in Lexemes(text);
        assert x in Numbers(text, numeral);
      }
      if text :| text in texts && x in Numbers(text, numeral) {
        var lexeme :| lexeme in Lexemes(text) && NormalizeNumber(lexeme, numeral) == x;
        InAllLexemes(texts, lexeme);
      }
    }
  }
}
