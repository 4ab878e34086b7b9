/** What the splitter of `scripts/apply-schema.ts` takes for a quotation, and that it leaves it whole. */
module SqlQuotes {
  import opened Options
  import opened SqlSplitter
  import opened Text

  /** The same pieces, with more in front of the first. */
  function Prefixed(x: string, lexed: Lexed): Lexed
    requires lexed.pieces != []
  {
    Lexed([x + lexed.pieces[0]] + lexed.pieces[1..], lexed.mode)
  }

  lemma PrefixedTwice(x: string, y: string, lexed: Lexed)
    requires lexed.pieces != []
    ensures Prefixed(x, Prefixed(y, lexed)) == Prefixed(x + y, lexed)
  {
    assert x + (y + lexed.pieces[0]) == (x + y) + lexed.pieces[0];
  }

  lemma OneToken(s: string, mode: Mode, n: nat, next: Mode)
    requires s != [] && (mode.Dollar? ==> mode.tag != [])
    requires NextToken(s, mode) == Token(n, next, false)
    ensures Lex(s, mode) == Prefixed(s[..n], Lex(s[n..], next))
  {
    hide NextToken;
    LexUnfolds(s, mode);
  }

  // ---- dollar quotes ----

  /** A dollar quote's tag: letters, digits and underscores, perhaps none, between dollar signs. */
  predicate IsTag(tag: string) {
    && |tag| >= 2 && tag[0] == '$' && tag[|tag| - 1] == '$'
    && forall i :: 1 <= i < |tag| - 1 ==>
         'A' <= tag[i] <= 'Z' || 'a' <= tag[i] <= 'z' || '0' <= tag[i] <= '9' || tag[i] == '_'
  }

  lemma {:induction false} TagRunOf(name: string, rest: string)
    requires forall i :: 0 <= i < |name| ==> TagChar(name[i])
    ensures TagRun(name + (['$'] + rest)) == |name|
  {
    if name == [] {
      assert name + (['$'] + rest) == ['$'] + rest;
    } else {
      assert (name + (['$'] + rest))[1..] == name[1..] + (['$'] + rest);
      TagRunOf(name[1..], rest);
    }
  }

  lemma TagIsFound(tag: string, rest: string)
    requires IsTag(tag)
    ensures DollarTag(tag + rest) == Some(tag)
  {
    var name, s := tag[1..|tag| - 1], tag + rest;
    assert s[1..] == name + (['$'] + rest);
    TagRunOf(name, rest);
    assert s[..|name| + 2] == tag;
  }

  /** The tag occurs for the first time at the end. */
  predicate EndsWithTag(body: string, tag: string) {
    forall i :: 0 <= i < |body| ==> !(tag <= (body + tag)[i..])
  }

  lemma {:induction false} DollarBody(body: string, tag: string, rest: string)
    requires tag != [] && EndsWithTag(body, tag)
    ensures Lex(body + tag + rest, Dollar(tag)) == Prefixed(body + tag, Lex(rest, Plain))
    decreases |body|
  {
    hide Lex;
    var s := body + tag + rest;
    if body == [] {
      assert s == tag + rest && s[..|tag|] == tag && s[|tag|..] == rest && [] + tag == tag;
      OneToken(s, Dollar(tag), |tag|, Plain);
    } else {
      assert !(tag <= (body + tag)[0..]);
      assert !(tag <= s) by {
        assert s[..|tag|] == (body + tag)[..|tag|];
      }
      OneToken(s, Dollar(tag), 1, Dollar(tag));
      assert s[1..] == body[1..] + tag + rest && s[..1] == body[..1];
      forall i | 0 <= i < |body[1..]|
        ensures !(tag <= (body[1..] + tag)[i..])
      {
        assert (body + tag)[i + 1..] == (body[1..] + tag)[i..];
      }
      DollarBody(body[1..], tag, rest);
      PrefixedTwice(body[..1], body[1..] + tag, Lex(rest, Plain));
      assert body[..1] + (body[1..] + tag) == body + tag;
    }
  }

  /** A dollar quote ends with the first repetition of its own tag and is never cut, whatever semicolons,
      quotes and other tags it has inside. */
  lemma DollarQuoteIsWhole(tag: string, body: string, rest: string)
    requires IsTag(tag) && EndsWithTag(body, tag)
    ensures Lex(tag + body + tag + rest, Plain) == Prefixed(tag + body + tag, Lex(rest, Plain))
  {
    hide Lex, IsTag, EndsWithTag, DollarTag;
    var s := tag + body + tag + rest;
    TagStarts(tag);
    TagIsFound(tag, body + tag + rest);
    assert s == tag + (body + tag + rest) && s[|tag|..] == body + tag + rest && s[..|tag|] == tag;
    OneToken(s, Plain, |tag|, Dollar(tag));
    DollarBody(body, tag, rest);
    PrefixedTwice(tag, body + tag, Lex(rest, Plain));
    assert tag + (body + tag) == tag + body + tag;
  }

  lemma TagStarts(tag: string)
    requires IsTag(tag)
    ensures |tag| >= 2 && tag[0] == '$'
  {
  }

  // ---- single and double quotes ----

  /** The quotation mark occurs in pairs only. */
  predicate Doubled(body: string, q: char) {
    || body == []
    || (body[0] != q && Doubled(body[1..], q))
    || (|body| > 1 && body[0] == body[1] == q && Doubled(body[2..], q))
  }

  function ModeOf(q: char): Mode {
    if q == '\'' then SingleQuoted else DoubleQuoted
  }

  lemma {:induction false} QuotedBody(body: string, q: char, rest: string)
    requires (q == '\'' || q == '"') && Doubled(body, q) && (rest == [] || rest[0] != q)
    ensures Lex(body + [q] + rest, ModeOf(q)) == Prefixed(body + [q], Lex(rest, Plain))
    decreases |body|
  {
    hide Lex;
    var s := body + [q] + rest;
    if body == [] {
      assert s == [q] + rest && s[..1] == [q] && s[1..] == rest && [] + [q] == [q];
      OneToken(s, ModeOf(q), 1, Plain);
    } else {
      var k := if body[0] == q then 2 else 1;
      assert s[0] == body[0] && (k == 2 ==> s[1] == body[1]);
      OneToken(s, ModeOf(q), k, ModeOf(q));
      assert s[k..] == body[k..] + [q] + rest && s[..k] == body[..k];
      QuotedBody(body[k..], q, rest);
      PrefixedTwice(body[..k], body[k..] + [q], Lex(rest, Plain));
      assert body[..k] + (body[k..] + [q]) == body + [q];
    }
  }

  /** A quotation ends with the first mark that is not doubled and is never cut. */
  lemma QuotationIsWhole(q: char, body: string, rest: string)
    requires (q == '\'' || q == '"') && Doubled(body, q) && (rest == [] || rest[0] != q)
    ensures Lex([q] + body + [q] + rest, Plain) == Prefixed([q] + body + [q], Lex(rest, Plain))
  {
    hide Lex, Doubled;
    var s := [q] + body + [q] + rest;
    assert s[1..] == body + [q] + rest && s[..1] == [q];
    OneToken(s, Plain, 1, ModeOf(q));
    QuotedBody(body, q, rest);
    PrefixedTwice([q], body + [q], Lex(rest, Plain));
    assert [q] + (body + [q]) == [q] + body + [q];
  }

  // ---- outside quotes ----

  /** Outside quotes a semicolon cuts. */
  lemma SemicolonCuts(rest: string)
    ensures Lex(";" + rest, Plain) == Lexed([""] + Lex(rest, Plain).pieces, Lex(rest, Plain).mode)
  {
    hide Lex;
    LexUnfolds(";" + rest, Plain);
    assert (";" + rest)[1..] == rest;
  }

  /** Anything that neither cuts nor opens a quote, a lone dollar sign among it, is kept. */
  lemma OtherIsKept(c: char, rest: string)
    requires c !in ['\'', '"', ';'] && (c == '$' ==> forall tag :: IsTag(tag) ==> !(tag <= [c] + rest))
    ensures Lex([c] + rest, Plain) == Prefixed([c], Lex(rest, Plain))
  {
    var s := [c] + rest;
    if c == '$' {
      FoundIsTag(s);
    }
    hide Lex, IsTag, DollarTag;
    assert s[1..] == rest && s[..1] == [c];
    NoTagWithoutDollar(s);
    OneToken(s, Plain, 1, Plain);
  }

  lemma NoTagWithoutDollar(s: string)
    ensures s != [] && s[0] != '$' ==> DollarTag(s) == None
  {
  }

  lemma FoundIsTag(s: string)
    ensures DollarTag(s).Some? ==> IsTag(DollarTag(s).value) && DollarTag(s).value <= s
  {
    if s != [] && s[0] == '$' {
      TagRunIsTagChars(s[1..]);
    }
  }

  // ---- what is thrown ----

  lemma {:induction false} OpenDollar(body: string, tag: string)
    requires tag != [] && forall i :: 0 <= i <= |body| ==> !(tag <= body[i..])
    ensures Lex(body, Dollar(tag)).mode == Dollar(tag)
    decreases |body|
  {
    hide Lex;
    LexUnfolds(body, Dollar(tag));
    if body != [] {
      assert !(tag <= body[0..]) && body[0..] == body;
      OneToken(body, Dollar(tag), 1, Dollar(tag));
      forall i | 0 <= i <= |body[1..]|
        ensures !(tag <= body[1..][i..])
      {
        assert body[i + 1..] == body[1..][i..];
      }
      OpenDollar(body[1..], tag);
    }
  }

  lemma {:induction false} OpenQuotation(body: string, q: char)
    requires (q == '\'' || q == '"') && Doubled(body, q)
    ensures Lex(body, ModeOf(q)).mode == ModeOf(q)
    decreases |body|
  {
    hide Lex;
    LexUnfolds(body, ModeOf(q));
    if body != [] {
      var k := if body[0] == q then 2 else 1;
      OneToken(body, ModeOf(q), k, ModeOf(q));
      OpenQuotation(body[k..], q);
    }
  }

  /** A quote that is not closed throws. */
  lemma OpenQuoteThrows(tag: string, body: string, q: char)
    ensures IsTag(tag) && (forall i :: 0 <= i <= |body| ==> !(tag <= body[i..])) ==>
      Split(tag + body) == UnterminatedQuote
    ensures (q == '\'' || q == '"') && Doubled(body, q) ==> Split([q] + body) == UnterminatedQuote
  {
    hide Lex, IsTag, DollarTag, Doubled;
    if IsTag(tag) && forall i :: 0 <= i <= |body| ==> !(tag <= body[i..]) {
      TagStarts(tag);
      TagIsFound(tag, body);
      assert (tag + body)[|tag|..] == body;
      OneToken(tag + body, Plain, |tag|, Dollar(tag));
      OpenDollar(body, tag);
    }
    if (q == '\'' || q == '"') && Doubled(body, q) {
      assert ([q] + body)[1..] == body;
      OneToken([q] + body, Plain, 1, ModeOf(q));
      OpenQuotation(body, q);
    }
  }
}
