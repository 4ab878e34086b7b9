/** The grounded answers of `src/agents/narrator.ts`: splitting a text into claims, rendering the
    recalled memories as cited claims, the validator, and both narrators. How Number prints a numeral
    and which words of a text are significant is left to a Lexicon. */
module Narrator {
  import opened NormalizedNumbers
  import opened NumberLexemes
  import opened Options
  import opened Text

  predicate IsTerminator(c: char) {
    c == '.' || c == '!' || c == '?'
  }

  function NewlineRun(s: string): (n: nat)
    ensures n <= |s| && (s != [] && s[0] == '\n' ==> n > 0)
  {
    if s != [] && s[0] == '\n' then 1 + NewlineRun(s[1..]) else 0
  }

  /** The pieces between matches of `(?<=[.!?])\s+|\n+`; `stopped` says that the character before is
      a terminator. */
  function Cut(s: string, stopped: bool): (pieces: seq<string>)
    ensures pieces != []
    decreases |s|
  {
    if s == [] then [""]
    else if stopped && IsSpace(s[0]) then [""] + Cut(s[SpaceRun(s)..], false)
    else if s[0] == '\n' then [""] + Cut(s[NewlineRun(s)..], false)
    else
      var rest := Cut(s[1..], IsTerminator(s[0]));
      [[s[0]] + rest[0]] + rest[1..]
  }

  /** splitClaims */
  function SplitClaims(answer: string): seq<string> {
    TrimmedNonEmpty(Cut(answer, false))
  }

  /** No newline, and no terminator followed by white space: nothing to cut. */
  predicate Calm(s: string) {
    forall i :: 0 <= i < |s| ==>
      s[i] != '\n' && (i + 1 < |s| && IsTerminator(s[i]) ==> !IsSpace(s[i + 1]))
  }

  /** What a claim looks like: calm, trimmed and not empty. */
  predicate ClaimLike(s: string) {
    s != [] && Calm(s) && !IsSpace(s[0]) && !IsSpace(s[|s| - 1])
  }

  lemma {:induction false} CutIsCalm(s: string, stopped: bool)
    ensures forall i :: 0 <= i < |Cut(s, stopped)| ==> Calm(Cut(s, stopped)[i])
    ensures stopped && Cut(s, stopped)[0] != [] ==> !IsSpace(Cut(s, stopped)[0][0])
    decreases |s|
  {
    if s == [] {
    } else if stopped && IsSpace(s[0]) {
      CutIsCalm(s[SpaceRun(s)..], false);
    } else if s[0] == '\n' {
      CutIsCalm(s[NewlineRun(s)..], false);
    } else {
      CutIsCalm(s[1..], IsTerminator(s[0]));
      var rest := Cut(s[1..], IsTerminator(s[0]));
      CalmCons(s[0], rest[0]);
      assert rest[0] in rest;
    }
  }

  lemma CalmCons(c: char, s: string)
    requires Calm(s) && c != '\n' && (IsTerminator(c) && s != [] ==> !IsSpace(s[0]))
    ensures Calm([c] + s)
  {
    forall i | 0 <= i < |[c] + s|
      ensures ([c] + s)[i] != '\n'
      ensures i + 1 < |[c] + s| && IsTerminator(([c] + s)[i]) ==> !IsSpace(([c] + s)[i + 1])
    {
      if i > 0 {
        assert ([c] + s)[i] == s[i - 1];
      }
    }
  }

  lemma {:induction false} TrimStartIsCalm(s: string)
    requires Calm(s)
    ensures Calm(TrimStart(s))
  {
    if s != [] && IsSpace(s[0]) {
      assert Calm(s[1..]);
      hide Calm;
      TrimStartIsCalm(s[1..]);
    }
  }

  lemma PrefixIsCalm(s: string, prefix: string)
    requires Calm(s) && prefix <= s
    ensures Calm(prefix)
  {
  }

  lemma TrimmedIsClaimLike(s: string)
    requires Calm(s) && Trim(s) != []
    ensures ClaimLike(Trim(s))
  {
    hide TrimStart, TrimEnd, IsSpace, Calm;
    TrimStartIsCalm(s);
    TrimStartClears(s);
    TrimEndClears(TrimStart(s));
    PrefixIsCalm(TrimStart(s), Trim(s));
    assert Trim(s)[0] == TrimStart(s)[0];
  }

  lemma {:induction false} TrimmedAreClaimLike(pieces: seq<string>)
    requires forall i :: 0 <= i < |pieces| ==> Calm(pieces[i])
    ensures forall c :: c in TrimmedNonEmpty(pieces) ==> ClaimLike(c)
  {
    hide ClaimLike, Calm, Trim;
    if pieces != [] {
      TrimmedAreClaimLike(pieces[1..]);
      if Trim(pieces[0]) != [] {
        TrimmedIsClaimLike(pieces[0]);
      }
    }
  }

  lemma ClaimsAreClaimLike(answer: string)
    ensures forall c :: c in SplitClaims(answer) ==> ClaimLike(c)
  {
    CutIsCalm(answer, false);
    TrimmedAreClaimLike(Cut(answer, false));
  }

  // ---- the extractive rendering ----

  /** `claim.replace(/[.!?]+$/u, "")` */
  function DropTerminators(s: string): string {
    if s != [] && IsTerminator(s[|s| - 1]) then DropTerminators(s[..|s| - 1]) else s
  }

  function Evidence(claim: string): string {
    Trim(DropTerminators(claim))
  }

  function Cite(claim: string, index: nat): string {
    Evidence(claim) + " [" + Decimal(index) + "]."
  }

  function CiteAll(claims: seq<string>, index: nat): seq<string> {
    if claims == [] then [] else [Cite(claims[0], index)] + CiteAll(claims[1..], index)
  }

  /** One cited claim for every claim of every memory, in order; memory k is cited as k + 1. */
  function ExtractiveFrom(contents: seq<string>, k: nat): seq<string>
    decreases |contents| - k
  {
    if k >= |contents| then [] else CiteAll(SplitClaims(contents[k]), k + 1) + ExtractiveFrom(contents, k + 1)
  }

  function ExtractiveClaims(contents: seq<string>): seq<string> {
    ExtractiveFrom(contents, 0)
  }

  /** A claim that ends with a terminator. */
  predicate Sentence(s: string) {
    ClaimLike(s) && IsTerminator(s[|s| - 1])
  }

  lemma {:induction false} DropTerminatorsClears(s: string)
    ensures DropTerminators(s) <= s
    ensures DropTerminators(s) == [] || !IsTerminator(DropTerminators(s)[|DropTerminators(s)| - 1])
  {
    if s != [] && IsTerminator(s[|s| - 1]) {
      DropTerminatorsClears(s[..|s| - 1]);
    }
  }

  /** Evidence is a prefix of its claim that ends in neither white space nor a terminator. */
  lemma EvidenceIsPrefix(claim: string)
    requires ClaimLike(claim)
    ensures Evidence(claim) <= claim
    ensures var e := Evidence(claim);
      e != [] ==> !IsSpace(e[0]) && !IsSpace(e[|e| - 1]) && !IsTerminator(e[|e| - 1])
  {
    var d := DropTerminators(claim);
    DropTerminatorsClears(claim);
    assert TrimStart(d) == d;
    TrimEndClears(d);
    var e := Evidence(claim);
    hide DropTerminators, TrimEnd, IsSpace;
    if e != [] && |e| < |d| {
      TrimEndDrops(d);
      assert claim[|e|] == d[|e|];
      assert claim[|e| - 1] == e[|e| - 1];
    }
  }

  lemma {:induction false} TrimEndDrops(s: string)
    ensures TrimEnd(s) <= s && forall i :: |TrimEnd(s)| <= i < |s| ==> IsSpace(s[i])
  {
    if s != [] && IsSpace(s[|s| - 1]) {
      TrimEndDrops(s[..|s| - 1]);
    }
  }

  lemma CalmConcat(a: string, b: string)
    requires Calm(a) && Calm(b) && (a != [] && b != [] && IsTerminator(a[|a| - 1]) ==> !IsSpace(b[0]))
    ensures Calm(a + b)
  {
    forall i | 0 <= i < |a + b|
      ensures (a + b)[i] != '\n'
      ensures i + 1 < |a + b| && IsTerminator((a + b)[i]) ==> !IsSpace((a + b)[i + 1])
    {
      if i >= |a| {
        assert (a + b)[i] == b[i - |a|];
      } else if i + 1 < |a| {
        assert (a + b)[i] == a[i];
      }
    }
  }

  lemma {:induction false} DecimalIsDigits(n: nat)
    ensures Decimal(n) != [] && AllDigits(Decimal(n))
  {
    if n >= 10 {
      DecimalIsDigits(n / 10);
    }
  }

  lemma MarkIsCalm(index: nat)
    ensures Calm(" [" + Decimal(index) + "].")
  {
    DecimalIsDigits(index);
    var mark := " [" + Decimal(index) + "].";
    hide Decimal;
    forall i | 0 <= i < |mark|
      ensures mark[i] != '\n'
      ensures i + 1 < |mark| ==> !IsTerminator(mark[i])
    {
      if 2 <= i < |mark| - 2 {
        assert mark[i] == Decimal(index)[i - 2];
        assert IsDigit(mark[i]);
      }
    }
  }

  lemma CiteIsSentence(claim: string, index: nat)
    requires ClaimLike(claim) && Evidence(claim) != []
    ensures Sentence(Cite(claim, index))
  {
    var e, mark := Evidence(claim), " [" + Decimal(index) + "].";
    EvidenceIsPrefix(claim);
    MarkIsCalm(index);
    assert Calm(e);
    assert Cite(claim, index) == e + mark;
    hide Evidence, Decimal, Cite;
    CalmConcat(e, mark);
    hide Calm;
  }

  lemma {:induction false} CutSentence(s: string, gap: string, rest: string, stopped: bool)
    requires s != [] && Calm(s) && IsTerminator(s[|s| - 1]) && (stopped ==> !IsSpace(s[0]))
    requires gap != [] && IsSpace(gap[0]) && SpaceRun(gap + rest) == |gap|
    ensures Cut(s + gap + rest, stopped) == [s] + Cut(rest, false)
    decreases |s|
  {
    assert (s + gap + rest)[1..] == s[1..] + gap + rest;
    if |s| == 1 {
      assert s[1..] + gap + rest == gap + rest;
      assert (gap + rest)[|gap|..] == rest;
      assert s == [s[0]] + "";
    } else {
      assert Calm(s[1..]);
      CutSentence(s[1..], gap, rest, IsTerminator(s[0]));
      assert s == [s[0]] + s[1..];
    }
  }

  lemma {:induction false} CutCalm(s: string, stopped: bool)
    requires Calm(s) && (stopped && s != [] ==> !IsSpace(s[0]))
    ensures Cut(s, stopped) == [s]
    decreases |s|
  {
    if s != [] {
      assert Calm(s[1..]);
      CutCalm(s[1..], IsTerminator(s[0]));
      assert s == [s[0]] + s[1..];
    }
  }

  /** A sentence with at most one space before it: what citing an empty evidence gives. */
  predicate Padded(s: string) {
    Sentence(TrimStart(s)) && (s == TrimStart(s) || s == " " + TrimStart(s))
  }

  function Unpadded(claims: seq<string>): seq<string> {
    if claims == [] then [] else [TrimStart(claims[0])] + Unpadded(claims[1..])
  }

  function Gap(s: string): nat {
    if s != [] && s[0] == ' ' then 1 else 0
  }

  /** After at most one space, something that is not white space. */
  predicate Starts(s: string) {
    Gap(s) < |s| && !IsSpace(s[Gap(s)])
  }

  lemma GapsAdd(later: string)
    requires Starts(later)
    ensures var gap := " " + later[..Gap(later)];
      SpaceRun(gap + later[Gap(later)..]) == |gap| && gap + later[Gap(later)..] == " " + later
  {
    var gap, rest := " " + later[..Gap(later)], later[Gap(later)..];
    assert gap + rest == " " + later;
    assert (" " + later)[1..] == later;
    assert SpaceRun(rest) == 0;
    if Gap(later) == 1 {
      assert later[1..] == rest;
    } else {
      assert later == rest;
    }
    assert SpaceRun(later) == Gap(later);
  }

  lemma PaddedStarts(claim: string, tail: string)
    requires Padded(claim)
    ensures var core := TrimStart(claim);
      Starts(claim + tail) && (claim + tail)[Gap(claim + tail)..] == core + tail
  {
    var core := TrimStart(claim);
    if claim != core {
      assert (claim + tail)[1..] == core + tail;
    }
  }

  lemma Regroup(a: string, b: string, c: string)
    ensures a + b + c == a + (b + c)
  {
  }

  lemma CutStep(claim: string, later: string)
    requires Padded(claim) && Starts(later)
    ensures var joined := claim + " " + later;
      && Starts(joined)
      && Cut(joined[Gap(joined)..], false) == [TrimStart(claim)] + Cut(later[Gap(later)..], false)
  {
    var core, gap, rest := TrimStart(claim), " " + later[..Gap(later)], later[Gap(later)..];
    hide Starts, Cut, TrimStart, Gap, SpaceRun, Calm;
    GapsAdd(later);
    PaddedStarts(claim, " " + later);
    Regroup(claim, " ", later);
    Regroup(core, gap, rest);
    CutSentence(core, gap, rest, false);
  }

  lemma {:induction false} CutJoin(claims: seq<string>)
    requires claims != [] && forall c :: c in claims ==> Padded(c)
    ensures var joined := JoinSpaced(claims);
      Starts(joined) && Cut(joined[Gap(joined)..], false) == Unpadded(claims)
  {
    hide Cut, Calm, TrimStart, Starts, Gap, Padded;
    assert claims[0] in claims;
    if |claims| == 1 {
      PaddedStarts(claims[0], "");
      assert claims[0] + "" == claims[0] && TrimStart(claims[0]) + "" == TrimStart(claims[0]);
      PaddedIsCalm(claims[0]);
    } else {
      CutJoin(claims[1..]);
      CutStep(claims[0], JoinSpaced(claims[1..]));
    }
  }

  lemma PaddedIsCalm(claim: string)
    requires Padded(claim)
    ensures Cut(TrimStart(claim), false) == [TrimStart(claim)]
  {
    CutCalm(TrimStart(claim), false);
  }

  lemma {:induction false} NothingToTrim(claims: seq<string>)
    requires forall c :: c in claims ==> ClaimLike(c)
    ensures TrimmedNonEmpty(claims) == claims
  {
    if claims != [] {
      assert claims[0] in claims;
      assert TrimStart(claims[0]) == claims[0] && TrimEnd(claims[0]) == claims[0];
      NothingToTrim(claims[1..]);
      assert claims == [claims[0]] + claims[1..];
    }
  }

  lemma {:induction false} UnpaddedAreSentences(claims: seq<string>)
    requires forall c :: c in claims ==> Padded(c)
    ensures forall c :: c in Unpadded(claims) ==> Sentence(c)
    ensures |Unpadded(claims)| == |claims|
  {
    hide Sentence, TrimStart;
    if claims != [] {
      assert claims[0] in claims;
      UnpaddedAreSentences(claims[1..]);
    }
  }

  lemma SpaceInFront(s: string)
    requires TrimmedNonEmpty(Cut(s, false)) == Cut(s, false)
    ensures TrimmedNonEmpty(Cut(" " + s, false)) == Cut(s, false)
  {
    var pieces := Cut(s, false);
    assert (" " + s)[1..] == s;
    assert Cut(" " + s, false) == [[' '] + pieces[0]] + pieces[1..];
    assert ([' '] + pieces[0])[1..] == pieces[0];
    assert TrimStart([' '] + pieces[0]) == TrimStart(pieces[0]);
    hide Cut, TrimStart;
  }

  /** Padded sentences joined with spaces split into the sentences. */
  lemma SplitUndoesJoin(claims: seq<string>)
    requires forall c :: c in claims ==> Padded(c)
    ensures SplitClaims(JoinSpaced(claims)) == Unpadded(claims)
  {
    if claims == [] {
      assert Trim("") == "";
    } else {
      CutJoin(claims);
      UnpaddedAreSentences(claims);
      var joined := JoinSpaced(claims);
      hide Cut, JoinSpaced, Calm, Padded;
      NothingToTrim(Unpadded(claims));
      if Gap(joined) == 1 {
        assert joined == " " + joined[1..];
        SpaceInFront(joined[1..]);
      } else {
        assert joined[0..] == joined;
      }
    }
  }

  // ---- citation markers ----

  /** How many digits `\[(\d+)\]` captures at the start of the text; none if it does not match. */
  function MarkerAt(s: string): (n: nat)
    ensures n > 0 ==> n + 2 <= |s|
  {
    if s == [] || s[0] != '[' then 0
    else
      var n := DigitRun(s[1..]);
      if n > 0 && n + 1 < |s| && s[n + 1] == ']' then n else 0
  }

  /** The captures of all matches, left to right. */
  function FindMarkers(s: string): seq<string>
    decreases |s|
  {
    if s == [] then []
    else
      var n := MarkerAt(s);
      if n > 0 then [s[1..n + 1]] + FindMarkers(s[n + 2..]) else FindMarkers(s[1..])
  }

  /** `claim.replace(/\[\d+\]/gu, "")` */
  function WithoutMarkers(s: string): string
    decreases |s|
  {
    if s == [] then ""
    else
      var n := MarkerAt(s);
      if n > 0 then WithoutMarkers(s[n + 2..]) else [s[0]] + WithoutMarkers(s[1..])
  }

  function Marker(raw: string): string {
    "[" + raw + "]"
  }

  lemma MarkerMatches(raw: string, post: string)
    requires raw != [] && AllDigits(raw)
    ensures var s := Marker(raw) + post;
      MarkerAt(s) == |raw| && s[1..|raw| + 1] == raw && s[|raw| + 2..] == post
  {
    var s := Marker(raw) + post;
    assert s[1..] == raw + ("]" + post);
    DigitRunOf(raw, "]" + post);
  }

  /** A match that starts before a marker ends before it. */
  lemma MatchEndsBefore(pre: string, marked: string)
    requires pre != [] && marked != [] && marked[0] == '['
    ensures MarkerAt(pre + marked) > 0 ==> MarkerAt(pre + marked) + 2 <= |pre|
  {
    var n := MarkerAt(pre + marked);
    if n > 0 && |pre| <= n + 1 {
      NoMarkerInside(pre + marked, |pre|);
    }
  }

  lemma NoMarkerInside(s: string, i: nat)
    requires MarkerAt(s) > 0 && 1 <= i <= MarkerAt(s) + 1
    ensures s[i] != '['
  {
    var n := MarkerAt(s);
    if i <= n {
      assert s[1..][..n][i - 1] == s[i];
    }
  }

  /** A marker anywhere in a text is found. */
  lemma {:induction false} MarkerIsFound(pre: string, raw: string, post: string)
    requires raw != [] && AllDigits(raw)
    ensures raw in FindMarkers(pre + Marker(raw) + post)
    decreases |pre|
  {
    hide MarkerAt;
    var s := pre + Marker(raw) + post;
    assert s == pre + (Marker(raw) + post);
    if pre == [] {
      assert s == Marker(raw) + post;
      MarkerMatches(raw, post);
    } else {
      MatchEndsBefore(pre, Marker(raw) + post);
      var n := MarkerAt(s);
      var k := if n > 0 then n + 2 else 1;
      assert s[k..] == pre[k..] + Marker(raw) + post;
      MarkerIsFound(pre[k..], raw, post);
    }
  }

  /** Text without brackets has no markers of its own. */
  lemma {:induction false} MarkersAfter(pre: string, post: string)
    requires '[' !in pre
    ensures FindMarkers(pre + post) == FindMarkers(post)
  {
    if pre == [] {
      assert pre + post == post;
    } else {
      assert (pre + post)[0] == pre[0];
      assert (pre + post)[1..] == pre[1..] + post;
      MarkersAfter(pre[1..], post);
    }
  }

  lemma MarkerFirst(raw: string, post: string)
    requires raw != [] && AllDigits(raw)
    ensures FindMarkers(Marker(raw) + post) == [raw] + FindMarkers(post)
  {
    MarkerMatches(raw, post);
    hide MarkerAt;
  }

  // ---- the validator ----

  /** How Number prints a numeral, and the significant words of a text. */
  datatype Lexicon = Lexicon(numeral: string -> string, words: string -> set<string>)

  datatype Checks = Checks(citations: bool, numerics: bool, claims: bool)
  datatype Verdict = Valid | Invalid(checks: Checks)

  /** `raw === String(index)` for an index from 1 to n. */
  predicate CanonicalMarker(raw: string, n: nat) {
    1 <= Value(raw) <= n && Decimal(Value(raw)) == raw
  }

  predicate WellCited(claim: string, n: nat) {
    FindMarkers(claim) != [] && forall raw :: raw in FindMarkers(claim) ==> CanonicalMarker(raw, n)
  }

  /** Without repetitions, in order of first occurrence. */
  function Unique(raws: seq<string>): (r: seq<string>)
    ensures forall raw :: raw in r <==> raw in raws
  {
    if raws == [] then []
    else
      var init := Unique(raws[..|raws| - 1]);
      var last := raws[|raws| - 1];
      if last in init then init else init + [last]
  }

  function ContentsOf(raws: seq<string>, contents: seq<string>): seq<string>
    requires forall raw :: raw in raws ==> CanonicalMarker(raw, |contents|)
  {
    if raws == [] then []
    else
      assert CanonicalMarker(raws[0], |contents|);
      [contents[Value(raws[0]) - 1]] + ContentsOf(raws[1..], contents)
  }

  /** The cited memories, each once. */
  function CitedMemories(claim: string, contents: seq<string>): seq<string>
    requires WellCited(claim, |contents|)
  {
    ContentsOf(Unique(FindMarkers(claim)), contents)
  }

  function CitedEvidence(claim: string, contents: seq<string>): string
    requires WellCited(claim, |contents|)
  {
    JoinSpaced(CitedMemories(claim, contents))
  }

  predicate NumbersCovered(claim: string, contents: seq<string>, lexicon: Lexicon)
    requires WellCited(claim, |contents|)
  {
    Numbers(WithoutMarkers(claim), lexicon.numeral) <= Numbers(CitedEvidence(claim, contents), lexicon.numeral)
  }

  /** At least four fifths of the claim's words, and at least two of them if it has two. */
  predicate SharesWords(words: set<string>, evidence: set<string>) {
    var shared := words * evidence;
    |words| > 0 && |shared| >= (if |words| < 2 then |words| else 2) && 5 * |shared| >= 4 * |words|
  }

  predicate WordsShared(claim: string, contents: seq<string>, lexicon: Lexicon)
    requires WellCited(claim, |contents|)
  {
    SharesWords(lexicon.words(WithoutMarkers(claim)), lexicon.words(CitedEvidence(claim, contents)))
  }

  function ValidateGroundedAnswer(answer: string, contents: seq<string>, lexicon: Lexicon): Verdict {
    var claims := SplitClaims(answer);
    if claims == [] || exists claim :: claim in claims && !WellCited(claim, |contents|) then
      Invalid(Checks(false, false, false))
    else if exists claim :: claim in claims && !NumbersCovered(claim, contents, lexicon) then
      Invalid(Checks(true, false, false))
    else if exists claim :: claim in claims && !WordsShared(claim, contents, lexicon) then
      Invalid(Checks(true, true, false))
    else
      Valid
  }

  /** Every claim of the answer cites memories that exist, and has no number and few words that they
      do not have. */
  predicate Grounded(answer: string, contents: seq<string>, lexicon: Lexicon) {
    SplitClaims(answer) != []
    && forall claim :: claim in SplitClaims(answer) ==>
         && WellCited(claim, |contents|)
         && NumbersCovered(claim, contents, lexicon)
         && WordsShared(claim, contents, lexicon)
  }

  lemma ValidIsGrounded(answer: string, contents: seq<string>, lexicon: Lexicon)
    ensures ValidateGroundedAnswer(answer, contents, lexicon) == Valid <==> Grounded(answer, contents, lexicon)
  {
    hide SplitClaims, WellCited, NumbersCovered, WordsShared;
  }

  // ---- what each verdict means ----

  /** The plain numeral of one of n memories. */
  ghost predicate Names(raw: string, n: nat) {
    exists k: nat :: 1 <= k <= n && raw == Decimal(k)
  }

  lemma CanonicalExactly(raw: string, n: nat)
    ensures CanonicalMarker(raw, n) <==> Names(raw, n)
  {
    hide Value, Decimal;
    forall k: nat | 1 <= k <= n && raw == Decimal(k)
      ensures CanonicalMarker(raw, n)
    {
      ValueOfDecimal(k);
    }
    if CanonicalMarker(raw, n) {
      assert raw == Decimal(Value(raw));
    }
  }

  /** Well cited: there is a marker, and each names a memory there is. */
  lemma WellCitedExactly(claim: string, n: nat)
    ensures WellCited(claim, n) <==>
      FindMarkers(claim) != [] && forall raw :: raw in FindMarkers(claim) ==> Names(raw, n)
  {
    hide FindMarkers, CanonicalMarker, Names;
    forall raw | raw in FindMarkers(claim)
      ensures CanonicalMarker(raw, n) <==> Names(raw, n)
    {
      CanonicalExactly(raw, n);
    }
  }

  /** At least one word; among the evidence's words at least one of them, at least two if there are two,
      and all but at most one in five. */
  lemma SharesWordsExactly(words: set<string>, evidence: set<string>)
    ensures SharesWords(words, evidence) <==>
      && |words| >= 1 && |words * evidence| >= 1 && (|words| >= 2 ==> |words * evidence| >= 2)
      && 5 * |words - evidence| <= |words|
  {
    assert words * evidence + (words - evidence) == words;
  }

  /** An answer is valid exactly when it has a claim, and every claim is well cited, has only numbers of
      the cited memories as they are joined, and enough of their words. */
  lemma ValidExactly(answer: string, contents: seq<string>, lexicon: Lexicon)
    ensures ValidateGroundedAnswer(answer, contents, lexicon) == Valid <==>
      SplitClaims(answer) != []
      && forall claim :: claim in SplitClaims(answer) ==>
           WellCited(claim, |contents|)
           && var evidence := CitedEvidence(claim, contents);
              var words, known := lexicon.words(WithoutMarkers(claim)), lexicon.words(evidence);
              && (forall x :: x in Numbers(WithoutMarkers(claim), lexicon.numeral) ==>
                    x in Numbers(evidence, lexicon.numeral))
              && |words| >= 1 && |words * known| >= 1 && (|words| >= 2 ==> |words * known| >= 2)
              && 5 * |words - known| <= |words|
  {
    hide SplitClaims, WellCited, CitedEvidence, Numbers, SharesWords, WithoutMarkers;
    forall claim | claim in SplitClaims(answer) && WellCited(claim, |contents|)
      ensures var words, known :=
          lexicon.words(WithoutMarkers(claim)), lexicon.words(CitedEvidence(claim, contents));
        SharesWords(words, known) <==>
          && |words| >= 1 && |words * known| >= 1 && (|words| >= 2 ==> |words * known| >= 2)
          && 5 * |words - known| <= |words|
    {
      SharesWordsExactly(lexicon.words(WithoutMarkers(claim)), lexicon.words(CitedEvidence(claim, contents)));
    }
  }

  /** What an invalid answer is reported for: first that it has no claim or one that is not well cited,
      then that a claim has a number the cited memories do not have, then that one has no words, or too
      few of theirs. */
  lemma InvalidExactly(answer: string, contents: seq<string>, lexicon: Lexicon)
    ensures var verdict, claims := ValidateGroundedAnswer(answer, contents, lexicon), SplitClaims(answer);
      var cited := claims != [] && forall claim :: claim in claims ==> WellCited(claim, |contents|);
      var covered := cited
        && forall claim, x :: claim in claims && x in Numbers(WithoutMarkers(claim), lexicon.numeral) ==>
             x in Numbers(CitedEvidence(claim, contents), lexicon.numeral);
      && (verdict == Invalid(Checks(false, false, false)) <==> !cited)
      && (verdict == Invalid(Checks(true, false, false)) <==> cited && !covered)
      && (verdict == Invalid(Checks(true, true, false)) <==>
            covered
            && exists claim :: claim in claims && (
                 var words, known :=
                   lexicon.words(WithoutMarkers(claim)), lexicon.words(CitedEvidence(claim, contents));
                 || words == {} || words * known == {} || (|words| >= 2 && |words * known| < 2)
                 || 5 * |words - known| > |words|))
  {
    hide SplitClaims, WellCited, CitedEvidence, Numbers, SharesWords, WithoutMarkers;
    forall claim | claim in SplitClaims(answer) && WellCited(claim, |contents|)
      ensures var words, known :=
          lexicon.words(WithoutMarkers(claim)), lexicon.words(CitedEvidence(claim, contents));
        !SharesWords(words, known) <==>
          || words == {} || words * known == {} || (|words| >= 2 && |words * known| < 2)
          || 5 * |words - known| > |words|
    {
      SharesWordsExactly(lexicon.words(WithoutMarkers(claim)), lexicon.words(CitedEvidence(claim, contents)));
    }
  }

  // ---- where a claim's numbers come from ----

  /** A number of the memory that a marker names. */
  predicate InCited(x: string, raw: string, contents: seq<string>, lexicon: Lexicon)
    requires CanonicalMarker(raw, |contents|)
  {
    x in Numbers(contents[Value(raw) - 1], lexicon.numeral)
  }

  /** Each number of the claim is a number of a memory it cites, taken by itself. */
  predicate Sourced(claim: string, contents: seq<string>, lexicon: Lexicon)
    requires WellCited(claim, |contents|)
  {
    forall x :: x in Numbers(WithoutMarkers(claim), lexicon.numeral) ==>
      exists raw :: raw in FindMarkers(claim) && InCited(x, raw, contents, lexicon)
  }

  lemma {:induction false} CitedContents(raws: seq<string>, contents: seq<string>, x: string, lexicon: Lexicon)
    requires forall raw :: raw in raws ==> CanonicalMarker(raw, |contents|)
    ensures InOne(x, ContentsOf(raws, contents), lexicon.numeral)
      <==> exists raw :: raw in raws && InCited(x, raw, contents, lexicon)
  {
    hide Numbers, Value;
    if raws != [] {
      assert raws[0] in raws && CanonicalMarker(raws[0], |contents|);
      var own, rest := contents[Value(raws[0]) - 1], ContentsOf(raws[1..], contents);
      CitedContents(raws[1..], contents, x, lexicon);
      InOneMore(x, own, rest, lexicon.numeral);
      assert forall raw :: raw in raws <==> raw == raws[0] || raw in raws[1..];
    }
  }

  lemma InOneMore(x: string, own: string, rest: seq<string>, numeral: string -> string)
    ensures InOne(x, [own] + rest, numeral) <==> x in Numbers(own, numeral) || InOne(x, rest, numeral)
  {
    hide Numbers;
    assert own in [own] + rest;
    assert forall text :: text in rest ==> text in [own] + rest;
  }

  /** Where no number reaches over the seam of two cited memories, looking them up in the joined
      memories finds exactly those that single memories have. */
  lemma CoveredIffSourced(claim: string, contents: seq<string>, lexicon: Lexicon)
    requires WellCited(claim, |contents|) && Seamless(CitedMemories(claim, contents))
    ensures NumbersCovered(claim, contents, lexicon) <==> Sourced(claim, contents, lexicon)
  {
    hide Numbers, FindMarkers, CanonicalMarker, InCited, Seamless, InOne;
    NumbersOfJoin(CitedMemories(claim, contents), lexicon.numeral);
    forall x
      ensures InOne(x, CitedMemories(claim, contents), lexicon.numeral)
        <==> exists raw :: raw in FindMarkers(claim) && InCited(x, raw, contents, lexicon)
    {
      CitedContents(Unique(FindMarkers(claim)), contents, x, lexicon);
    }
  }

  /** Every claim cites memories that exist, each of its numbers is one of theirs by itself, and few of
      its words are not theirs. */
  predicate Attributed(answer: string, contents: seq<string>, lexicon: Lexicon) {
    SplitClaims(answer) != []
    && forall claim :: claim in SplitClaims(answer) ==>
         && WellCited(claim, |contents|)
         && Sourced(claim, contents, lexicon)
         && WordsShared(claim, contents, lexicon)
  }

  /** No claim cites memories whose joining makes a number reach over a seam; a claim that cites a
      single memory never does. */
  predicate CitesSeamlessly(answer: string, contents: seq<string>) {
    forall claim :: claim in SplitClaims(answer) && WellCited(claim, |contents|) ==>
      Seamless(CitedMemories(claim, contents))
  }

  lemma ValidIffAttributed(answer: string, contents: seq<string>, lexicon: Lexicon)
    requires CitesSeamlessly(answer, contents)
    ensures ValidateGroundedAnswer(answer, contents, lexicon) == Valid <==> Attributed(answer, contents, lexicon)
  {
    hide SplitClaims, WellCited, NumbersCovered, WordsShared, Sourced, Seamless;
    ValidIsGrounded(answer, contents, lexicon);
    forall claim | claim in SplitClaims(answer) && WellCited(claim, |contents|)
      ensures NumbersCovered(claim, contents, lexicon) <==> Sourced(claim, contents, lexicon)
    {
      CoveredIffSourced(claim, contents, lexicon);
    }
  }

  lemma {:induction false} ContentsAreAmong(raws: seq<string>, contents: seq<string>)
    requires forall raw :: raw in raws ==> CanonicalMarker(raw, |contents|)
    ensures forall text :: text in ContentsOf(raws, contents) ==> text in contents
  {
    hide Value, Decimal;
    if raws != [] {
      assert raws[0] in raws && CanonicalMarker(raws[0], |contents|);
      ContentsAreAmong(raws[1..], contents);
    }
  }

  /** Memories that end like sentences have no number over a seam, whatever cites them. */
  lemma ClosedMemoriesAreSeamless(answer: string, contents: seq<string>)
    requires forall content :: content in contents ==> content == [] || Closes(content[|content| - 1])
    ensures CitesSeamlessly(answer, contents)
  {
    hide SplitClaims, FindMarkers, CanonicalMarker, Seamless, Closes;
    forall claim | claim in SplitClaims(answer) && WellCited(claim, |contents|)
      ensures Seamless(CitedMemories(claim, contents))
    {
      ContentsAreAmong(Unique(FindMarkers(claim)), contents);
      ClosedIsSeamless(CitedMemories(claim, contents));
    }
  }

  predicate Cites(answer: string, k: nat) {
    exists raw :: raw in FindMarkers(answer) && Value(raw) == k
  }

  /** Every memory is cited somewhere in the answer. */
  predicate CitesAll(answer: string, n: nat) {
    n > 0 && forall k :: 1 <= k <= n ==> Cites(answer, k)
  }

  function ValidateCompleteGroundedAnswer(answer: string, contents: seq<string>, lexicon: Lexicon): Verdict {
    var verdict := ValidateGroundedAnswer(answer, contents, lexicon);
    if verdict != Valid || CitesAll(answer, |contents|) then verdict else Invalid(Checks(false, true, true))
  }

  function CanonicalExtractiveAnswer(contents: seq<string>, lexicon: Lexicon): Option<string> {
    var claims := ExtractiveClaims(contents);
    if claims == [] then None
    else
      var answer := JoinSpaced(claims);
      if ValidateGroundedAnswer(answer, contents, lexicon) == Valid then Some(answer) else None
  }

  // ---- the extractive answer is what it was built from ----

  lemma CiteIsPadded(claim: string, index: nat)
    requires ClaimLike(claim)
    ensures Padded(Cite(claim, index))
    ensures if Evidence(claim) != [] then TrimStart(Cite(claim, index)) == Cite(claim, index)
            else TrimStart(Cite(claim, index)) == Marker(Decimal(index)) + "."
  {
    hide Evidence, Decimal, Calm;
    if Evidence(claim) != [] {
      CiteIsSentence(claim, index);
    } else {
      MarkIsCalm(index);
      assert Cite(claim, index) == " [" + Decimal(index) + "].";
      assert " [" + Decimal(index) + "]." == " " + (Marker(Decimal(index)) + ".");
      BareIsSentence(Marker(Decimal(index)) + ".");
      SpaceComesOff(Marker(Decimal(index)) + ".");
    }
  }

  lemma SpaceComesOff(core: string)
    requires core != [] && !IsSpace(core[0])
    ensures TrimStart(" " + core) == core
  {
    assert (" " + core)[1..] == core;
  }

  lemma BareIsSentence(bare: string)
    requires Calm(" " + bare) && bare != [] && !IsSpace(bare[0]) && IsTerminator(bare[|bare| - 1])
    ensures Sentence(bare)
  {
    forall i | 0 <= i < |bare|
      ensures bare[i] != '\n'
      ensures i + 1 < |bare| && IsTerminator(bare[i]) ==> !IsSpace(bare[i + 1])
    {
      assert (" " + bare)[i + 1] == bare[i];
      assert i + 1 < |bare| ==> (" " + bare)[i + 2] == bare[i + 1];
    }
  }

  lemma {:induction false} CiteAllArePadded(claims: seq<string>, index: nat)
    requires forall c :: c in claims ==> ClaimLike(c)
    ensures forall c :: c in CiteAll(claims, index) ==> Padded(c)
    ensures forall c :: c in CiteAll(claims, index) ==>
      TrimStart(c) == c || TrimStart(c) == Marker(Decimal(index)) + "."
    ensures claims != [] ==> CiteAll(claims, index) != []
  {
    hide ClaimLike, Padded, TrimStart, Cite, Decimal, Marker;
    if claims != [] {
      assert claims[0] in claims;
      CiteIsPadded(claims[0], index);
      CiteAllArePadded(claims[1..], index);
    }
  }

  /** A claim whose evidence is empty: a marker alone. */
  predicate BareMarker(s: string) {
    |s| >= 4 && s[0] == '[' && MarkerAt(s) == |s| - 3 && s[|s| - 1] == '.'
  }

  lemma BareMarkerIs(index: nat)
    ensures BareMarker(Marker(Decimal(index)) + ".")
  {
    DecimalIsDigits(index);
    MarkerMatches(Decimal(index), ".");
  }

  lemma BareMarkerLeavesNothing(s: string)
    requires BareMarker(s)
    ensures WithoutMarkers(s) == "."
  {
    assert s[|s| - 1..] == ".";
    assert WithoutMarkers(".") == ".";
  }

  lemma {:induction false} ExtractiveArePadded(contents: seq<string>, k: nat)
    ensures forall c :: c in ExtractiveFrom(contents, k) ==>
      Padded(c) && (TrimStart(c) == c || BareMarker(TrimStart(c)))
    decreases |contents| - k
  {
    hide Padded, TrimStart, CiteAll, SplitClaims, BareMarker, Decimal, Marker;
    if k < |contents| {
      ExtractiveArePadded(contents, k + 1);
      ClaimsAreClaimLike(contents[k]);
      CiteAllArePadded(SplitClaims(contents[k]), k + 1);
      BareMarkerIs(k + 1);
    }
  }

  lemma {:induction false} UnpaddedOf(claims: seq<string>)
    requires forall c :: c in Unpadded(claims) ==> !BareMarker(c)
    requires forall c :: c in claims ==> TrimStart(c) == c || BareMarker(TrimStart(c))
    ensures Unpadded(claims) == claims
  {
    hide TrimStart, BareMarker;
    if claims != [] {
      assert claims[0] in claims && TrimStart(claims[0]) in Unpadded(claims);
      UnpaddedOf(claims[1..]);
      assert claims == [claims[0]] + claims[1..];
    }
  }

  /** A non-null extractive answer splits back into exactly one claim per claim of the evidence, in
      order, and is grounded. */
  lemma ExtractiveResplits(contents: seq<string>, lexicon: Lexicon)
    requires lexicon.words(".") == {}
    requires CanonicalExtractiveAnswer(contents, lexicon).Some?
    ensures var answer := CanonicalExtractiveAnswer(contents, lexicon).value;
      SplitClaims(answer) == ExtractiveClaims(contents) && Grounded(answer, contents, lexicon)
  {
    var claims := ExtractiveClaims(contents);
    var answer := JoinSpaced(claims);
    ExtractiveArePadded(contents, 0);
    hide Padded, TrimStart, ExtractiveFrom, SplitClaims, JoinSpaced, WellCited, NumbersCovered, MarkerAt;
    SplitUndoesJoin(claims);
    ValidIsGrounded(answer, contents, lexicon);
    forall c | c in Unpadded(claims)
      ensures !BareMarker(c)
    {
      assert c in SplitClaims(answer);
      if BareMarker(c) {
        BareMarkerLeavesNothing(c);
      }
    }
    UnpaddedOf(claims);
  }

  // ---- what it cites ----

  lemma {:induction false} JoinContains(claims: seq<string>, c: string) returns (pre: string, post: string)
    requires c in claims
    ensures JoinSpaced(claims) == pre + c + post
  {
    if |claims| == 1 {
      pre, post := "", "";
    } else if claims[0] == c {
      pre, post := "", " " + JoinSpaced(claims[1..]);
      assert JoinSpaced(claims) == c + " " + JoinSpaced(claims[1..]);
    } else {
      pre, post := JoinContains(claims[1..], c);
      assert claims[0] + " " + (pre + c + post) == (claims[0] + " " + pre) + c + post;
      pre := claims[0] + " " + pre;
    }
  }

  lemma {:induction false} ExtractiveHas(contents: seq<string>, from: nat, k: nat)
    requires from <= k < |contents| && SplitClaims(contents[k]) != []
    ensures Cite(SplitClaims(contents[k])[0], k + 1) in ExtractiveFrom(contents, from)
    decreases k - from
  {
    hide SplitClaims, Cite;
    if from < k {
      ExtractiveHas(contents, from + 1, k);
    }
  }

  /** The extractive rendering cites every memory that has a claim. */
  lemma ExtractiveCites(contents: seq<string>, k: nat)
    requires k < |contents| && SplitClaims(contents[k]) != []
    ensures Cites(JoinSpaced(ExtractiveClaims(contents)), k + 1)
  {
    hide SplitClaims, JoinSpaced, ExtractiveFrom, FindMarkers, Evidence, Decimal, Value;
    var claim := SplitClaims(contents[k])[0];
    ExtractiveHas(contents, 0, k);
    var pre, post := JoinContains(ExtractiveClaims(contents), Cite(claim, k + 1));
    var raw := Decimal(k + 1);
    DecimalIsDigits(k + 1);
    ValueOfDecimal(k + 1);
    assert pre + Cite(claim, k + 1) + post == (pre + Evidence(claim) + " ") + Marker(raw) + ("." + post);
    MarkerIsFound(pre + Evidence(claim) + " ", raw, "." + post);
  }

  /** No marker reaches over a space. */
  lemma {:induction false} MarkersOfPair(a: string, b: string)
    ensures FindMarkers(a + " " + b) == FindMarkers(a) + FindMarkers(b)
    decreases |a|
  {
    hide MarkerAt;
    var s := a + " " + b;
    if a == [] {
      assert s == " " + b;
      MarkersAfter(" ", b);
      NoMarkers();
      assert [] + FindMarkers(b) == FindMarkers(b);
    } else {
      MarkerAtLocal(a, b);
      var n := MarkerAt(a);
      var k := if n > 0 then n + 2 else 1;
      SpacedSuffix(a, b, k);
      MarkersOfPair(a[k..], b);
      if n > 0 {
        assert s[1..n + 1] == a[1..n + 1];
        Associate([a[1..n + 1]], FindMarkers(a[k..]), FindMarkers(b));
      }
    }
  }

  lemma SpacedSuffix(a: string, b: string, k: nat)
    requires k <= |a|
    ensures (a + " " + b)[k..] == a[k..] + " " + b
  {
  }

  lemma Associate(x: seq<string>, y: seq<string>, z: seq<string>)
    ensures x + (y + z) == x + y + z
  {
  }

  lemma MarkerAtLocal(a: string, b: string)
    requires a != []
    ensures MarkerAt(a + " " + b) == MarkerAt(a)
  {
    SpacedSuffix(a, b, 1);
    DigitRunLocal(a[1..], b);
  }

  lemma NoMarkers()
    ensures FindMarkers("") == []
  {
  }

  function AllMarkers(claims: seq<string>): seq<string> {
    if claims == [] then [] else FindMarkers(claims[0]) + AllMarkers(claims[1..])
  }

  lemma {:induction false} MarkersOfJoin(claims: seq<string>)
    ensures FindMarkers(JoinSpaced(claims)) == AllMarkers(claims)
  {
    hide FindMarkers;
    if claims == [] {
      NoMarkers();
    } else if |claims| == 1 {
      assert claims[1..] == [] && FindMarkers(claims[0]) + [] == FindMarkers(claims[0]);
    } else {
      MarkersOfPair(claims[0], JoinSpaced(claims[1..]));
      MarkersOfJoin(claims[1..]);
    }
  }

  /** A rendered claim has the markers of its evidence, and then its own. */
  lemma MarkersOfCite(claim: string, index: nat)
    ensures FindMarkers(Cite(claim, index)) == FindMarkers(Evidence(claim)) + [Decimal(index)]
  {
    hide FindMarkers, Evidence, Decimal;
    DecimalIsDigits(index);
    var raw := Decimal(index);
    assert Cite(claim, index) == Evidence(claim) + " " + (Marker(raw) + ".");
    MarkersOfPair(Evidence(claim), Marker(raw) + ".");
    MarkerFirst(raw, ".");
    MarkersAfter(".", "");
    NoMarkers();
    assert "." + "" == ".";
  }

  /** A claim of the memory brings a marker of its own into the rendering. */
  predicate Brings(content: string, raw: string) {
    SomeBrings(SplitClaims(content), raw)
  }

  predicate SomeBrings(claims: seq<string>, raw: string) {
    exists claim :: claim in claims && raw in FindMarkers(Evidence(claim))
  }

  lemma {:induction false} MarkersOfCiteAll(claims: seq<string>, index: nat, raw: string)
    ensures raw in AllMarkers(CiteAll(claims, index))
      <==> (claims != [] && raw == Decimal(index)) || SomeBrings(claims, raw)
  {
    hide FindMarkers, Evidence, Decimal, Cite;
    if claims != [] {
      MarkersOfCite(claims[0], index);
      MarkersOfCiteAll(claims[1..], index, raw);
      assert claims[0] in claims;
      assert forall claim :: claim in claims <==> claim == claims[0] || claim in claims[1..];
    }
  }

  lemma {:induction false} AllMarkersConcat(a: seq<string>, b: seq<string>)
    ensures AllMarkers(a + b) == AllMarkers(a) + AllMarkers(b)
  {
    hide FindMarkers;
    if a == [] {
      assert a + b == b;
    } else {
      assert (a + b)[1..] == a[1..] + b;
      AllMarkersConcat(a[1..], b);
    }
  }

  /** Where a marker of the rendering can come from: memory j, itself or from one of its claims. */
  predicate Renders(contents: seq<string>, j: nat, raw: string)
    requires j < |contents|
  {
    (SplitClaims(contents[j]) != [] && raw == Decimal(j + 1)) || Brings(contents[j], raw)
  }

  lemma {:induction false} MarkersOfExtractive(contents: seq<string>, k: nat, raw: string)
    ensures raw in AllMarkers(ExtractiveFrom(contents, k))
      <==> exists j :: k <= j < |contents| && Renders(contents, j, raw)
    decreases |contents| - k
  {
    hide FindMarkers, Evidence, Decimal, SplitClaims, SomeBrings, CiteAll;
    if k < |contents| {
      MarkersOfCiteAll(SplitClaims(contents[k]), k + 1, raw);
      AllMarkersConcat(CiteAll(SplitClaims(contents[k]), k + 1), ExtractiveFrom(contents, k + 1));
      MarkersOfExtractive(contents, k + 1, raw);
      assert Renders(contents, k, raw) <==> raw in AllMarkers(CiteAll(SplitClaims(contents[k]), k + 1));
    }
  }

  /** The number of a memory, written as a marker inside some claim of the evidence. */
  ghost predicate Mentioned(contents: seq<string>, m: nat) {
    exists j, raw :: 0 <= j < |contents| && Brings(contents[j], raw) && Value(raw) == m
  }

  /** The extractive rendering cites every memory iff every memory has a claim, or is mentioned by a
      marker inside a claim. */
  lemma ExtractiveCitesExactly(contents: seq<string>)
    ensures CitesAll(JoinSpaced(ExtractiveClaims(contents)), |contents|)
      <==> |contents| > 0
           && forall k :: 0 <= k < |contents| ==> SplitClaims(contents[k]) != [] || Mentioned(contents, k + 1)
  {
    hide FindMarkers, ExtractiveFrom, JoinSpaced, SplitClaims, Cites, Mentioned;
    var answer := JoinSpaced(ExtractiveClaims(contents));
    forall m | 1 <= m <= |contents|
      ensures Cites(answer, m) <==> SplitClaims(contents[m - 1]) != [] || Mentioned(contents, m)
    {
      ExtractiveCitesOne(contents, m - 1);
    }
    if forall k :: 0 <= k < |contents| ==> SplitClaims(contents[k]) != [] || Mentioned(contents, k + 1) {
      forall m | 1 <= m <= |contents|
        ensures Cites(answer, m)
      {
        assert SplitClaims(contents[m - 1]) != [] || Mentioned(contents, (m - 1) + 1);
      }
    }
    if CitesAll(answer, |contents|) {
      forall k | 0 <= k < |contents|
        ensures SplitClaims(contents[k]) != [] || Mentioned(contents, k + 1)
      {
        assert Cites(answer, k + 1);
      }
    }
  }

  lemma ExtractiveCitesOne(contents: seq<string>, k: nat)
    requires k < |contents|
    ensures Cites(JoinSpaced(ExtractiveClaims(contents)), k + 1)
      <==> SplitClaims(contents[k]) != [] || Mentioned(contents, k + 1)
  {
    hide FindMarkers, ExtractiveFrom, JoinSpaced, SplitClaims, Value, Decimal, SomeBrings;
    var answer := JoinSpaced(ExtractiveClaims(contents));
    MarkersOfJoin(ExtractiveClaims(contents));
    if raw :| raw in FindMarkers(answer) && Value(raw) == k + 1 {
      MarkersOfExtractive(contents, 0, raw);
      var j :| 0 <= j < |contents| && Renders(contents, j, raw);
      ValueOfDecimal(j + 1);
    }
    if SplitClaims(contents[k]) != [] {
      ValueOfDecimal(k + 1);
      MarkersOfExtractive(contents, 0, Decimal(k + 1));
      assert Renders(contents, k, Decimal(k + 1));
    }
    if Mentioned(contents, k + 1) {
      var j, raw :| 0 <= j < |contents| && Brings(contents[j], raw) && Value(raw) == k + 1;
      MarkersOfExtractive(contents, 0, raw);
      assert Renders(contents, j, raw);
    }
  }

  lemma {:induction false} CiteAllHas(claims: seq<string>, index: nat, claim: string)
    requires claim in claims
    ensures Cite(claim, index) in CiteAll(claims, index)
  {
    hide Cite;
    if claims[0] != claim {
      CiteAllHas(claims[1..], index, claim);
    }
  }

  lemma {:induction false} ExtractiveHasAll(contents: seq<string>, from: nat, k: nat, claim: string)
    requires from <= k < |contents| && claim in SplitClaims(contents[k])
    ensures Cite(claim, k + 1) in ExtractiveFrom(contents, from)
    decreases k - from
  {
    hide SplitClaims, Cite;
    if from < k {
      ExtractiveHasAll(contents, from + 1, k, claim);
    } else {
      CiteAllHas(SplitClaims(contents[k]), k + 1, claim);
    }
  }

  lemma CitesOneMemory(claim: string, k: nat, contents: seq<string>)
    requires k < |contents| && FindMarkers(claim) == [Decimal(k + 1)]
    ensures WellCited(claim, |contents|) && CitedMemories(claim, contents) == [contents[k]]
    ensures CitedEvidence(claim, contents) == contents[k]
  {
    hide FindMarkers, Decimal, Value;
    var raw := Decimal(k + 1);
    ValueOfDecimal(k + 1);
    assert [raw][..0] == [] && Unique([]) == [] && Unique([raw]) == [raw];
    assert CanonicalMarker(raw, |contents|);
    assert [raw][1..] == [] && ContentsOf([], contents) == [];
    assert ContentsOf([raw], contents) == [contents[k]];
  }

  /** Each claim of an extractive answer whose evidence has no marker has only numbers of the one
      memory it was taken from. */
  lemma ExtractiveNumbersAreOwn(contents: seq<string>, lexicon: Lexicon, k: nat, claim: string)
    requires lexicon.words(".") == {} && CanonicalExtractiveAnswer(contents, lexicon).Some?
    requires k < |contents| && claim in SplitClaims(contents[k]) && FindMarkers(Evidence(claim)) == []
    ensures FindMarkers(Cite(claim, k + 1)) == [Decimal(k + 1)]
    ensures Numbers(WithoutMarkers(Cite(claim, k + 1)), lexicon.numeral) <= Numbers(contents[k], lexicon.numeral)
  {
    hide SplitClaims, FindMarkers, Decimal, Evidence, JoinSpaced, ExtractiveFrom, ValidateGroundedAnswer,
         WithoutMarkers, CitedEvidence, WellCited, WordsShared, Numbers;
    MarkersOfCite(claim, k + 1);
    assert [] + [Decimal(k + 1)] == [Decimal(k + 1)];
    CitesOneMemory(Cite(claim, k + 1), k, contents);
    ExtractiveResplits(contents, lexicon);
    ExtractiveHasAll(contents, 0, k, claim);
  }

  /** No claim of a memory has a marker in its evidence. */
  predicate BringsNone(content: string) {
    forall claim :: claim in SplitClaims(content) ==> FindMarkers(Evidence(claim)) == []
  }

  lemma {:induction false} FromOneMemory(contents: seq<string>, k: nat, c: string)
    requires c in ExtractiveFrom(contents, k) && forall content :: content in contents ==> BringsNone(content)
    ensures WellCited(c, |contents|) && |CitedMemories(c, contents)| == 1
    decreases |contents| - k
  {
    hide BringsNone, WellCited, CitedMemories, SplitClaims;
    if c in CiteAll(SplitClaims(contents[k]), k + 1) {
      assert contents[k] in contents;
      OfOneMemory(SplitClaims(contents[k]), contents, k, c);
    } else {
      FromOneMemory(contents, k + 1, c);
    }
  }

  lemma {:induction false} OfOneMemory(claims: seq<string>, contents: seq<string>, k: nat, c: string)
    requires k < |contents| && c in CiteAll(claims, k + 1)
    requires BringsNone(contents[k]) && forall claim :: claim in claims ==> claim in SplitClaims(contents[k])
    ensures WellCited(c, |contents|) && |CitedMemories(c, contents)| == 1
  {
    hide SplitClaims, FindMarkers, Evidence, Decimal, Cite, WellCited, CitedMemories;
    assert claims[0] in claims;
    if c == Cite(claims[0], k + 1) {
      MarkersOfCite(claims[0], k + 1);
      assert [] + [Decimal(k + 1)] == [Decimal(k + 1)];
      CitesOneMemory(c, k, contents);
    } else {
      OfOneMemory(claims[1..], contents, k, c);
    }
  }

  /** Where no memory has a marker of its own, every claim of an extractive answer cites one memory,
      and its numbers are that memory's. */
  lemma ExtractiveIsAttributed(contents: seq<string>, lexicon: Lexicon)
    requires lexicon.words(".") == {} && CanonicalExtractiveAnswer(contents, lexicon).Some?
    requires forall content :: content in contents ==> BringsNone(content)
    ensures Attributed(CanonicalExtractiveAnswer(contents, lexicon).value, contents, lexicon)
  {
    hide SplitClaims, WellCited, BringsNone, CitedMemories, ExtractiveFrom, JoinSpaced, Grounded, Attributed;
    var answer := CanonicalExtractiveAnswer(contents, lexicon).value;
    ExtractiveResplits(contents, lexicon);
    forall claim | claim in SplitClaims(answer) && WellCited(claim, |contents|)
      ensures Seamless(CitedMemories(claim, contents))
    {
      FromOneMemory(contents, 0, claim);
    }
    ValidIffAttributed(answer, contents, lexicon);
  }

  // ---- the narrators ----

  datatype Status = Verified | Extractive | Fallback | NoEvidence

  /** `memories` are the contents cited as [1], [2], ...; `withheld` says that some were left out. */
  datatype Narrated = Narrated(answer: string, memories: seq<string>, status: Status, checks: Checks, withheld: bool)

  function NoMemory(): string {
    "No relevant memories found that are safe for narration from the agent's CockroachDB memory."
  }

  const ALL_PASSED := Checks(true, true, true)
  const NONE_PASSED := Checks(false, false, false)

  /** toCitations: `hostile` stands for isInstructionLikeEvidence. */
  function ToCitations(hits: seq<string>, hostile: string -> bool): (memories: seq<string>)
    ensures |memories| <= |hits|
  {
    if hits == [] then []
    else (if hostile(hits[0]) then [] else [hits[0]]) + ToCitations(hits[1..], hostile)
  }

  function Listed(memories: seq<string>, k: nat): seq<string>
    decreases |memories| - k
  {
    if k >= |memories| then [] else [Marker(Decimal(k + 1)) + " " + memories[k]] + Listed(memories, k + 1)
  }

  function DeterministicGroundedAnswer(memories: seq<string>): string {
    "Retrieved evidence from the agent's CockroachDB memory: " + JoinSpaced(Listed(memories, 0))
  }

  /** FakeNarrator.narrate */
  function FakeNarrate(hits: seq<string>, hostile: string -> bool, lexicon: Lexicon): Narrated {
    var memories := ToCitations(hits, hostile);
    var withheld := |memories| < |hits|;
    if memories == [] then
      Narrated(NoMemory(), memories, NoEvidence, NONE_PASSED, withheld)
    else
      match CanonicalExtractiveAnswer(memories, lexicon)
      case Some(answer) => Narrated(answer, memories, Verified, ALL_PASSED, withheld)
      case None => Narrated(DeterministicGroundedAnswer(memories), memories, Fallback, NONE_PASSED, withheld)
  }

  /** BedrockNarrator.narrate, given what the model answers: `initial`, and `repaired` unless that
      call fails. */
  function BedrockNarrate(hits: seq<string>, hostile: string -> bool, lexicon: Lexicon,
                          initial: string, repaired: Option<string>): Narrated {
    var memories := ToCitations(hits, hostile);
    var withheld := |memories| < |hits|;
    if memories == [] then
      Narrated(NoMemory(), memories, NoEvidence, NONE_PASSED, withheld)
    else if ValidateCompleteGroundedAnswer(Trim(initial), memories, lexicon) == Valid then
      Narrated(Trim(initial), memories, Verified, ALL_PASSED, withheld)
    else if repaired.Some? && ValidateCompleteGroundedAnswer(Trim(repaired.value), memories, lexicon) == Valid then
      Narrated(Trim(repaired.value), memories, Verified, ALL_PASSED, withheld)
    else
      match CanonicalExtractiveAnswer(memories, lexicon)
      case Some(answer) => Narrated(answer, memories, Extractive, ALL_PASSED, withheld)
      case None => Narrated(DeterministicGroundedAnswer(memories), memories, Fallback, NONE_PASSED, withheld)
  }

  /** An extractive answer: grounded, one claim for each claim of the evidence in order, citing every
      memory that has one. */
  predicate IsExtractive(answer: string, memories: seq<string>, lexicon: Lexicon) {
    && SplitClaims(answer) == ExtractiveClaims(memories)
    && Grounded(answer, memories, lexicon)
    && forall k :: 0 <= k < |memories| && SplitClaims(memories[k]) != [] ==> Cites(answer, k + 1)
  }

  lemma CanonicalIsExtractive(memories: seq<string>, lexicon: Lexicon)
    requires lexicon.words(".") == {} && CanonicalExtractiveAnswer(memories, lexicon).Some?
    ensures IsExtractive(CanonicalExtractiveAnswer(memories, lexicon).value, memories, lexicon)
  {
    ExtractiveResplits(memories, lexicon);
    hide SplitClaims, JoinSpaced, Grounded, ExtractiveFrom, ValidateGroundedAnswer, Cites;
    forall k | 0 <= k < |memories| && SplitClaims(memories[k]) != []
      ensures Cites(CanonicalExtractiveAnswer(memories, lexicon).value, k + 1)
    {
      ExtractiveCites(memories, k);
    }
  }

  /** What a model's answer may be, whatever the model says: a grounded answer citing every memory,
      or an answer in which no word of the model is left, the one the offline narrator gives. */
  lemma BedrockAnswersAreGrounded(hits: seq<string>, hostile: string -> bool, lexicon: Lexicon,
                                  initial: string, repaired: Option<string>)
    requires lexicon.words(".") == {}
    ensures var r := BedrockNarrate(hits, hostile, lexicon, initial, repaired);
      && (r.status == Verified ==> Grounded(r.answer, r.memories, lexicon) && CitesAll(r.answer, |r.memories|))
      && (r.status == Extractive ==> IsExtractive(r.answer, r.memories, lexicon))
      && (r.checks == ALL_PASSED && CitesSeamlessly(r.answer, r.memories) ==>
            Attributed(r.answer, r.memories, lexicon))
      && (r.checks == ALL_PASSED ==>
            forall claim :: claim in SplitClaims(r.answer) ==>
              WellCited(claim, |r.memories|)
              && var words := lexicon.words(WithoutMarkers(claim));
                 var known := lexicon.words(CitedEvidence(claim, r.memories));
                 && |words| >= 1 && |words * known| >= 1 && (|words| >= 2 ==> |words * known| >= 2)
                 && 5 * |words - known| <= |words|)
      && (r.status == Extractive && (forall memory :: memory in r.memories ==> BringsNone(memory)) ==>
            Attributed(r.answer, r.memories, lexicon))
      && (r.status != Verified ==> r.answer == FakeNarrate(hits, hostile, lexicon).answer)
      && r.memories == FakeNarrate(hits, hostile, lexicon).memories
      && (r.checks == ALL_PASSED <==> r.status == Verified || r.status == Extractive)
      && (r.status == NoEvidence <==> r.memories == [])
  {
    hide IsExtractive, Grounded, CitesAll, ValidateGroundedAnswer, CanonicalExtractiveAnswer, Trim, ToCitations,
         DeterministicGroundedAnswer, NoMemory, CitesSeamlessly, Attributed, BringsNone, SplitClaims, WellCited,
         CitedEvidence, WithoutMarkers, Numbers;
    var memories := ToCitations(hits, hostile);
    CheckedIsValid(hits, hostile, lexicon, initial, repaired);
    ValidExactly(BedrockNarrate(hits, hostile, lexicon, initial, repaired).answer, memories, lexicon);
    ValidIsAll(Trim(initial), memories, lexicon);
    if repaired.Some? {
      ValidIsAll(Trim(repaired.value), memories, lexicon);
    }
    if CanonicalExtractiveAnswer(memories, lexicon).Some? {
      CanonicalIsExtractive(memories, lexicon);
      CanonicalIsAttributed(memories, lexicon);
    }
  }

  lemma CheckedIsValid(hits: seq<string>, hostile: string -> bool, lexicon: Lexicon,
                       initial: string, repaired: Option<string>)
    ensures var r := BedrockNarrate(hits, hostile, lexicon, initial, repaired);
      && r.memories == ToCitations(hits, hostile)
      && (r.checks == ALL_PASSED ==> ValidateGroundedAnswer(r.answer, r.memories, lexicon) == Valid)
  {
    hide ValidateGroundedAnswer, ExtractiveFrom, JoinSpaced, Trim, ToCitations, DeterministicGroundedAnswer, NoMemory,
         CitesAll;
  }

  lemma ValidIsAll(answer: string, contents: seq<string>, lexicon: Lexicon)
    ensures ValidateGroundedAnswer(answer, contents, lexicon) == Valid ==>
      && Grounded(answer, contents, lexicon)
      && (CitesSeamlessly(answer, contents) ==> Attributed(answer, contents, lexicon))
  {
    hide ValidateGroundedAnswer, Grounded, CitesSeamlessly, Attributed;
    ValidIsGrounded(answer, contents, lexicon);
    if CitesSeamlessly(answer, contents) {
      ValidIffAttributed(answer, contents, lexicon);
    }
  }

  lemma CanonicalIsAttributed(memories: seq<string>, lexicon: Lexicon)
    requires lexicon.words(".") == {} && CanonicalExtractiveAnswer(memories, lexicon).Some?
    ensures var answer := CanonicalExtractiveAnswer(memories, lexicon).value;
      CitesSeamlessly(answer, memories) || (forall memory :: memory in memories ==> BringsNone(memory)) ==>
        Attributed(answer, memories, lexicon)
  {
    hide ValidateGroundedAnswer, CitesSeamlessly, Attributed, BringsNone, ExtractiveFrom, JoinSpaced;
    ValidIsAll(CanonicalExtractiveAnswer(memories, lexicon).value, memories, lexicon);
    if forall memory :: memory in memories ==> BringsNone(memory) {
      ExtractiveIsAttributed(memories, lexicon);
    }
  }

  /** The offline narrator calls an extractive answer verified. It need not cite every memory: it does
      exactly when every memory has a claim or is mentioned by a marker inside one. */
  lemma FakeVerifiesExtracts(hits: seq<string>, hostile: string -> bool, lexicon: Lexicon)
    requires lexicon.words(".") == {}
    ensures var r := FakeNarrate(hits, hostile, lexicon);
      && (r.status == Verified ==> IsExtractive(r.answer, r.memories, lexicon))
      && (r.status == Verified
          && (CitesSeamlessly(r.answer, r.memories) || forall memory :: memory in r.memories ==> BringsNone(memory)) ==>
            Attributed(r.answer, r.memories, lexicon))
      && (r.status == Verified ==>
            (CitesAll(r.answer, |r.memories|)
             <==> forall k :: 0 <= k < |r.memories| ==>
                    SplitClaims(r.memories[k]) != [] || Mentioned(r.memories, k + 1)))
  {
    hide IsExtractive, SplitClaims, CitesAll, JoinSpaced, ToCitations, ExtractiveFrom, Mentioned,
         ValidateGroundedAnswer, DeterministicGroundedAnswer, NoMemory, Attributed, BringsNone, CitesSeamlessly;
    var memories := ToCitations(hits, hostile);
    if CanonicalExtractiveAnswer(memories, lexicon).Some? {
      CanonicalIsExtractive(memories, lexicon);
      CanonicalIsAttributed(memories, lexicon);
      ExtractiveCitesExactly(memories);
    }
  }

  /** Evidence is withheld exactly when some hit is hostile, and none of that kind is ever cited. */
  lemma {:induction false} HostileIsWithheld(hits: seq<string>, hostile: string -> bool)
    ensures var memories := ToCitations(hits, hostile);
      && (|memories| < |hits| <==> exists hit :: hit in hits && hostile(hit))
      && (forall memory :: memory in memories <==> memory in hits && !hostile(memory))
  {
    if hits != [] {
      assert hits == [hits[0]] + hits[1..];
      HostileIsWithheld(hits[1..], hostile);
    }
  }
}
