/** How `splitClaims` of `src/agents/narrator.ts` cuts an answer, in terms of the whole of it. */
module NarratorCuts {
  import opened Narrator
  import opened Text

  /** What is left out between the pieces. */
  function Gaps(s: string, stopped: bool): (gaps: seq<string>)
    ensures |gaps| == |Cut(s, stopped)| - 1
    decreases |s|
  {
    if s == [] then []
    else if stopped && IsSpace(s[0]) then [s[..SpaceRun(s)]] + Gaps(s[SpaceRun(s)..], false)
    else if s[0] == '\n' then [s[..NewlineRun(s)]] + Gaps(s[NewlineRun(s)..], false)
    else Gaps(s[1..], IsTerminator(s[0]))
  }

  function Interleaved(pieces: seq<string>, gaps: seq<string>): string
    requires |pieces| == |gaps| + 1
  {
    if gaps == [] then pieces[0] else pieces[0] + gaps[0] + Interleaved(pieces[1..], gaps[1..])
  }

  predicate AllSpace(gap: string) {
    gap != [] && forall i :: 0 <= i < |gap| ==> IsSpace(gap[i])
  }

  predicate AllNewlines(gap: string) {
    gap != [] && forall i :: 0 <= i < |gap| ==> gap[i] == '\n'
  }

  predicate Stops(piece: string) {
    piece != [] && piece[|piece| - 1] in ['.', '!', '?']
  }

  /** Between two pieces: all the white space after a full stop, exclamation or question mark, or else
      all the line ends there are. */
  predicate Parts(before: string, stopped: bool, gap: string, after: string) {
    if stopped || Stops(before) then AllSpace(gap) && (after == [] || !IsSpace(after[0]))
    else AllNewlines(gap) && (after == [] || after[0] != '\n')
  }

  lemma {:induction false} SpaceRunShape(s: string)
    ensures forall i :: 0 <= i < SpaceRun(s) ==> IsSpace(s[i])
    ensures SpaceRun(s) < |s| ==> !IsSpace(s[SpaceRun(s)])
  {
    hide IsSpace;
    if s != [] && IsSpace(s[0]) {
      SpaceRunShape(s[1..]);
    }
  }

  lemma {:induction false} NewlineRunShape(s: string)
    ensures forall i :: 0 <= i < NewlineRun(s) ==> s[i] == '\n'
    ensures NewlineRun(s) < |s| ==> s[NewlineRun(s)] != '\n'
  {
    if s != [] && s[0] == '\n' {
      NewlineRunShape(s[1..]);
    }
  }

  /** Pieces with gaps between them that make up the text; the first piece, where it is empty, counts
      as stopped if the text before it was. */
  predicate Tiles(pieces: seq<string>, gaps: seq<string>, s: string, stopped: bool) {
    && |pieces| == |gaps| + 1 && Interleaved(pieces, gaps) == s
    && forall i :: 0 <= i < |gaps| ==> Parts(pieces[i], i == 0 && pieces[0] == [] && stopped, gaps[i], pieces[i + 1])
  }

  lemma FirstOf(pieces: seq<string>, gaps: seq<string>)
    requires |pieces| == |gaps| + 1 && pieces[0] != []
    ensures Interleaved(pieces, gaps) != [] && Interleaved(pieces, gaps)[0] == pieces[0][0]
  {
  }

  lemma GapInFront(gap: string, pieces: seq<string>, gaps: seq<string>, s: string, stopped: bool)
    requires Tiles(pieces, gaps, s, false)
    requires if stopped then AllSpace(gap) && (s == [] || !IsSpace(s[0]))
             else AllNewlines(gap) && (s == [] || s[0] != '\n')
    ensures Tiles([""] + pieces, [gap] + gaps, gap + s, stopped)
  {
    hide IsSpace, AllSpace, AllNewlines;
    if pieces[0] != [] {
      FirstOf(pieces, gaps);
    }
    var ps, gs := [""] + pieces, [gap] + gaps;
    assert ps[1..] == pieces && gs[1..] == gaps;
    assert Interleaved(ps, gs) == "" + gap + Interleaved(pieces, gaps);
    forall i | 0 <= i < |gs|
      ensures Parts(ps[i], i == 0 && ps[0] == [] && stopped, gs[i], ps[i + 1])
    {
      if i > 0 {
        assert ps[i] == pieces[i - 1] && gs[i] == gaps[i - 1] && ps[i + 1] == pieces[i];
      }
    }
  }

  lemma CharInFront(c: char, pieces: seq<string>, gaps: seq<string>, s: string, stopped: bool)
    requires Tiles(pieces, gaps, s, c in ['.', '!', '?'])
    ensures Tiles([[c] + pieces[0]] + pieces[1..], gaps, [c] + s, stopped)
  {
    hide IsSpace, AllSpace, AllNewlines;
    var ps := [[c] + pieces[0]] + pieces[1..];
    assert ps[1..] == pieces[1..];
    if gaps != [] {
      assert [c] + pieces[0] + gaps[0] + Interleaved(pieces[1..], gaps[1..])
        == [c] + (pieces[0] + gaps[0] + Interleaved(pieces[1..], gaps[1..]));
    }
    assert Stops([c] + pieces[0]) <==> if pieces[0] == [] then c in ['.', '!', '?'] else Stops(pieces[0]);
  }

  /** Nothing is lost: the pieces with the gaps between them are the text, and every gap is one the
      pattern matches in full. */
  lemma {:induction false} CutTiles(s: string, stopped: bool)
    ensures Tiles(Cut(s, stopped), Gaps(s, stopped), s, stopped)
    decreases |s|
  {
    hide IsSpace, Tiles;
    if s == [] {
      NothingTiles(stopped);
    } else if stopped && IsSpace(s[0]) {
      var n := SpaceRun(s);
      SpaceRunShape(s);
      CutTiles(s[n..], false);
      GapInFront(s[..n], Cut(s[n..], false), Gaps(s[n..], false), s[n..], true);
      assert s == s[..n] + s[n..];
    } else if s[0] == '\n' {
      var n := NewlineRun(s);
      NewlineRunShape(s);
      CutTiles(s[n..], false);
      NewlineIsSpace();
      GapInFront(s[..n], Cut(s[n..], false), Gaps(s[n..], false), s[n..], false);
      assert s == s[..n] + s[n..];
      assert !stopped;
    } else {
      CutTiles(s[1..], IsTerminator(s[0]));
      CharInFront(s[0], Cut(s[1..], IsTerminator(s[0])), Gaps(s[1..], IsTerminator(s[0])), s[1..], stopped);
      assert s == [s[0]] + s[1..];
    }
  }

  lemma NewlineIsSpace()
    ensures IsSpace('\n')
  {
  }

  lemma NothingTiles(stopped: bool)
    ensures Tiles([""], [], "", stopped)
  {
  }
}
