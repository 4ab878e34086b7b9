/** `splitSqlStatements` of `scripts/apply-schema.ts`: the index loop with its lookaheads, proved
    against a lexer that recurses on suffixes, and proved to undo joining with ";". */
module SqlSplitter {
  import opened Options
  import opened Text

  datatype Outcome = Statements(list: seq<string>) | UnterminatedQuote

  datatype Mode = Plain | SingleQuoted | DoubleQuoted | Dollar(tag: string)

  predicate TagChar(c: char) {
    'A' <= c <= 'Z' || 'a' <= c <= 'z' || '0' <= c <= '9' || c == '_'
  }

  function TagRun(s: string): (n: nat)
    ensures n <= |s|
  {
    if s != [] && TagChar(s[0]) then 1 + TagRun(s[1..]) else 0
  }

  /** The match of `^\$[A-Za-z_0-9]*\$` against a suffix. */
  function DollarTag(s: string): (tag: Option<string>)
    ensures tag.Some? ==> 2 <= |tag.value| <= |s|
  {
    if s == [] || s[0] != '$' then
      None
    else
      var n := TagRun(s[1..]);
      if 1 + n < |s| && s[1 + n] == '$' then Some(s[..n + 2]) else None
  }

  datatype Token = Token(length: nat, next: Mode, separator: bool)

  /** The next token of a nonempty suffix. */
  function NextToken(s: string, mode: Mode): (t: Token)
    requires s != [] && (mode.Dollar? ==> mode.tag != [])
    ensures 1 <= t.length <= |s| && (t.next.Dollar? ==> t.next.tag != [])
    ensures t.separator ==> t == Token(1, Plain, true) && s[0] == ';'
  {
    var c := s[0];
    match mode
    case Dollar(tag) =>
      if tag <= s then Token(|tag|, Plain, false) else Token(1, mode, false)
    case SingleQuoted =>
      if c != '\'' then Token(1, mode, false)
      else if 1 < |s| && s[1] == '\'' then Token(2, mode, false)
      else Token(1, Plain, false)
    case DoubleQuoted =>
      if c != '"' then Token(1, mode, false)
      else if 1 < |s| && s[1] == '"' then Token(2, mode, false)
      else Token(1, Plain, false)
    case Plain =>
      if c == '\'' then Token(1, SingleQuoted, false)
      else if c == '"' then Token(1, DoubleQuoted, false)
      else if c == ';' then Token(1, Plain, true)
      else
        match DollarTag(s)
        case Some(tag) => Token(|tag|, Dollar(tag), false)
        case None => Token(1, Plain, false)
  }

  /** The raw pieces between top-level semicolons, and the mode at the end. */
  datatype Lexed = Lexed(pieces: seq<string>, mode: Mode)

  function Lex(s: string, mode: Mode): (r: Lexed)
    requires mode.Dollar? ==> mode.tag != []
    ensures r.pieces != []
    decreases |s|
  {
    if s == [] then
      Lexed([""], mode)
    else
      var t := NextToken(s, mode);
      var rest := Lex(s[t.length..], t.next);
      if t.separator then
        Lexed([""] + rest.pieces, rest.mode)
      else
        Lexed([s[..t.length] + rest.pieces[0]] + rest.pieces[1..], rest.mode)
  }

  lemma LexUnfolds(s: string, mode: Mode)
    requires mode.Dollar? ==> mode.tag != []
    ensures s == [] ==> Lex(s, mode) == Lexed([""], mode)
    ensures s != [] ==>
      var t := NextToken(s, mode);
      var rest := Lex(s[t.length..], t.next);
      Lex(s, mode) ==
        if t.separator then Lexed([""] + rest.pieces, rest.mode)
        else Lexed([s[..t.length] + rest.pieces[0]] + rest.pieces[1..], rest.mode)
  {
  }

  /** What splitting means: an error iff the lexer ends inside a quote, else the nonempty trimmed
      pieces in order. */
  function Split(s: string): Outcome {
    var lexed := Lex(s, Plain);
    if lexed.mode == Plain then Statements(TrimmedNonEmpty(lexed.pieces)) else UnterminatedQuote
  }

  function Join(list: seq<string>): string {
    if list == [] then "" else if |list| == 1 then list[0] else list[0] + ";" + Join(list[1..])
  }

  // ---- the source's loop ----

  /** The state of the loop: pieces already cut, the statement being built, and what the rest of
      the input adds to them. */
  ghost predicate Progress(whole: Lexed, cut: seq<string>, statement: string, rest: Lexed)
    requires rest.pieces != []
  {
    && whole.mode == rest.mode
    && whole.pieces == cut + [statement + rest.pieces[0]] + rest.pieces[1..]
  }

  lemma ProgressOnSuffix(whole: Lexed, cut: seq<string>, statement: string, s: string, mode: Mode)
    requires s != [] && (mode.Dollar? ==> mode.tag != [])
    requires Progress(whole, cut, statement, Lex(s, mode))
    ensures var t := NextToken(s, mode);
            if t.separator then
              Progress(whole, cut + [statement], "", Lex(s[1..], Plain))
            else
              Progress(whole, cut, statement + s[..t.length], Lex(s[t.length..], t.next))
  {
    hide Progress, NextToken, Lex;
    LexUnfolds(s, mode);
    var t := NextToken(s, mode);
    if t.separator {
      ProgressCut(whole, cut, statement, Lex(s[t.length..], t.next));
    } else {
      ProgressJoin(whole, cut, statement, s[..t.length], Lex(s[t.length..], t.next));
    }
  }

  lemma ProgressCut(whole: Lexed, cut: seq<string>, statement: string, rest: Lexed)
    requires rest.pieces != [] && Progress(whole, cut, statement, Lexed([""] + rest.pieces, rest.mode))
    ensures Progress(whole, cut + [statement], "", rest)
  {
    var first, others := rest.pieces[0], rest.pieces[1..];
    assert statement + "" == statement && "" + first == first;
    assert ([""] + rest.pieces)[1..] == rest.pieces == [first] + others;
  }

  lemma ProgressJoin(whole: Lexed, cut: seq<string>, statement: string, head: string, rest: Lexed)
    requires rest.pieces != []
    requires Progress(whole, cut, statement, Lexed([head + rest.pieces[0]] + rest.pieces[1..], rest.mode))
    ensures Progress(whole, cut, statement + head, rest)
  {
    assert statement + (head + rest.pieces[0]) == (statement + head) + rest.pieces[0];
    assert ([head + rest.pieces[0]] + rest.pieces[1..])[1..] == rest.pieces[1..];
  }

  lemma SliceOfSuffix(s: string, index: nat, n: nat)
    requires index + n <= |s|
    ensures s[index..][n..] == s[index + n..] && s[index..][..n] == s[index..index + n]
  {
  }

  ghost predicate Reached(s: string, index: nat, mode: Mode, cut: seq<string>, statement: string) {
    && index <= |s|
    && (mode.Dollar? ==> mode.tag != [])
    && Progress(Lex(s, Plain), cut, statement, Lex(s[index..], mode))
  }

  lemma ReachedStart(s: string)
    ensures Reached(s, 0, Plain, [], "")
  {
    var whole := Lex(s, Plain);
    assert s[0..] == s && "" + whole.pieces[0] == whole.pieces[0];
    assert whole.pieces == [] + [whole.pieces[0]] + whole.pieces[1..];
  }

  lemma ReachedEnd(s: string, mode: Mode, cut: seq<string>, statement: string)
    requires Reached(s, |s|, mode, cut, statement)
    ensures Lex(s, Plain) == Lexed(cut + [statement], mode)
  {
    assert s[|s|..] == [] && statement + "" == statement;
  }

  /** One turn of the loop at `index`: the token's text joins the statement, or a separator cuts it. */
  lemma ReachedStep(s: string, index: nat, mode: Mode, cut: seq<string>, statement: string)
    requires index < |s| && Reached(s, index, mode, cut, statement)
    ensures mode.Dollar? ==> mode.tag != []
    ensures var t := NextToken(s[index..], mode); var next := index + t.length;
            if t.separator then Reached(s, next, Plain, cut + [statement], "")
            else Reached(s, next, t.next, cut, statement + s[index..next])
  {
    hide Lex, Progress, NextToken;
    ProgressOnSuffix(Lex(s, Plain), cut, statement, s[index..], mode);
    SliceOfSuffix(s, index, NextToken(s[index..], mode).length);
  }

  /** The token at `index`, with its text as the source appends it. */
  lemma TokenAt(s: string, index: nat, mode: Mode)
    requires index < |s| && (mode.Dollar? ==> mode.tag != [])
    ensures var rest, c := s[index..], s[index];
            var t := NextToken(rest, mode);
            var doubled := index + 1 < |s| && s[index + 1] == c;
            && (t.length == 1 ==> s[index..index + 1] == [c])
            && match mode
               case Dollar(tag) =>
                 if tag <= rest then
                   t == Token(|tag|, Plain, false) && s[index..index + |tag|] == tag
                 else
                   t == Token(1, mode, false)
               case SingleQuoted =>
                 if c != '\'' then t == Token(1, mode, false)
                 else if doubled then t == Token(2, mode, false) && s[index..index + 2] == [c] + [s[index + 1]]
                 else t == Token(1, Plain, false)
               case DoubleQuoted =>
                 if c != '"' then t == Token(1, mode, false)
                 else if doubled then t == Token(2, mode, false) && s[index..index + 2] == [c] + [s[index + 1]]
                 else t == Token(1, Plain, false)
               case Plain =>
                 if c == '\'' then t == Token(1, SingleQuoted, false)
                 else if c == '"' then t == Token(1, DoubleQuoted, false)
                 else if c == ';' then t == Token(1, Plain, true)
                 else if c == '$' && DollarTag(rest).Some? then
                   var tag := DollarTag(rest).value;
                   t == Token(|tag|, Dollar(tag), false) && s[index..index + |tag|] == tag
                 else t == Token(1, Plain, false)
  {
    var rest := s[index..];
    if mode.Dollar? && mode.tag <= rest {
      assert s[index..index + |mode.tag|] == rest[..|mode.tag|];
    }
    if mode.Plain? && DollarTag(rest).Some? {
      var n := |DollarTag(rest).value|;
      assert s[index..index + n] == rest[..n];
    }
  }

  method SplitSqlStatements(fragment: string) returns (r: Outcome)
    ensures r == Split(fragment)
  {
    hide Reached, NextToken, Lex, TrimmedNonEmpty, Trim, DollarTag;
    var statements: seq<string> := [];
    var statement := "";
    var singleQuoted, doubleQuoted := false, false;
    var dollarTag: Option<string> := None;
    ghost var cut: seq<string> := [];
    ghost var mode := Plain;
    ReachedStart(fragment);
    NothingTrimmed();
    var index := 0;
    while index < |fragment|
      invariant 0 <= index <= |fragment|
      invariant singleQuoted <==> mode == SingleQuoted
      invariant doubleQuoted <==> mode == DoubleQuoted
      invariant dollarTag == if mode.Dollar? then Some(mode.tag) else None
      invariant Reached(fragment, index, mode, cut, statement)
      invariant statements == TrimmedNonEmpty(cut)
      decreases |fragment| - index
    {
      var character := fragment[index];
      ghost var before := statement;
      ReachedStep(fragment, index, mode, cut, statement);
      TokenAt(fragment, index, mode);
      mode := NextToken(fragment[index..], mode).next;

      if dollarTag.Some? {
        if dollarTag.value <= fragment[index..] {
          statement := statement + dollarTag.value;
          index := index + |dollarTag.value|;
          dollarTag := None;
        } else {
          statement := statement + [character];
          index := index + 1;
        }
        continue;
      }
      if singleQuoted {
        statement := statement + [character];
        if character == '\'' && index + 1 < |fragment| && fragment[index + 1] == '\'' {
          statement := statement + [fragment[index + 1]];
          assert statement == before + ([character] + [fragment[index + 1]]);
          index := index + 1;
        } else if character == '\'' {
          singleQuoted := false;
        }
        index := index + 1;
        continue;
      }
      if doubleQuoted {
        statement := statement + [character];
        if character == '"' && index + 1 < |fragment| && fragment[index + 1] == '"' {
          statement := statement + [fragment[index + 1]];
          assert statement == before + ([character] + [fragment[index + 1]]);
          index := index + 1;
        } else if character == '"' {
          doubleQuoted := false;
        }
        index := index + 1;
        continue;
      }
      if character == '\'' {
        singleQuoted := true;
        statement := statement + [character];
        index := index + 1;
        continue;
      }
      if character == '"' {
        doubleQuoted := true;
        statement := statement + [character];
        index := index + 1;
        continue;
      }
      if character == '$' {
        var tag := DollarTag(fragment[index..]);
        if tag.Some? {
          dollarTag := tag;
          statement := statement + tag.value;
          index := index + |tag.value|;
          continue;
        }
      }
      if character == ';' {
        var trimmed := Trim(statement);
        TrimmedOfAppend(cut, statement);
        cut := cut + [statement];
        if trimmed != [] {
          statements := statements + [trimmed];
        }
        statement := "";
        index := index + 1;
        continue;
      }
      statement := statement + [character];
      index := index + 1;
    }
    ReachedEnd(fragment, mode, cut, statement);
    if singleQuoted || doubleQuoted || dollarTag.Some? {
      return UnterminatedQuote;
    }
    var trailing := Trim(statement);
    TrimmedOfAppend(cut, statement);
    if trailing != [] {
      statements := statements + [trailing];
    }
    r := Statements(statements);
  }

  lemma NothingTrimmed()
    ensures TrimmedNonEmpty([]) == []
  {
  }

  // ---- nothing is lost: the raw pieces rejoin to the input ----

  lemma Reassociate(a: string, b: string, c: string, d: string)
    ensures (a + b) + c + d == a + (b + c + d) && (a + b) + c + d == (a + b) + (c + d)
  {
  }

  lemma JoinPrefix(x: string, list: seq<string>)
    requires list != []
    ensures Join([x + list[0]] + list[1..]) == x + Join(list)
    ensures Join([""] + list) == ";" + Join(list)
  {
    assert ([""] + list)[1..] == list;
    assert "" + ";" == ";";
    assert ([x + list[0]] + list[1..])[1..] == list[1..];
    Reassociate(x, list[0], ";", Join(list[1..]));
  }

  lemma JoinOne(x: string)
    ensures Join([x]) == x
  {
  }

  lemma {:induction false} PiecesRejoin(s: string, mode: Mode)
    requires mode.Dollar? ==> mode.tag != []
    ensures Join(Lex(s, mode).pieces) == s
    decreases |s|
  {
    hide Lex, NextToken, Join;
    LexUnfolds(s, mode);
    if s == [] {
      JoinOne("");
    } else {
      var t := NextToken(s, mode);
      var rest := Lex(s[t.length..], t.next).pieces;
      PiecesRejoin(s[t.length..], t.next);
      JoinPrefix(s[..t.length], rest);
      assert s == s[..t.length] + s[t.length..];
      if t.separator {
        assert s[..1] == ";";
      }
    }
  }

  // ---- lookahead never crosses a semicolon or white space ----

  /** Characters no multi-character token contains past its first position. */
  predicate Neutral(c: char) {
    c == ';' || IsSpace(c)
  }

  predicate BoundedBy(t: string) {
    t == [] || Neutral(t[0])
  }

  predicate WellFormed(mode: Mode) {
    mode.Dollar? ==> mode.tag != [] && forall i :: 0 <= i < |mode.tag| ==> !Neutral(mode.tag[i])
  }

  lemma {:induction false} TagRunIsTagChars(s: string)
    ensures forall i :: 0 <= i < TagRun(s) ==> TagChar(s[i])
  {
    if s != [] && TagChar(s[0]) {
      TagRunIsTagChars(s[1..]);
    }
  }

  lemma {:induction false} TagRunStops(p: string, t: string)
    requires BoundedBy(t)
    ensures TagRun(p + t) == TagRun(p)
  {
    if p == [] {
      assert p + t == t;
    } else {
      assert (p + t)[1..] == p[1..] + t;
      TagRunStops(p[1..], t);
    }
  }

  lemma DollarTagLocal(p: string, t: string)
    requires p != [] && BoundedBy(t)
    ensures DollarTag(p + t) == DollarTag(p)
    ensures DollarTag(p).Some? ==> WellFormed(Dollar(DollarTag(p).value))
  {
    hide TagRun;
    assert (p + t)[1..] == p[1..] + t;
    TagRunStops(p[1..], t);
    TagRunIsTagChars(p[1..]);
    if DollarTag(p).Some? {
      var n := TagRun(p[1..]);
      assert (p + t)[..n + 2] == p[..n + 2];
      assert forall i :: 1 <= i < n + 1 ==> p[i] == p[1..][i - 1];
    }
  }

  lemma PrefixCrosses(tag: string, p: string, t: string)
    requires tag <= p + t && |p| < |tag|
    ensures t != [] && tag[|p|] == t[0]
  {
    assert (p + t)[|p|] == t[0];
  }

  lemma TagPrefixLocal(tag: string, p: string, t: string)
    requires WellFormed(Dollar(tag)) && BoundedBy(t)
    ensures tag <= p + t <==> tag <= p
  {
    if tag <= p + t && |p| < |tag| {
      PrefixCrosses(tag, p, t);
    }
  }

  lemma TokenLocal(p: string, t: string, mode: Mode)
    requires p != [] && BoundedBy(t) && WellFormed(mode)
    ensures NextToken(p + t, mode) == NextToken(p, mode)
    ensures WellFormed(NextToken(p, mode).next)
  {
    assert (p + t)[0] == p[0];
    DollarTagLocal(p, t);
    if mode.Dollar? {
      TagPrefixLocal(mode.tag, p, t);
    }
    hide DollarTag;
  }

  function Append(a: Lexed, b: Lexed): Lexed
    requires a.pieces != [] && b.pieces != []
  {
    var last := |a.pieces| - 1;
    Lexed(a.pieces[..last] + [a.pieces[last] + b.pieces[0]] + b.pieces[1..], b.mode)
  }

  lemma AppendStep(head: string, separator: bool, a: Lexed, b: Lexed)
    requires a.pieces != [] && b.pieces != []
    ensures Append(Lexed([""] + a.pieces, a.mode), b).pieces == [""] + Append(a, b).pieces
    ensures Append(Lexed([head + a.pieces[0]] + a.pieces[1..], a.mode), b).pieces
         == [head + Append(a, b).pieces[0]] + Append(a, b).pieces[1..]
  {
    if |a.pieces| == 1 {
      assert (head + a.pieces[0]) + b.pieces[0] == head + (a.pieces[0] + b.pieces[0]);
    }
  }

  /** Reading `p` and then `t` is reading `p + t`, when `t` starts at a bounding character. */
  lemma {:induction false} LexOfConcat(p: string, t: string, mode: Mode)
    requires BoundedBy(t) && WellFormed(mode)
    ensures WellFormed(Lex(p, mode).mode)
    ensures Lex(p + t, mode) == Append(Lex(p, mode), Lex(t, Lex(p, mode).mode))
    decreases |p|
  {
    if p == [] {
      assert p + t == t;
      var b := Lex(t, mode);
      assert "" + b.pieces[0] == b.pieces[0];
      assert [] + [b.pieces[0]] + b.pieces[1..] == b.pieces;
    } else {
      TokenLocal(p, t, mode);
      var k := NextToken(p, mode);
      assert (p + t)[k.length..] == p[k.length..] + t && (p + t)[..k.length] == p[..k.length];
      LexOfConcat(p[k.length..], t, k.next);
      hide NextToken;
      var a := Lex(p[k.length..], k.next);
      AppendStep(p[..k.length], k.separator, a, Lex(t, a.mode));
    }
  }

  // ---- closed statements ----

  /** No quote left open and no semicolon outside quotes: the lexer sees one single piece. */
  predicate Closed(s: string) {
    Lex(s, Plain) == Lexed([s], Plain)
  }

  /** Lexing a string cuts off its first piece exactly at a semicolon the rest does not see. */
  lemma {:induction false} FirstPiece(s: string, mode: Mode) returns (rest: string)
    requires WellFormed(mode)
    requires |Lex(s, mode).pieces| > 1
    ensures var lexed := Lex(s, mode); var p := lexed.pieces[0];
            && s == p + ";" + rest
            && Lex(p, mode) == Lexed([p], Plain)
            && Lex(rest, Plain) == Lexed(lexed.pieces[1..], lexed.mode)
    decreases |s|
  {
    hide Lex, NextToken;
    LexUnfolds(s, mode);
    var t := NextToken(s, mode);
    assert s + "" == s;
    TokenLocal(s, "", mode);
    if t.separator {
      rest := s[1..];
      SeparatorIsPlain(s, mode);
      LexUnfolds("", Plain);
      assert s == ";" + rest && "" + ";" == ";";
    } else {
      rest := FirstPiece(s[t.length..], t.next);
      var head, tail := s[..t.length], s[t.length..];
      var q := Lex(tail, t.next).pieces[0];
      assert s == head + tail;
      Reassociate(head, q, ";", rest);
      PieceGrows(head, q, ";" + rest, mode);
    }
  }

  lemma SeparatorIsPlain(s: string, mode: Mode)
    requires s != [] && WellFormed(mode) && NextToken(s, mode).separator
    ensures mode == Plain
  {
  }

  /** One token more in front of a piece that a semicolon ends. */
  lemma PieceGrows(head: string, q: string, after: string, mode: Mode)
    requires WellFormed(mode) && head != [] && BoundedBy(after)
    requires var t := NextToken(head + q + after, mode);
      !t.separator && t.length == |head| && WellFormed(t.next) && Lex(q, t.next) == Lexed([q], Plain)
    ensures Lex(head + q, mode) == Lexed([head + q], Plain)
  {
    hide Lex, NextToken;
    var p := head + q;
    TokenLocal(p, after, mode);
    LexUnfolds(p, mode);
    assert p[|head|..] == q && p[..|head|] == head;
  }

  lemma {:induction false} PiecesAreClosed(s: string)
    requires Lex(s, Plain).mode == Plain
    ensures forall i :: 0 <= i < |Lex(s, Plain).pieces| ==> Closed(Lex(s, Plain).pieces[i])
    decreases |s|
  {
    var pieces := Lex(s, Plain).pieces;
    PiecesRejoin(s, Plain);
    if |pieces| > 1 {
      var rest := FirstPiece(s, Plain);
      PiecesAreClosed(rest);
    } else {
      assert pieces == [s];
    }
  }

  lemma {:induction false} TrimStartKeepsClosed(s: string)
    requires Closed(s)
    ensures Closed(TrimStart(s))
  {
    if s != [] && IsSpace(s[0]) {
      var rest := Lex(s[1..], Plain);
      assert NextToken(s, Plain) == Token(1, Plain, false);
      PiecesRejoin(s[1..], Plain);
      assert rest.pieces == [rest.pieces[0]];
      TrimStartKeepsClosed(s[1..]);
    }
  }

  lemma SpaceKeepsMode(c: char, mode: Mode)
    requires IsSpace(c) && WellFormed(mode)
    ensures Lex([c], mode) == Lexed([[c]], mode)
  {
    assert NextToken([c], mode) == Token(1, mode, false) by {
      if mode.Dollar? {
        assert mode.tag[0] != c;
      }
    }
    assert [c][1..] == "" && [c][..1] == [c] && [c] + "" == [c];
  }

  lemma {:induction false} TrimEndKeepsClosed(s: string)
    requires Closed(s)
    ensures Closed(TrimEnd(s))
  {
    if s != [] && IsSpace(s[|s| - 1]) {
      var p, c := s[..|s| - 1], s[|s| - 1];
      assert s == p + [c];
      LexOfConcat(p, [c], Plain);
      SpaceKeepsMode(c, Lex(p, Plain).mode);
      PiecesRejoin(p, Plain);
      TrimEndKeepsClosed(p);
    }
  }

  lemma {:induction false} TrimmedAreClosed(pieces: seq<string>)
    requires forall i :: 0 <= i < |pieces| ==> Closed(pieces[i])
    ensures forall i :: 0 <= i < |TrimmedNonEmpty(pieces)| ==> Presentable(TrimmedNonEmpty(pieces)[i])
  {
    if pieces != [] {
      TrimStartKeepsClosed(pieces[0]);
      TrimEndKeepsClosed(TrimStart(pieces[0]));
      TrimIdempotent(pieces[0]);
      TrimmedAreClosed(pieces[1..]);
      hide Closed, Trim;
    }
  }

  /** A statement the splitter may return: trimmed, nonempty, closed. */
  predicate Presentable(s: string) {
    s != [] && Trim(s) == s && Closed(s)
  }

  /** Every statement returned is nonempty, trimmed, and has no semicolon outside its quotes. */
  lemma SplitIsPresentable(s: string)
    requires Split(s).Statements?
    ensures forall i :: 0 <= i < |Split(s).list| ==> Presentable(Split(s).list[i])
  {
    PiecesAreClosed(s);
    TrimmedAreClosed(Lex(s, Plain).pieces);
  }

  // ---- splitting undoes joining ----

  /** Joining closed pieces and lexing gives exactly those pieces back, trimmed or not. */
  lemma {:induction false} LexOfJoin(list: seq<string>)
    requires list != [] && forall i :: 0 <= i < |list| ==> Closed(list[i])
    ensures Lex(Join(list), Plain) == Lexed(list, Plain)
  {
    hide Lex, NextToken, Join, Append;
    assert Closed(list[0]);
    var x, others := list[0], list[1..];
    assert list == [x] + others;
    JoinUnfolds(list);
    if others != [] {
      LexOfJoin(others);
      LexOfConcat(x, ";" + Join(others), Plain);
      LexOfSemicolon(Join(others));
      AppendClosed(x, others);
    }
  }

  lemma JoinUnfolds(list: seq<string>)
    requires list != []
    ensures list[1..] == [] ==> Join(list) == list[0]
    ensures list[1..] != [] ==> Join(list) == list[0] + (";" + Join(list[1..]))
  {
    if |list| > 1 {
      assert list[0] + ";" + Join(list[1..]) == list[0] + (";" + Join(list[1..]));
    }
  }

  lemma AppendClosed(x: string, others: seq<string>)
    ensures Append(Lexed([x], Plain), Lexed([""] + others, Plain)) == Lexed([x] + others, Plain)
  {
    assert x + "" == x && ([""] + others)[1..] == others && [x][..0] == [];
  }

  lemma LexOfSemicolon(s: string)
    ensures Lex(";" + s, Plain) == Lexed([""] + Lex(s, Plain).pieces, Lex(s, Plain).mode)
  {
    assert NextToken(";" + s, Plain) == Token(1, Plain, true);
    assert (";" + s)[1..] == s;
  }

  lemma {:induction false} PresentableUntouched(list: seq<string>)
    requires forall i :: 0 <= i < |list| ==> Presentable(list[i])
    ensures TrimmedNonEmpty(list) == list
  {
    if list != [] {
      PresentableUntouched(list[1..]);
      assert Presentable(list[0]);
      hide Trim, Closed;
    }
  }

  lemma SplitUndoesJoin(list: seq<string>)
    requires forall i :: 0 <= i < |list| ==> Presentable(list[i])
    ensures Split(Join(list)) == Statements(list)
  {
    if list == [] {
      assert Trim("") == "" && TrimmedNonEmpty([""]) == [];
    } else {
      LexOfJoin(list);
      PresentableUntouched(list);
    }
  }

  /** Splitting, joining and splitting again changes nothing. */
  lemma SplitIdempotent(s: string)
    requires Split(s).Statements?
    ensures Split(Join(Split(s).list)) == Split(s)
  {
    SplitIsPresentable(s);
    SplitUndoesJoin(Split(s).list);
  }

  /** The cut is the only one possible: any way of writing the input as closed pieces joined with
      ";" is the lexer's, and there is one iff the splitter does not throw. */
  lemma CutIsUnique(s: string, pieces: seq<string>)
    requires pieces != []
    ensures (s == Join(pieces) && forall i :: 0 <= i < |pieces| ==> Closed(pieces[i]))
       <==> Lex(s, Plain) == Lexed(pieces, Plain)
  {
    if s == Join(pieces) && forall i :: 0 <= i < |pieces| ==> Closed(pieces[i]) {
      LexOfJoin(pieces);
    }
    if Lex(s, Plain) == Lexed(pieces, Plain) {
      PiecesRejoin(s, Plain);
      PiecesAreClosed(s);
    }
  }
}
