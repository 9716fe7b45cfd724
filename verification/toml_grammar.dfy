/**
 Documents by their grammar, without the lexer: statements made of plain text, strings
 and brackets, comments behind them, and lines of white space and comments.  The lexer
 finds exactly the statements that were written.
 */
module TomlGrammar {
  import opened Wrappers
  import opened Scanner
  import opened TomlLexer
  import opened TomlComposition
  import opened TomlValues
  import opened TomlEdit

  // ---- the grammar ----

  /** A string has a body between two marks; a group has brackets around pieces; a comment runs to the end of its line. */
  datatype Piece =
    | Bare(text: string)
    | Quoted(kind: Quote, body: string)
    | Group(square: bool, inner: seq<Piece>)
    | Break(nl: string)
    | Comment(text: string, nl: string)

  /** The four marks around strings. */
  function Mark(kind: Quote): string {
    match kind
    case NoQuote => ""
    case Basic => "\""
    case Literal => "'"
    case MultiBasic => "\"\"\""
    case MultiLiteral => "'''"
  }

  predicate IsEnd(nl: string) { nl == "\n" || nl == "\r\n" || nl == "\r" }

  predicate OneLine(text: string) { forall k | 0 <= k < |text| :: !IsNewline(text[k]) }

  /** The closing mark does not begin in the body, where a backslash shields what is behind it. */
  predicate Holds(body: string, mark: string, shields: bool) {
    body == "" ||
    if shields && body[0] == '\\' then |body| > 1 && Holds(body[2..], mark, shields)
    else !(mark <= body + mark) && Holds(body[1..], mark, shields)
  }

  predicate Shields(kind: Quote) { kind == Basic || kind == MultiBasic }

  function TextOf(p: Piece): string
    decreases p, 0
  {
    match p
    case Bare(text) => text
    case Quoted(kind, body) => Mark(kind) + body + Mark(kind)
    case Group(square, inner) => if square then "[" + TextsOf(inner) + "]" else "{" + TextsOf(inner) + "}"
    case Break(nl) => nl
    case Comment(text, nl) => "#" + text + nl
  }

  function TextsOf(ps: seq<Piece>): string
    decreases ps, 1
  {
    if ps == [] then "" else TextOf(ps[0]) + TextsOf(ps[1..])
  }

  /** Line ends and comments are allowed inside brackets only. */
  predicate IsPiece(p: Piece, inside: bool)
    decreases p, 0
  {
    match p
    case Bare(text) => forall k | 0 <= k < |text| :: Plain(text[k])
    case Quoted(kind, body) => kind != NoQuote && Holds(body, Mark(kind), Shields(kind))
    case Group(_, inner) => ArePieces(inner, true)
    case Break(nl) => inside && IsEnd(nl)
    case Comment(text, nl) => inside && OneLine(text) && IsEnd(nl)
  }

  /** No quote stands directly behind another piece. */
  predicate ArePieces(ps: seq<Piece>, inside: bool)
    decreases ps, 1
  {
    ps == [] || (IsPiece(ps[0], inside) && ArePieces(ps[1..], inside) && NoQuoteAhead(TextsOf(ps[1..])))
  }

  predicate NoQuoteAhead(t: string) { Quiet(t, 0) }

  // ---- what a text leaves ----

  /** Inside brackets line ends close nothing. */
  predicate Enclosed(s: State<Mode>) { s.mode.square + s.mode.curly > 0 }

  /** Wherever r stands inside a statement, no quote behind it, the lexer is as it was before. */
  ghost predicate Leaves(r: string, inside: bool) {
    forall t, i: nat, s :: At(t, i, r) && Open(s) && (inside ==> Enclosed(s)) && Quiet(t, i + |r|) ==>
      Passes(React, t, i, s, i + |r|, s)
  }

  lemma LeavesNeutral(r: string, inside: bool)
    requires Neutral(r)
    ensures Leaves(r, inside)
  {
  }

  lemma LeavesBoth(a: string, b: string, inside: bool)
    requires Leaves(a, inside) && Leaves(b, inside) && NoQuoteAhead(b)
    ensures Leaves(a + b, inside)
  {
    hide React, Passes;
    var r := a + b;
    forall t, i: nat, s | At(t, i, r) && Open(s) && (inside ==> Enclosed(s)) && Quiet(t, i + |r|)
      ensures Passes(React, t, i, s, i + |r|, s) {
      AtSplit(t, i, a, b);
      assert Quiet(t, i + |a|);
      PassThen(React, t, i, s, i + |a|, s, i + |r|, s);
    }
  }

  // ---- strings ----

  function Within(s: State<Mode>, kind: Quote): State<Mode> { s.(mode := s.mode.(quote := kind)) }

  lemma MarkShape(kind: Quote)
    requires kind != NoQuote
    ensures var mark := Mark(kind);
            && (mark == "\"" || mark == "'" || mark == "\"\"\"" || mark == "'''")
            && (|mark| == 3 <==> kind == MultiBasic || kind == MultiLiteral) && (mark[0] == '"' <==> Shields(kind))
  {
  }

  /** A character of a string that neither shields nor begins the closing mark. */
  lemma PassContent(t: string, i: nat, s: State<Mode>, kind: Quote)
    requires i < |t| && Open(s) && kind != NoQuote && !(Shields(kind) && t[i] == '\\') && !At(t, i, Mark(kind))
    ensures Passes(React, t, i, Within(s, kind), i + 1, Within(s, kind))
  {
    var q, mark := Within(s, kind), Mark(kind);
    if |mark| == 3 {
      assert Triple(t[i], Peek(t, i + 1), Peek(t, i + 2), mark[0]) ==> At(t, i, mark);
    } else {
      assert t[i] == mark[0] ==> At(t, i, mark);
    }
    assert Step(React, t, i, q) == Move(q, i + 1, None);
    PassStep(React, t, i, q);
  }

  lemma PassShielded(t: string, i: nat, s: State<Mode>, kind: Quote)
    requires i + 1 < |t| && Open(s) && Shields(kind) && t[i] == '\\'
    ensures Passes(React, t, i, Within(s, kind), i + 2, Within(s, kind))
  {
    var q := Within(s, kind);
    var e := q.(mode := q.mode.(escaped := true));
    assert Step(React, t, i, q) == Move(e, i + 1, None);
    assert Step(React, t, i + 1, e) == Move(q, i + 2, None);
    PassStep(React, t, i, q);
    PassStep(React, t, i + 1, e);
    PassThen(React, t, i, q, i + 1, e, i + 2, q);
  }

  lemma {:induction false} PassContents(t: string, i: nat, s: State<Mode>, kind: Quote, mark: string, body: string)
    requires Open(s) && kind != NoQuote && mark == Mark(kind) && Holds(body, mark, Shields(kind))
    requires At(t, i, body + mark)
    ensures Passes(React, t, i, Within(s, kind), i + |body|, Within(s, kind))
    decreases |body|
  {
    hide React, Passes, Mark, Within;
    if body == "" {
      PassNothing(React, t, i, Within(s, kind));
    } else {
      var n := if Shields(kind) && body[0] == '\\' then 2 else 1;
      ContentAt(t, i, mark, body, n);
      if n == 2 { PassShielded(t, i, s, kind); } else { PassContent(t, i, s, kind); }
      PassContents(t, i + n, s, kind, mark, body[n..]);
      PassThen(React, t, i, Within(s, kind), i + n, Within(s, kind), i + |body|, Within(s, kind));
    }
  }

  lemma ContentAt(t: string, i: nat, mark: string, body: string, n: nat)
    requires At(t, i, body + mark) && 0 < n <= |body|
    ensures i + n <= |t| && t[i] == body[0] && At(t, i + n, body[n..] + mark)
    ensures !(mark <= body + mark) ==> !At(t, i, mark)
  {
    assert body + mark == body[..n] + (body[n..] + mark);
    AtSplit(t, i, body[..n], body[n..] + mark);
    assert t[i + 0] == (body + mark)[0];
    if At(t, i, mark) {
      forall k | 0 <= k < |mark| ensures mark[k] == (body + mark)[k] {
        assert t[i + k] == mark[k] && t[i + k] == (body + mark)[k];
      }
    }
  }

  /** The opening mark, and the closing one. */
  lemma PassOpening(t: string, i: nat, s: State<Mode>, kind: Quote, mark: string, body: string)
    requires Open(s) && kind != NoQuote && mark == Mark(kind) && Holds(body, mark, Shields(kind))
    requires At(t, i, mark + (body + mark)) && Quiet(t, i + |mark + (body + mark)|)
    ensures Passes(React, t, i, s, i + |mark|, Within(s, kind))
  {
    MarkShape(kind);
    var r := mark + (body + mark);
    assert t[i + 0] == r[0];
    if |mark| == 3 {
      assert t[i + 1] == r[1] && t[i + 2] == r[2];
    } else {
      OneMark(t, i, mark, body, Shields(kind));
    }
    assert Step(React, t, i, s) == Move(Within(s, kind), i + |mark|, None);
    PassStep(React, t, i, s);
  }

  /** A single quote is not taken for three. */
  lemma OneMark(t: string, i: nat, mark: string, body: string, shields: bool)
    requires |mark| == 1 && (mark[0] == '"' || mark[0] == '\'') && Holds(body, mark, shields)
    requires At(t, i, mark + (body + mark)) && Quiet(t, i + |mark + (body + mark)|)
    ensures !Triple(t[i], Peek(t, i + 1), Peek(t, i + 2), mark[0])
  {
    var r := mark + (body + mark);
    assert t[i + 1] == r[1];
    if body == "" {
      assert i + 2 < |t| ==> t[i + 2] != mark[0];
    } else {
      assert r[1] == body[0];
      assert body[0] != mark[0];
    }
  }

  lemma PassClosing(t: string, i: nat, s: State<Mode>, kind: Quote, mark: string)
    requires Open(s) && kind != NoQuote && mark == Mark(kind) && At(t, i, mark)
    ensures Passes(React, t, i, Within(s, kind), i + |mark|, s)
  {
    MarkShape(kind);
    assert t[i + 0] == mark[0];
    if |mark| == 3 { assert t[i + 1] == mark[1] && t[i + 2] == mark[2]; }
    assert Step(React, t, i, Within(s, kind)) == Move(s, i + |mark|, None);
    PassStep(React, t, i, Within(s, kind));
  }

  /** A string of any of the four kinds leaves the lexer as it was. */
  lemma StringLeaves(kind: Quote, mark: string, body: string, inside: bool)
    requires kind != NoQuote && mark == Mark(kind) && Holds(body, mark, Shields(kind))
    ensures Leaves(mark + body + mark, inside)
  {
    hide React, Passes, Mark, Holds, Within;
    var r := mark + body + mark;
    assert r == mark + (body + mark);
    forall t, i: nat, s | At(t, i, r) && Open(s) && Quiet(t, i + |r|) ensures Passes(React, t, i, s, i + |r|, s) {
      var j, k := i + |mark|, i + |mark| + |body|;
      AtSplit(t, i, mark, body + mark);
      AtSplit(t, j, body, mark);
      PassOpening(t, i, s, kind, mark, body);
      PassContents(t, j, s, kind, mark, body);
      PassClosing(t, k, s, kind, mark);
      PassThree(React, t, i, s, j, Within(s, kind), k, Within(s, kind), k + |mark|, s);
    }
  }

  // ---- comments ----

  function Commented(s: State<Mode>): State<Mode> { s.(mode := s.mode.(comment := true)) }

  lemma {:induction false} PassComment(t: string, i: nat, s: State<Mode>, text: string)
    requires Open(s) && OneLine(text) && At(t, i, text)
    ensures Passes(React, t, i, Commented(s), i + |text|, Commented(s))
    decreases |text|
  {
    if text == "" {
      PassNothing(React, t, i, Commented(s));
    } else {
      assert text == text[..1] + text[1..];
      AtSplit(t, i, text[..1], text[1..]);
      assert t[i + 0] == text[0];
      PassStep(React, t, i, Commented(s));
      PassComment(t, i + 1, s, text[1..]);
      PassThen(React, t, i, Commented(s), i + 1, Commented(s), i + |text|, Commented(s));
    }
  }

  /** From the sign of a comment to the end of its line. */
  lemma PassRemark(t: string, i: nat, s: State<Mode>, sign: string, text: string)
    requires Open(s) && sign == "#" && OneLine(text) && At(t, i, sign + text)
    ensures Passes(React, t, i, s, i + 1 + |text|, Commented(s))
  {
    AtSplit(t, i, sign, text);
    assert t[i + 0] == sign[0];
    assert Step(React, t, i, s) == Move(Commented(s), i + 1, None);
    PassStep(React, t, i, s);
    PassComment(t, i + 1, s, text);
    PassThen(React, t, i, s, i + 1, Commented(s), i + 1 + |text|, Commented(s));
  }

  /** A line end inside brackets, with a comment in front of it or not. */
  lemma PassEnd(t: string, i: nat, s: State<Mode>, from: State<Mode>, nl: string)
    requires Open(s) && Enclosed(s) && IsEnd(nl) && At(t, i, nl) && (from == s || from == Commented(s))
    ensures Passes(React, t, i, from, i + |nl|, s)
  {
    assert t[i + 0] == nl[0];
    assert Step(React, t, i, from) == Move(s, i + 1, None);
    PassStep(React, t, i, from);
    if |nl| == 2 {
      assert t[i + 1] == nl[1];
      assert Step(React, t, i + 1, s) == Move(s, i + 2, None);
      PassStep(React, t, i + 1, s);
      PassThen(React, t, i, from, i + 1, s, i + 2, s);
    }
  }

  lemma BreakLeaves(nl: string)
    requires IsEnd(nl)
    ensures Leaves(nl, true)
  {
    forall t, i: nat, s | At(t, i, nl) && Open(s) && Enclosed(s) ensures Passes(React, t, i, s, i + |nl|, s) {
      PassEnd(t, i, s, s, nl);
    }
  }

  lemma CommentLeaves(sign: string, text: string, nl: string)
    requires sign == "#" && OneLine(text) && IsEnd(nl)
    ensures Leaves(sign + text + nl, true)
  {
    hide React, Passes;
    var r := sign + text + nl;
    forall t, i: nat, s | At(t, i, r) && Open(s) && Enclosed(s) ensures Passes(React, t, i, s, i + |r|, s) {
      AtSplit(t, i, sign + text, nl);
      PassRemark(t, i, s, sign, text);
      PassEnd(t, i + 1 + |text|, s, Commented(s), nl);
      PassThen(React, t, i, s, i + 1 + |text|, Commented(s), i + |r|, s);
    }
  }

  // ---- pieces ----

  lemma GroupLeaves(opening: string, body: string, closing: string, inside: bool)
    requires Leaves(body, true) && ((opening == "[" && closing == "]") || (opening == "{" && closing == "}"))
    ensures Leaves(opening + body + closing, inside)
  {
    hide React, Passes;
    var r := opening + body + closing;
    forall t, i: nat, s | At(t, i, r) && Open(s) ensures Passes(React, t, i, s, i + |r|, s) {
      var j := i + 1 + |body|;
      AtSplit(t, i, opening + body, closing);
      AtSplit(t, i, opening, body);
      assert t[i + 0] == opening[0] && t[j] == closing[0];
      var s' := Bracketed(s, opening[0]);
      assert Open(s') && Enclosed(s') && Quiet(t, i + 1 + |body|) && Bracketed(s', closing[0]) == s;
      PassBracket(t, i, s);
      PassBracket(t, j, s');
      PassThree(React, t, i, s, i + 1, s', j, s', j + 1, s);
    }
  }

  lemma {:induction false} PieceLeaves(p: Piece, inside: bool)
    requires IsPiece(p, inside)
    ensures Leaves(TextOf(p), inside)
    decreases p, 0
  {
    hide Leaves, Neutral, Holds;
    match p
    case Bare(text) =>
      NeutralPlain(text);
      LeavesNeutral(text, inside);
    case Quoted(kind, body) => StringLeaves(kind, Mark(kind), body, inside);
    case Group(square, inner) =>
      PiecesLeave(inner, true);
      if square { GroupLeaves("[", TextsOf(inner), "]", inside); } else { GroupLeaves("{", TextsOf(inner), "}", inside); }
    case Break(nl) => BreakLeaves(nl);
    case Comment(text, nl) => CommentLeaves("#", text, nl);
  }

  lemma {:induction false} PiecesLeave(ps: seq<Piece>, inside: bool)
    requires ArePieces(ps, inside)
    ensures Leaves(TextsOf(ps), inside)
    decreases ps, 1
  {
    hide Leaves, Neutral;
    if ps == [] {
      NeutralPlain("");
      LeavesNeutral("", inside);
    } else {
      PieceLeaves(ps[0], inside);
      PiecesLeave(ps[1..], inside);
      LeavesBoth(TextOf(ps[0]), TextsOf(ps[1..]), inside);
    }
  }

  // ---- lines ----

  /** A statement or nothing, white space in front of it, and a comment behind it or not. */
  datatype Line = Line(indent: string, pieces: seq<Piece>, comment: Option<string>, nl: string)

  predicate IsIndent(s: string) { forall k | 0 <= k < |s| :: s[k] == ' ' || s[k] == '\t' }

  predicate IsLineOf(l: Line) {
    && IsIndent(l.indent) && ArePieces(l.pieces, false) && IsLineEnd(l.nl)
    && (l.comment.Some? ==> OneLine(l.comment.value))
    && var body := TextsOf(l.pieces); body != "" ==> !IsBlank(body[0])
  }

  function Remark(comment: Option<string>): string { if comment.Some? then "#" + comment.value else "" }

  /** The statement of a line, with its comment and its line end. */
  function StatementOf(l: Line): string { TextsOf(l.pieces) + Remark(l.comment) + l.nl }

  function LineText(l: Line): string { l.indent + StatementOf(l) }

  function DocumentText(ls: seq<Line>): string { if ls == [] then "" else LineText(ls[0]) + DocumentText(ls[1..]) }

  /** The statements of a document: the lines that hold more than white space and a comment. */
  function Written(ls: seq<Line>): seq<string> {
    if ls == [] then []
    else (if TextsOf(ls[0].pieces) == "" then [] else [StatementOf(ls[0])]) + Written(ls[1..])
  }

  lemma LeavesNeutrally(r: string)
    requires Leaves(r, false)
    ensures Neutral(r)
  {
  }

  /** A text that leaves the lexer as it was does not begin with a comment's sign if it is not empty. */
  lemma {:induction false} PiecesStart(ps: seq<Piece>)
    requires ArePieces(ps, false) && TextsOf(ps) != ""
    ensures TextsOf(ps)[0] != '#'
  {
    if TextOf(ps[0]) == "" { PiecesStart(ps[1..]); }
  }

  /** Behind a statement, or behind a comment that follows it, the line end closes it. */
  lemma ClosesLine(t: string, n: nat, s: State<Mode>, nl: string)
    requires IsEnd(nl) && At(t, n, nl) && n + |nl| == |t|
    requires s == State(Some(0), CALM) || s == Commented(State(Some(0), CALM))
    ensures Step(React, t, n, s) == Move(INIT, |t|, Some(Span(0, |t|)))
  {
    assert t[n + 0] == nl[0] && (|nl| == 2 ==> t[n + 1] == nl[1]);
  }

  /** A statement with a comment behind it is one statement, up to the end of the line. */
  lemma CommentedStatement(body: string, sign: string, text: string, nl: string)
    requires Neutral(body) && body != "" && !IsBlank(body[0]) && body[0] != '#'
    requires sign == "#" && OneLine(text) && IsLineEnd(nl)
    ensures OneStatement(body + (sign + text) + nl)
  {
    hide React, Passes;
    var t, n, s := body + (sign + text) + nl, |body|, State(Some(0), CALM);
    var m := n + 1 + |text|;
    assert At(t, 0, body) && At(t, n, sign + text) && At(t, m, nl) && t[0] == body[0];
    assert t[n] == (sign + text)[0] && Open(s) && Quiet(t, 0 + |body|);
    PassRemark(t, n, s, sign, text);
    PassThen(React, t, 0, s, n, s, m, Commented(s));
    PassScan(React, t, 0, s, m, Commented(s));
    SameStart(t, m);
    ClosesLine(t, m, Commented(s), nl);
    assert ScanTo(React, t, |t|, INIT, |t|) == Scan([], INIT, |t|);
    assert ScanTo(React, t, m, Commented(s), |t|) == Scan([Span(0, |t|)], INIT, |t|);
    ScanSplit(React, t, 0, INIT, m, |t|);
  }

  /** At its first character a statement opens. */
  lemma SameStart(t: string, n: nat)
    requires 0 < n <= |t| && !IsBlank(t[0]) && t[0] != '#'
    ensures ScanTo(React, t, 0, INIT, n) == ScanTo(React, t, 0, State(Some(0), CALM), n)
  {
    assert Step(React, t, 0, INIT) == Step(React, t, 0, State(Some(0), CALM));
  }

  /** Outside brackets a closing bracket changes nothing. */
  lemma {:induction false} PassStray(t: string, i: nat, s: State<Mode>, stray: string)
    requires Open(s) && s.mode.square == 0 && s.mode.curly == 0 && At(t, i, stray)
    requires forall k | 0 <= k < |stray| :: stray[k] == ']' || stray[k] == '}'
    ensures Passes(React, t, i, s, i + |stray|, s)
    decreases |stray|
  {
    if stray == "" {
      PassNothing(React, t, i, s);
    } else {
      assert stray == stray[..1] + stray[1..];
      AtSplit(t, i, stray[..1], stray[1..]);
      assert t[i + 0] == stray[..1][0];
      assert Step(React, t, i, s) == Move(s, i + 1, None);
      PassStep(React, t, i, s);
      PassStray(t, i + 1, s, stray[1..]);
      PassThen(React, t, i, s, i + 1, s, i + |stray|, s);
    }
  }

  /** Brackets that close nothing leave a statement as one, and it ends at a newline, a carriage return or both. */
  lemma StrayStatement(body: string, stray: string, nl: string)
    requires Neutral(body) && body != "" && !IsBlank(body[0]) && body[0] != '#'
    requires IsEnd(nl) && forall k | 0 <= k < |stray| :: stray[k] == ']' || stray[k] == '}'
    ensures OneStatement(body + stray + nl)
  {
    hide React, Passes;
    var t, n, s := body + stray + nl, |body|, State(Some(0), CALM);
    var m := n + |stray|;
    assert At(t, 0, body) && At(t, n, stray) && At(t, m, nl) && t[0] == body[0];
    assert t[n] == (stray + nl)[0] && Open(s) && Quiet(t, 0 + |body|);
    PassStray(t, n, s, stray);
    PassThen(React, t, 0, s, n, s, m, s);
    PassScan(React, t, 0, s, m, s);
    SameStart(t, m);
    ClosesLine(t, m, s, nl);
    assert ScanTo(React, t, |t|, INIT, |t|) == Scan([], INIT, |t|);
    assert ScanTo(React, t, m, s, |t|) == Scan([Span(0, |t|)], INIT, |t|);
    ScanSplit(React, t, 0, INIT, m, |t|);
  }

  // ---- lines without a statement ----

  lemma {:induction false} IndentScan(t: string, i: nat, n: nat)
    requires i <= n <= |t| && IsIndent(t[i..n])
    ensures ScanTo(React, t, i, INIT, n) == Scan([], INIT, n)
    decreases n - i
  {
    if i < n {
      assert t[i..n][0] == t[i] && t[i..n][1..] == t[i + 1..n];
      IndentScan(t, i + 1, n);
    }
  }

  const REMARK := State(None, CALM.(comment := true))

  lemma {:induction false} RemarkScan(t: string, i: nat, n: nat)
    requires i <= n <= |t| && OneLine(t[i..n])
    ensures ScanTo(React, t, i, REMARK, n) == Scan([], REMARK, n)
    decreases n - i
  {
    if i < n {
      assert t[i..n][0] == t[i] && t[i..n][1..] == t[i + 1..n];
      RemarkScan(t, i + 1, n);
    }
  }

  /** A line of white space and a comment holds no statement. */
  lemma LayoutLine(comment: Option<string>, sign: string, nl: string)
    requires sign == "#" && IsLineEnd(nl) && (comment.Some? ==> OneLine(comment.value))
    ensures Lex((if comment.Some? then sign + comment.value else "") + nl)
            == Scan([], INIT, |(if comment.Some? then sign + comment.value else "") + nl|)
  {
    if comment.Some? {
      RemarkLine(sign, comment.value, nl);
    } else {
      assert "" + nl == nl;
      EndScan(nl, 0, INIT);
    }
  }

  lemma RemarkLine(sign: string, text: string, nl: string)
    requires sign == "#" && IsLineEnd(nl) && OneLine(text)
    ensures Lex(sign + text + nl) == Scan([], INIT, |sign + text + nl|)
  {
    var t, n := sign + text + nl, 1 + |text|;
    assert t[0] == sign[0] && t[1..n] == text && t[n..] == nl;
    assert Step(React, t, 0, INIT) == Move(REMARK, 1, None);
    RemarkScan(t, 1, n);
    EndScan(t, n, REMARK);
    ScanSplit(React, t, 1, REMARK, n, |t|);
  }

  lemma EndScan(t: string, n: nat, s: State<Mode>)
    requires n < |t| && IsLineEnd(t[n..]) && (s == INIT || s == REMARK)
    ensures ScanTo(React, t, n, s, |t|) == Scan([], INIT, |t|)
  {
    assert t[n] == t[n..][0] && (|t| == n + 2 ==> t[n + 1] == t[n..][1]);
    assert Step(React, t, n, s) == Move(INIT, n + 1, None);
    if |t| == n + 2 {
      assert Step(React, t, n + 1, INIT) == Move(INIT, n + 2, None);
      assert ScanTo(React, t, n + 2, INIT, |t|) == Scan([], INIT, |t|);
    }
    assert ScanTo(React, t, |t|, INIT, |t|) == Scan([], INIT, |t|);
  }

  // ---- documents ----

  lemma NoSpans(t: string)
    requires Lex(t) == Scan([], INIT, |t|)
    ensures Settled(t) && Statements(t) == []
  {
    SpansWithin(t);
    assert Spans(t) == [];
  }

  /** One line is its statement, or none. */
  lemma LineStatements(l: Line)
    requires IsLineOf(l)
    ensures Settled(LineText(l)) && Statements(LineText(l)) == Written([l])
  {
    hide React, Neutral, Leaves, Lex;
    var body, rest := TextsOf(l.pieces), StatementOf(l);
    IndentSettles(l.indent);
    if body == "" {
      assert rest == Remark(l.comment) + l.nl;
      LayoutLine(l.comment, "#", l.nl);
      NoSpans(rest);
    } else {
      PiecesLeave(l.pieces, false);
      LeavesNeutrally(body);
      PiecesStart(l.pieces);
      StatementLine(body, l.comment, l.nl, rest);
      SingleStatement(rest);
    }
    StatementsConcat(l.indent, rest);
    OneWritten(l);
  }

  lemma StatementLine(body: string, comment: Option<string>, nl: string, rest: string)
    requires Neutral(body) && body != "" && !IsBlank(body[0]) && body[0] != '#'
    requires IsLineEnd(nl) && (comment.Some? ==> OneLine(comment.value)) && rest == body + Remark(comment) + nl
    ensures OneStatement(rest)
  {
    if comment.Some? {
      CommentedStatement(body, "#", comment.value, nl);
    } else {
      assert body + "" + nl == body + nl;
      NeutralLine(body, nl);
    }
  }

  lemma IndentSettles(indent: string)
    requires IsIndent(indent)
    ensures Settled(indent) && Statements(indent) == [] && Lex(indent).spans == []
  {
    assert indent[0..|indent|] == indent;
    IndentScan(indent, 0, |indent|);
    NoSpans(indent);
  }

  lemma OneWritten(l: Line)
    ensures Written([l]) == if TextsOf(l.pieces) == "" then [] else [StatementOf(l)]
  {
    assert [l][1..] == [];
  }

  /** A document made of lines lexes to exactly the statements written in it. */
  lemma {:induction false} DocumentStatements(ls: seq<Line>)
    requires forall k | 0 <= k < |ls| :: IsLineOf(ls[k])
    ensures Settled(DocumentText(ls)) && Statements(DocumentText(ls)) == Written(ls)
  {
    hide React, Lex, IsLineOf, LineText, Settled;
    if ls == [] {
      EmptyDocument(DocumentText(ls));
    } else {
      LineStatements(ls[0]);
      DocumentStatements(ls[1..]);
      LineEnds(ls[0], DocumentText(ls[1..]));
      StatementsConcat(LineText(ls[0]), DocumentText(ls[1..]));
      OneWritten(ls[0]);
    }
  }

  lemma EmptyDocument(t: string)
    requires t == ""
    ensures Settled(t) && Statements(t) == []
  {
    NoSpans(t);
  }

  /** A line ends in a newline, so nothing behind it can join its line end. */
  lemma LineEnds(l: Line, rest: string)
    requires IsLineOf(l)
    ensures !CutsCrlf(LineText(l), Lex(LineText(l)).spans, rest)
  {
    var t := LineText(l);
    assert t == (l.indent + (TextsOf(l.pieces) + Remark(l.comment))) + l.nl;
    assert t[|t| - 1] == l.nl[|l.nl| - 1];
  }
}
