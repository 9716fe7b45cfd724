/** How a key may be spelled, and that the readers of keys and headers accept these spellings and nothing else. */
module TomlSpelling {
  import opened Wrappers
  import opened PythonText
  import opened TomlKeys

  // ---- spellings (TOML 1.0.0, keys and strings) ----

  /** A character as it stands, an escape by one letter, or one by its number in four or eight digits. */
  datatype Piece = Plain(c: char) | Short(letter: char) | Code(digits: string)

  const LETTERS: string := "btnfr\"\\"

  const DIGITS: string := "0123456789abcdef"

  function Lower(c: char): char { if 'A' <= c <= 'F' then c - 'A' + 'a' else c }

  predicate HexText(s: string) { forall i | 0 <= i < |s| :: Lower(s[i]) in DIGITS }

  predicate IsHex(c: char, n: nat) { n < 16 && Lower(c) == DIGITS[n] }

  /** The number that hexadecimal digits write. */
  ghost predicate Numbers(s: string, n: nat)
    decreases |s|
  {
    if s == "" then n == 0
    else IsHex(s[|s| - 1], n % 16) && Numbers(s[..|s| - 1], n / 16)
  }

  ghost predicate IsPiece(p: Piece, c: char) {
    match p
    case Plain(x) => x == c && x != '"' && x != '\\' && x != '\U{7F}' && (x == '\t' || x >= ' ')
    case Short(x) =>
      || (x == 'b' && c == '\U{8}') || (x == 't' && c == '\t') || (x == 'n' && c == '\n') || (x == 'f' && c == '\U{C}')
      || (x == 'r' && c == '\r') || (x == '"' && c == '"') || (x == '\\' && c == '\\')
    case Code(d) => (|d| == 4 || |d| == 8) && Numbers(d, c as nat)
  }

  function PieceText(p: Piece): string {
    match p
    case Plain(c) => [c]
    case Short(c) => ['\\', c]
    case Code(d) => (if |d| == 4 then "\\u" else "\\U") + d
  }

  function PiecesText(ps: seq<Piece>): string { if ps == [] then "" else PieceText(ps[0]) + PiecesText(ps[1..]) }

  /** Pieces that stand for the characters of a text. */
  ghost predicate ArePieces(ps: seq<Piece>, s: string) {
    |ps| == |s| && forall i | 0 <= i < |ps| :: IsPiece(ps[i], s[i])
  }

  datatype Spelling = Bare | Basic(pieces: seq<Piece>) | Literal

  /** A way to spell a key: bare, in quotes with escapes, or in single quotes as it is. */
  ghost predicate Spells(w: Spelling, key: string) {
    match w
    case Bare => BareText(key)
    case Basic(ps) => ArePieces(ps, key)
    case Literal => LiteralText(key)
  }

  function Spelled(w: Spelling, key: string): string {
    match w
    case Bare => key
    case Basic(ps) => "\"" + PiecesText(ps) + "\""
    case Literal => "'" + key + "'"
  }

  // ---- numbers ----

  lemma HexAgrees(c: char, n: nat)
    ensures HexValue(c) == Some(n) <==> IsHex(c, n)
  {
    DigitPlaces(DIGITS);
  }

  lemma DigitPlaces(digits: string)
    requires digits == "0123456789abcdef"
    ensures |digits| == 16
    ensures forall n: nat | n < 16 :: digits[n] == if n < 10 then '0' + n as char else 'a' + (n - 10) as char
  {
  }

  lemma {:induction false} NumberAgrees(s: string, n: nat)
    ensures HexNumber(s) == Some(n) <==> Numbers(s, n)
    decreases |s|
  {
    hide HexValue, IsHex;
    if s != "" {
      HexAgrees(s[|s| - 1], n % 16);
      NumberAgrees(s[..|s| - 1], n / 16);
      var d, high := HexValue(s[|s| - 1]), HexNumber(s[..|s| - 1]);
      if d.Some? {
        HexAgrees(s[|s| - 1], d.value);
        HexSmall(s[|s| - 1], d.value);
        if high.Some? {
          Divided(high.value, d.value);
          assert HexNumber(s) == Some(16 * high.value + d.value);
          if n == 16 * high.value + d.value { assert n / 16 == high.value && n % 16 == d.value; }
        }
      }
    }
  }

  lemma HexSmall(c: char, n: nat)
    requires IsHex(c, n)
    ensures n < 16
  {
  }

  lemma Divided(high: nat, low: nat)
    requires low < 16
    ensures (16 * high + low) / 16 == high && (16 * high + low) % 16 == low
  {
  }

  lemma EscapeAgrees(s: string, width: nat, c: char)
    ensures UnicodeEscape(s, width) == Some(c) <==> |s| >= width && Numbers(s[..width], c as nat)
  {
    hide Numbers, HexNumber;
    if |s| >= width {
      NumberAgrees(s[..width], c as nat);
      var n := HexNumber(s[..width]);
      if n.Some? && UnicodeEscape(s, width).Some? { assert (n.value as char) as nat == n.value; }
    }
  }

  // ---- quoted keys ----

  /** A piece in front of a text is read as its character. */
  lemma PieceRead(p: Piece, c: char, rest: string)
    requires IsPiece(p, c)
    ensures DecodeBasic(PieceText(p) + rest) == Prepend(Some(c), DecodeBasic(rest))
  {
    hide Numbers, UnicodeEscape;
    var s := PieceText(p) + rest;
    match p
    case Plain(x) => assert s[1..] == rest;
    case Short(x) => assert s[0] == '\\' && s[1] == x && s[2..] == rest; assert SimpleEscape(x) == Some(c);
    case Code(d) =>
      var mark := if |d| == 4 then "\\u" else "\\U";
      assert s == mark + (d + rest);
      CodeRead(d, rest, s, mark, c);
  }

  lemma CodeRead(d: string, rest: string, s: string, mark: string, c: char)
    requires s == mark + (d + rest) && (|d| == 4 || |d| == 8) && mark == (if |d| == 4 then "\\u" else "\\U")
    requires Numbers(d, c as nat)
    ensures DecodeBasic(s) == Prepend(Some(c), DecodeBasic(rest))
  {
    hide Numbers, UnicodeEscape;
    assert s[0] == '\\' && s[1] == (if |d| == 4 then 'u' else 'U');
    assert s[2..] == d + rest && (d + rest)[..|d|] == d;
    assert s[2 + |d|..] == rest;
    EscapeAgrees(s[2..], |d|, c);
  }

  /** What is read begins with a piece or ends the key. */
  lemma PieceThere(s: string) returns (p: Piece, c: char, rest: string)
    requires DecodeBasic(s).Some? && s[0] != '"'
    ensures IsPiece(p, c) && s == PieceText(p) + rest && DecodeBasic(s) == Prepend(Some(c), DecodeBasic(rest))
  {
    hide Numbers, UnicodeEscape;
    if s[0] != '\\' {
      p, c, rest := Plain(s[0]), s[0], s[1..];
    } else if s[1] == 'u' || s[1] == 'U' {
      var width := if s[1] == 'u' then 4 else 8;
      c := UnicodeEscape(s[2..], width).value;
      EscapeAgrees(s[2..], width, c);
      p, rest := Code(s[2..][..width]), s[2 + width..];
      assert s == s[..2] + s[2..][..width] + rest && s[..2] == [s[0], s[1]];
    } else {
      c := SimpleEscape(s[1]).value;
      p, rest := Short(s[1]), s[2..];
      assert s == ['\\', s[1]] + rest;
    }
  }

  lemma {:induction false} BasicRead(ps: seq<Piece>, key: string, rest: string)
    requires ArePieces(ps, key)
    ensures DecodeBasic(PiecesText(ps) + ("\"" + rest)) == Some(KeyPart(key, rest))
  {
    hide IsPiece, PieceText;
    if ps == [] {
      assert PiecesText(ps) + ("\"" + rest) == "\"" + rest;
      assert ("\"" + rest)[1..] == rest;
    } else {
      var more := PiecesText(ps[1..]) + ("\"" + rest);
      assert PiecesText(ps) + ("\"" + rest) == PieceText(ps[0]) + more;
      PieceRead(ps[0], key[0], more);
      assert ArePieces(ps[1..], key[1..]);
      BasicRead(ps[1..], key[1..], rest);
      assert key == [key[0]] + key[1..];
    }
  }

  lemma {:induction false} BasicThere(s: string, key: string, rest: string) returns (ps: seq<Piece>)
    requires DecodeBasic(s) == Some(KeyPart(key, rest))
    ensures ArePieces(ps, key) && s == PiecesText(ps) + ("\"" + rest)
    decreases |s|
  {
    hide IsPiece, PieceText, ArePieces;
    if s[0] == '"' {
      ps := [];
      NoPieces(s, rest);
    } else {
      var p, c, tail := PieceThere(s);
      hide DecodeBasic;
      PieceLong(p, c, s, tail);
      assert key == [c] + key[1..];
      var more := BasicThere(tail, key[1..], rest);
      ps := [p] + more;
      OneMorePiece(p, c, more, key);
      PieceInFront(p, more, "\"" + rest);
    }
  }

  lemma NoPieces(s: string, rest: string)
    requires s != "" && s[0] == '"' && s[1..] == rest
    ensures s == PiecesText([]) + ("\"" + rest) && ArePieces([], "")
  {
    assert s == "\"" + rest;
  }

  lemma PieceInFront(p: Piece, more: seq<Piece>, rest: string)
    ensures PiecesText([p] + more) + rest == PieceText(p) + (PiecesText(more) + rest)
  {
    hide PieceText;
    assert ([p] + more)[1..] == more;
  }

  lemma PieceLong(p: Piece, c: char, s: string, rest: string)
    requires IsPiece(p, c) && s == PieceText(p) + rest
    ensures |rest| < |s|
  {
  }

  lemma OneMorePiece(p: Piece, c: char, more: seq<Piece>, key: string)
    requires IsPiece(p, c) && key != "" && key[0] == c && ArePieces(more, key[1..])
    ensures ArePieces([p] + more, key)
  {
    hide IsPiece;
  }

  predicate LiteralText(key: string) {
    forall i | 0 <= i < |key| :: key[i] != '\'' && key[i] != '\U{7F}' && (key[i] == '\t' || key[i] >= ' ')
  }

  lemma {:induction false} LiteralExactly(s: string, key: string, rest: string)
    ensures DecodeLiteral(s) == Some(KeyPart(key, rest)) <==> LiteralText(key) && s == key + ("'" + rest)
    decreases |s|
  {
    if s == "" || IsForbidden(s[0]) || s[0] == '\'' || key == "" {
      LiteralEnds(s, key, rest);
    } else {
      LiteralExactly(s[1..], key[1..], rest);
      LiteralStep(s, key, rest);
      assert key == [key[0]] + key[1..];
    }
  }

  lemma LiteralEnds(s: string, key: string, rest: string)
    requires s == "" || IsForbidden(s[0]) || s[0] == '\'' || key == ""
    ensures DecodeLiteral(s) == Some(KeyPart(key, rest)) <==> LiteralText(key) && s == key + ("'" + rest)
  {
    if key == "" {
      assert key + ("'" + rest) == "'" + rest;
      FirstTwo(s, '\'', rest);
    } else {
      FirstTwo(s, key[0], key[1..] + ("'" + rest));
      assert key + ("'" + rest) == [key[0]] + (key[1..] + ("'" + rest));
    }
  }

  lemma FirstTwo(s: string, c: char, rest: string)
    ensures s == [c] + rest <==> s != "" && s[0] == c && s[1..] == rest
  {
    assert s != "" ==> s == [s[0]] + s[1..];
  }

  /** How a text made of two begins. */
  lemma Heads(a: string, b: string)
    ensures a == "" ==> a + b == b
    ensures a != "" ==> a + b != "" && (a + b)[0] == a[0] && (a + b)[1..] == a[1..] + b
    ensures |a| > 1 ==> (a + b)[1] == a[1]
    ensures |a| == 1 && b != "" ==> (a + b)[1] == b[0]
  {
    if a == "" { assert a + b == b; }
  }

  lemma LiteralStep(s: string, key: string, rest: string)
    requires s != "" && key != "" && !IsForbidden(s[0]) && s[0] != '\''
    ensures LiteralText(key) && s == key + ("'" + rest)
            <==> s[0] == key[0] && LiteralText(key[1..]) && s[1..] == key[1..] + ("'" + rest)
  {
    if s[0] == key[0] && LiteralText(key[1..]) && s[1..] == key[1..] + ("'" + rest) {
      assert s == [s[0]] + s[1..] && key == [key[0]] + key[1..];
      forall i | 0 <= i < |key| ensures key[i] != '\'' && key[i] != '\U{7F}' && (key[i] == '\t' || key[i] >= ' ') {
        if i > 0 { assert key[i] == key[1..][i - 1]; }
      }
    }
    if LiteralText(key) && s == key + ("'" + rest) {
      assert s[0] == key[0] && s[1..] == key[1..] + ("'" + rest);
    }
  }

  predicate BareText(key: string) { key != "" && forall i | 0 <= i < |key| :: IsBare(key[i]) }

  lemma {:induction false} BareExactly(s: string, key: string, rest: string)
    requires s != "" && IsBare(s[0])
    ensures TakeBare(s) == KeyPart(key, rest) <==> BareText(key) && s == key + rest && (rest == "" || !IsBare(rest[0]))
    decreases |s|
  {
    hide IsBare;
    Heads(key, rest);
    if |s| > 1 && IsBare(s[1]) {
      if key != "" {
        BareExactly(s[1..], key[1..], rest);
        BareStep(s, key, rest);
      }
    } else {
      assert TakeBare(s[1..]) == KeyPart("", s[1..]);
      assert [s[0]] + "" == [s[0]] && s == [s[0]] + s[1..];
      if BareText(key) && s == key + rest { assert key == [s[0]] && rest == s[1..]; }
    }
  }

  lemma BareStep(s: string, key: string, rest: string)
    requires |s| > 1 && key != "" && IsBare(s[0]) && IsBare(s[1])
    ensures BareText(key) && s == key + rest && (rest == "" || !IsBare(rest[0]))
            <==> s[0] == key[0] && BareText(key[1..]) && s[1..] == key[1..] + rest && (rest == "" || !IsBare(rest[0]))
  {
    hide IsBare;
    Heads(key, rest);
    if s[0] == key[0] && BareText(key[1..]) && s[1..] == key[1..] + rest {
      assert s == [s[0]] + s[1..] && key == [key[0]] + key[1..];
      forall i | 0 <= i < |key| ensures IsBare(key[i]) { if i > 0 { assert key[i] == key[1..][i - 1]; } }
    }
  }

  // ---- keys and what assigns them ----

  /** Reading a key finds each spelling of it, and nothing that is no spelling. */
  lemma ReadKeyExactly(s: string, key: string, rest: string)
    ensures ReadKey(s) == Some(KeyPart(key, rest))
            <==> exists w :: Spells(w, key) && s == Spelled(w, key) + rest && (w.Bare? ==> rest == "" || !IsBare(rest[0]))
  {
    if ReadKey(s) == Some(KeyPart(key, rest)) { var w := SpellingThere(s, key, rest); }
    forall w | Spells(w, key) && s == Spelled(w, key) + rest && (w.Bare? ==> rest == "" || !IsBare(rest[0]))
      ensures ReadKey(s) == Some(KeyPart(key, rest))
    {
      SpellingRead(w, key, rest);
    }
  }

  lemma SpellingRead(w: Spelling, key: string, rest: string)
    requires Spells(w, key) && (w.Bare? ==> rest == "" || !IsBare(rest[0]))
    ensures ReadKey(Spelled(w, key) + rest) == Some(KeyPart(key, rest))
    ensures Spelled(w, key) != "" && (IsBare(Spelled(w, key)[0]) || Spelled(w, key)[0] == '"' || Spelled(w, key)[0] == '\'')
  {
    hide DecodeBasic, DecodeLiteral, TakeBare, ArePieces, LiteralText, PiecesText, IsBare;
    var s := Spelled(w, key) + rest;
    QuotesNotBare();
    match w
    case Bare => BareExactly(s, key, rest);
    case Basic(ps) =>
      assert s[1..] == PiecesText(ps) + ("\"" + rest);
      BasicRead(ps, key, rest);
    case Literal =>
      assert s[1..] == key + ("'" + rest);
      LiteralExactly(s[1..], key, rest);
  }

  lemma QuotesNotBare()
    ensures !IsBare('"') && !IsBare('\'')
  {
  }

  lemma SpellingThere(s: string, key: string, rest: string) returns (w: Spelling)
    requires ReadKey(s) == Some(KeyPart(key, rest))
    ensures Spells(w, key) && s == Spelled(w, key) + rest && (w.Bare? ==> rest == "" || !IsBare(rest[0]))
  {
    hide DecodeBasic, DecodeLiteral, TakeBare, ArePieces, LiteralText, BareText, PiecesText, IsBare;
    if IsBare(s[0]) {
      w := Bare;
      BareExactly(s, key, rest);
    } else if s[0] == '"' {
      var ps := BasicThere(s[1..], key, rest);
      w := Basic(ps);
      assert s == "\"" + s[1..] && s == "\"" + PiecesText(ps) + "\"" + rest;
    } else {
      w := Literal;
      LiteralExactly(s[1..], key, rest);
      assert s == "'" + s[1..] && s == "'" + key + "'" + rest;
    }
  }

  /** White space in front of a text that has none at its start. */
  lemma {:induction false} LStripParts(s: string) returns (pre: string)
    ensures AllSpace(pre) && s == pre + LStrip(s)
  {
    pre := "";
    if s != "" && IsSpace(s[0]) {
      var more := LStripParts(s[1..]);
      pre := [s[0]] + more;
      assert s == [s[0]] + s[1..];
    }
  }

  lemma LStripFinds(pre: string, rest: string)
    requires AllSpace(pre) && rest != "" && !IsSpace(rest[0])
    ensures LStrip(pre + rest) == rest
  {
    LStripPadded(pre, rest);
  }

  /** A statement that assigns this key: the key in some spelling, and an equals sign, with white space around it. */
  ghost predicate Assigns(s: string, key: string, pre: string, w: Spelling, post: string, rest: string) {
    AllSpace(pre) && AllSpace(post) && Spells(w, key) && s == pre + (Spelled(w, key) + (post + ("=" + rest)))
  }

  lemma AssignmentExactly(s: string, key: string)
    ensures SimpleKey(s) == Some(key) <==> exists pre, w, post, rest :: Assigns(s, key, pre, w, post, rest)
  {
    if SimpleKey(s) == Some(key) { AssignmentThere(s, key); }
    forall pre, w, post, rest | Assigns(s, key, pre, w, post, rest) ensures SimpleKey(s) == Some(key) {
      AssignmentFound(s, key, pre, w, post, rest);
    }
  }

  lemma AssignmentThere(s: string, key: string)
    requires SimpleKey(s) == Some(key)
    ensures exists pre, w, post, rest :: Assigns(s, key, pre, w, post, rest)
  {
    hide ReadKey, LStrip, Spells, Spelled, AllSpace;
    var pre := LStripParts(s);
    var r := ReadKey(LStrip(s)).value;
    var w := SpellingThere(LStrip(s), key, r.rest);
    var post := LStripParts(r.rest);
    var rest := LStrip(r.rest)[1..];
    assert LStrip(r.rest) == "=" + rest;
    assert Assigns(s, key, pre, w, post, rest);
  }

  lemma AssignmentFound(s: string, key: string, pre: string, w: Spelling, post: string, rest: string)
    requires Assigns(s, key, pre, w, post, rest)
    ensures SimpleKey(s) == Some(key)
  {
    hide ReadKey, LStrip, Spells, Spelled;
    var tail := post + ("=" + rest);
    assert tail[0] == if post == "" then '=' else post[0];
    SpellingRead(w, key, tail);
    LStripFinds(pre, Spelled(w, key) + tail);
    LStripFinds(post, "=" + rest);
  }

  // ---- headers ----

  /** A key of a header with the blanks around it. */
  datatype Step = Step(before: string, spelling: Spelling, after: string)

  predicate Blanks(s: string) { forall i | 0 <= i < |s| :: s[i] == ' ' || s[i] == '\t' }

  function StepText(p: Step, key: string): string { p.before + Spelled(p.spelling, key) + p.after }

  ghost predicate IsStep(p: Step, key: string) { Blanks(p.before) && Blanks(p.after) && Spells(p.spelling, key) }

  /** The keys of a header, between dots. */
  function StepsText(ps: seq<Step>, path: seq<string>): string
    requires |ps| == |path| > 0
  {
    if |ps| == 1 then StepText(ps[0], path[0]) else StepText(ps[0], path[0]) + ("." + StepsText(ps[1..], path[1..]))
  }

  ghost predicate AreSteps(ps: seq<Step>, path: seq<string>) {
    |ps| == |path| > 0 && forall i | 0 <= i < |ps| :: IsStep(ps[i], path[i])
  }

  /** A header of this path: its keys between dots, in one pair of brackets, with white space in front. */
  ghost predicate IsHeader(s: string, path: seq<string>, pre: string, ps: seq<Step>, rest: string) {
    AllSpace(pre) && AreSteps(ps, path) && s == pre + ("[" + (StepsText(ps, path) + ("]" + rest)))
  }

  lemma {:induction false} SkipParts(s: string) returns (pre: string)
    ensures Blanks(pre) && s == pre + SkipBlank(s)
  {
    pre := "";
    if s != "" && (s[0] == ' ' || s[0] == '\t') {
      var more := SkipParts(s[1..]);
      pre := [s[0]] + more;
      assert s == [s[0]] + s[1..];
    }
  }

  lemma {:induction false} SkipFinds(pre: string, rest: string)
    requires Blanks(pre) && rest != "" && rest[0] != ' ' && rest[0] != '\t'
    ensures SkipBlank(pre + rest) == rest
  {
    Heads(pre, rest);
    if pre != "" { SkipFinds(pre[1..], rest); }
  }

  /** One key of a header is read, up to the dot or bracket behind it. */
  lemma StepRead(p: Step, key: string, mark: char, rest: string)
    requires IsStep(p, key) && (mark == '.' || mark == ']')
    ensures var r := ReadKey(SkipBlank(StepText(p, key) + ([mark] + rest)));
            r.Some? && r.value.key == key && SkipBlank(r.value.rest) == [mark] + rest
  {
    hide ReadKey, SkipBlank, Spells, Spelled;
    var tail := p.after + ([mark] + rest);
    assert tail[0] == if p.after == "" then mark else p.after[0];
    SpellingRead(p.spelling, key, tail);
    SkipFinds(p.before, Spelled(p.spelling, key) + tail);
    SkipFinds(p.after, [mark] + rest);
    assert StepText(p, key) + ([mark] + rest) == p.before + (Spelled(p.spelling, key) + tail);
  }

  lemma StepThere(s: string, mark: char) returns (p: Step, key: string, rest: string)
    requires var r := ReadKey(SkipBlank(s));
             r.Some? && SkipBlank(r.value.rest) != "" && SkipBlank(r.value.rest)[0] == mark
    ensures var r := ReadKey(SkipBlank(s)).value;
            IsStep(p, key) && key == r.key && SkipBlank(r.rest) == [mark] + rest && s == StepText(p, key) + ([mark] + rest)
  {
    hide ReadKey, SkipBlank, Spells, Spelled;
    var r := ReadKey(SkipBlank(s)).value;
    key := r.key;
    var before := SkipParts(s);
    var w := SpellingThere(SkipBlank(s), key, r.rest);
    var after := SkipParts(r.rest);
    rest := SkipBlank(r.rest)[1..];
    assert SkipBlank(r.rest) == [mark] + rest;
    p := Step(before, w, after);
    Regrouped(before, Spelled(w, key), after, [mark] + rest);
  }

  lemma Regrouped(a: string, b: string, c: string, d: string)
    ensures a + (b + (c + d)) == a + b + c + d
  {
  }

  lemma {:induction false} PathRead(ps: seq<Step>, path: seq<string>, rest: string)
    requires AreSteps(ps, path)
    ensures ReadPath(StepsText(ps, path) + ("]" + rest)) == Some(path)
    decreases |ps|
  {
    hide ReadKey, SkipBlank, IsStep, StepText, ReadPath;
    if |ps| == 1 {
      StepRead(ps[0], path[0], ']', rest);
      ReadLast(StepText(ps[0], path[0]) + ("]" + rest), path, rest);
    } else {
      var more := StepsText(ps[1..], path[1..]) + ("]" + rest);
      StepRead(ps[0], path[0], '.', more);
      PathRead(ps[1..], path[1..], rest);
      Dotted(StepText(ps[0], path[0]), StepsText(ps[1..], path[1..]), "]" + rest);
      ReadDot(StepText(ps[0], path[0]) + ("." + more), path, more);
    }
  }

  lemma ReadLast(s: string, path: seq<string>, rest: string)
    requires var r := ReadKey(SkipBlank(s)); r.Some? && [r.value.key] == path && SkipBlank(r.value.rest) == [']'] + rest
    ensures ReadPath(s) == Some(path)
  {
    hide ReadKey, SkipBlank;
  }

  lemma ReadDot(s: string, path: seq<string>, rest: string)
    requires path != [] && ReadPath(rest) == Some(path[1..])
    requires var r := ReadKey(SkipBlank(s)); r.Some? && r.value.key == path[0] && SkipBlank(r.value.rest) == ['.'] + rest
    ensures ReadPath(s) == Some(path)
  {
    hide ReadKey, SkipBlank;
    assert (['.'] + rest)[1..] == rest && path == [path[0]] + path[1..];
  }

  lemma Dotted(a: string, b: string, c: string)
    ensures a + ("." + b) + c == a + ("." + (b + c)) && ("." + (b + c))[1..] == b + c
  {
  }

  lemma {:induction false} PathThere(s: string, path: seq<string>) returns (ps: seq<Step>, rest: string)
    requires ReadPath(s) == Some(path)
    ensures AreSteps(ps, path) && s == StepsText(ps, path) + ("]" + rest)
    decreases |s|
  {
    hide IsStep, StepText;
    var r := ReadKey(SkipBlank(s)).value;
    var mark := SkipBlank(r.rest)[0];
    var p, key, tail := StepThere(s, mark);
    assert SkipBlank(r.rest)[1..] == tail;
    if mark == ']' {
      ps, rest := [p], tail;
    } else {
      assert path == [key] + path[1..];
      hide ReadKey, SkipBlank;
      var more;
      more, rest := PathThere(tail, path[1..]);
      ps := [p] + more;
      StepInFront(p, key, more, path);
      Dotted(StepText(p, key), StepsText(more, path[1..]), "]" + rest);
    }
  }

  lemma StepInFront(p: Step, key: string, more: seq<Step>, path: seq<string>)
    requires |path| > 1 && key == path[0] && IsStep(p, key) && AreSteps(more, path[1..])
    ensures AreSteps([p] + more, path)
    ensures StepsText([p] + more, path) == StepText(p, key) + ("." + StepsText(more, path[1..]))
  {
    hide IsStep, StepText;
    assert ([p] + more)[1..] == more;
  }

  /** A statement is read as the header of a path exactly when it is one, in any spelling of its keys. */
  lemma HeaderExactly(s: string, path: seq<string>)
    ensures HeaderPath(s) == Some(path) <==> exists pre, ps, rest :: IsHeader(s, path, pre, ps, rest)
  {
    if HeaderPath(s) == Some(path) { HeaderThere(s, path); }
    forall pre, ps, rest | IsHeader(s, path, pre, ps, rest) ensures HeaderPath(s) == Some(path) {
      HeaderFound(s, path, pre, ps, rest);
    }
  }

  lemma HeaderThere(s: string, path: seq<string>)
    requires HeaderPath(s) == Some(path)
    ensures exists pre, ps, rest :: IsHeader(s, path, pre, ps, rest)
  {
    hide ReadPath, LStrip, AreSteps, StepsText, AllSpace;
    var pre := LStripParts(s);
    var t := LStrip(s);
    assert t == "[" + t[1..];
    var ps, rest := PathThere(t[1..], path);
    assert IsHeader(s, path, pre, ps, rest);
  }

  lemma HeaderFound(s: string, path: seq<string>, pre: string, ps: seq<Step>, rest: string)
    requires IsHeader(s, path, pre, ps, rest)
    ensures HeaderPath(s) == Some(path)
  {
    hide ReadPath, LStrip, IsStep, StepsText;
    var inner := StepsText(ps, path) + ("]" + rest);
    LStripFinds(pre, "[" + inner);
    assert ("[" + inner)[1..] == inner;
    PathRead(ps, path, rest);
    StepsBegin(ps, path, "]" + rest);
  }

  /** The keys of a header do not begin with a bracket. */
  lemma StepsBegin(ps: seq<Step>, path: seq<string>, rest: string)
    requires AreSteps(ps, path)
    ensures StepsText(ps, path) + rest != "" && (StepsText(ps, path) + rest)[0] != '['
  {
    hide Spells, Spelled;
    var p, key := ps[0], path[0];
    SpellingRead(p.spelling, key, "]");
    BracketNotBare();
    assert StepText(p, key) != "";
    assert StepText(p, key)[0] == if p.before == "" then Spelled(p.spelling, key)[0] else p.before[0];
    assert StepsText(ps, path)[0] == StepText(p, key)[0];
  }

  lemma BracketNotBare()
    ensures !IsBare('[') && !IsBare(']')
  {
  }

  /** A line that begins with a bracket is a header of some kind. */
  lemma AnyHeaderExactly(s: string)
    ensures IsAnyHeader(s) <==> exists pre, rest :: AllSpace(pre) && s == pre + ("[" + rest)
  {
    if IsAnyHeader(s) {
      var pre := LStripParts(s);
      assert LStrip(s) == "[" + LStrip(s)[1..];
    }
    forall pre, rest | AllSpace(pre) && s == pre + ("[" + rest) ensures IsAnyHeader(s) {
      LStripFinds(pre, "[" + rest);
    }
  }
}
