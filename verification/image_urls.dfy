/** Inline images as data URLs: their size, and compressing one down to a target. */
module ImageUrls {
  import opened Wrappers

  // ---- base64 (section 4 of RFC 4648) ----

  function Letter(n: int): char
    requires 0 <= n < 64
  {
    if n < 26 then 'A' + n as char
    else if n < 52 then 'a' + (n - 26) as char
    else if n < 62 then '0' + (n - 52) as char
    else if n == 62 then '+' else '/'
  }

  /** The four characters of up to three bytes. */
  function Group(d: seq<Byte>): string
    requires d != []
  {
    var a, b, c := d[0] as int, if |d| > 1 then d[1] as int else 0, if |d| > 2 then d[2] as int else 0;
    [Letter(a / 4), Letter(a % 4 * 16 + b / 16),
     if |d| > 1 then Letter(b % 16 * 4 + c / 64) else '=',
     if |d| > 2 then Letter(c % 64) else '=']
  }

  function Encoded(d: seq<Byte>): string {
    if |d| == 0 then "" else if |d| <= 3 then Group(d) else Group(d) + Encoded(d[3..])
  }

  predicate IsCode(c: char) { 'A' <= c <= 'Z' || 'a' <= c <= 'z' || '0' <= c <= '9' || c == '+' || c == '/' || c == '=' }

  predicate AllCode(s: string) { forall i | 0 <= i < |s| :: IsCode(s[i]) }

  lemma GroupShape(d: seq<Byte>)
    requires d != []
    ensures var g := Group(d);
            && |g| == 4 && AllCode(g) && (g[3] == '=' <==> |d| < 3) && (g[2] == '=' <==> |d| < 2)
  {
  }

  /** Four characters for three bytes begun, and as many = at the end as bytes are missing. */
  lemma {:induction false} EncodedShape(d: seq<Byte>)
    ensures |Encoded(d)| == (|d| + 2) / 3 * 4
    ensures d != [] ==> Padding(Encoded(d)) == (3 - |d| % 3) % 3
  {
    if |d| > 3 {
      EncodedShape(d[3..]);
      ShapeStep(d, d[3..], Encoded(d[3..]), Encoded(d));
    } else if d != [] {
      GroupShape(d);
    }
  }

  lemma ShapeStep(d: seq<Byte>, rest: seq<Byte>, tail: string, e: string)
    requires |d| > 3 && rest == d[3..] && e == Group(d) + tail
    requires |tail| == (|rest| + 2) / 3 * 4 && Padding(tail) == (3 - |rest| % 3) % 3
    ensures |e| == (|d| + 2) / 3 * 4 && Padding(e) == (3 - |d| % 3) % 3
  {
    GroupShape(d);
    ThreeMore(|rest|, |d|);
    PaddingBehind(Group(d), tail);
  }

  lemma ThreeMore(rest: nat, n: nat)
    requires n == rest + 3
    ensures (n + 2) / 3 * 4 == (rest + 2) / 3 * 4 + 4 && (3 - n % 3) % 3 == (3 - rest % 3) % 3
  {
  }

  /** The = at the end of a text, at most two. */
  function Padding(e: string): nat {
    if |e| >= 2 && e[|e| - 2] == '=' && e[|e| - 1] == '=' then 2 else if |e| >= 1 && e[|e| - 1] == '=' then 1 else 0
  }

  lemma PaddingBehind(a: string, b: string)
    requires |b| >= 2
    ensures Padding(a + b) == Padding(b)
  {
    assert (a + b)[|a + b| - 1] == b[|b| - 1] && (a + b)[|a + b| - 2] == b[|b| - 2];
  }

  lemma {:induction false} EncodedCode(d: seq<Byte>)
    ensures AllCode(Encoded(d))
  {
    if d != [] { GroupShape(d); }
    if |d| > 3 { EncodedCode(d[3..]); }
  }

  // ---- data URLs ----

  const IMAGE: string := "data:image/"
  const BASE64: string := ";base64,"

  predicate At(s: string, part: string, i: nat) { i + |part| <= |s| && s[i..i + |part|] == part }

  lemma AtFirst(s: string, part: string, i: nat)
    requires At(s, part, i) && part != ""
    ensures i < |s| && s[i] == part[0] && part[0] in s
  {
    assert s[i..i + |part|][0] == s[i];
  }

  function Find(s: string, part: string, i: nat): Option<nat>
    ensures Find(s, part, i).Some? ==> At(s, part, Find(s, part, i).value)
    decreases |s| - i
  {
    if i > |s| then None else if At(s, part, i) then Some(i) else if i == |s| then None else Find(s, part, i + 1)
  }

  /** What stands behind the base64 marker of an image's data URL. */
  function Payload(url: string): Option<string> {
    var at := Find(url, BASE64, 0);
    if !At(url, IMAGE, 0) || at.None? then None else Some(url[at.value + |BASE64|..])
  }

  /** The number of bytes an inline image decodes to; other texts have none. */
  function Size(url: string): nat {
    var payload := Payload(url);
    if payload.None? then 0 else Bytes(|payload.value|, Padding(payload.value))
  }

  /** The number of bytes that some characters stand for, of which some are padding. */
  function Bytes(length: nat, padding: nat): nat {
    if length * 3 / 4 < padding then 0 else length * 3 / 4 - padding
  }

  const JPEG: string := "data:image/jpeg;base64,"

  function JpegUrl(d: seq<Byte>): string { JPEG + Encoded(d) }

  lemma {:induction false} FindFirst(s: string, part: string, from: nat, at: nat)
    requires from <= at && At(s, part, at) && forall i | from <= i < at :: !At(s, part, i)
    ensures Find(s, part, from) == Some(at)
    decreases at - from
  {
    if from < at { FindFirst(s, part, from + 1, at); }
  }

  /** The marker is found where it was put, if nothing before it has its first character. */
  lemma Headed(image: string, kind: string, marker: string, code: string, url: string)
    requires marker != "" && marker[0] !in image && marker[0] !in kind && url == image + kind + marker + code
    ensures At(url, image, 0) && Find(url, marker, 0) == Some(|image| + |kind|)
    ensures url[|image| + |kind| + |marker|..] == code
  {
    var head := image + kind;
    assert url == head + (marker + code);
    forall i | 0 <= i < |head| ensures !At(url, marker, i) {
      assert head[i] in image || head[i] in kind;
      assert url[i] == head[i];
      if At(url, marker, i) { AtFirst(url, marker, i); }
    }
    FindFirst(url, marker, 0, |head|);
  }

  lemma JpegParts(image: string, kind: string, marker: string, jpeg: string)
    requires image == IMAGE && kind == "jpeg" && marker == BASE64 && jpeg == JPEG
    ensures marker != "" && marker[0] == ';' && ';' !in image && ';' !in kind && jpeg == image + kind + marker
  {
  }

  lemma JpegPayload(d: seq<Byte>, code: string, url: string)
    requires code == Encoded(d) && url == JpegUrl(d)
    ensures Payload(url) == Some(code)
  {
    var image, kind, marker := IMAGE, "jpeg", BASE64;
    JpegParts(image, kind, marker, JPEG);
    Headed(image, kind, marker, code, url);
  }

  /** The size read off a JPEG's data URL is exactly the number of its bytes. */
  lemma JpegSize(d: seq<Byte>)
    ensures Size(JpegUrl(d)) == |d|
  {
    var code, url := Encoded(d), JpegUrl(d);
    JpegPayload(d, code, url);
    PayloadSize(d, code, url);
  }

  lemma PayloadSize(d: seq<Byte>, code: string, url: string)
    requires code == Encoded(d) && Payload(url) == Some(code)
    ensures Size(url) == |d|
  {
    SizeOf(code, url);
    EncodedBytes(d);
  }

  lemma SizeOf(code: string, url: string)
    requires Payload(url) == Some(code)
    ensures Size(url) == Bytes(|code|, Padding(code))
  {
  }

  lemma EncodedBytes(d: seq<Byte>)
    ensures Bytes(|Encoded(d)|, Padding(Encoded(d))) == |d|
  {
    EncodedShape(d);
    if d != [] { PaddedCount(|d|, |Encoded(d)|, Padding(Encoded(d))); }
  }

  lemma PaddedCount(n: nat, length: nat, padding: nat)
    requires length == (n + 2) / 3 * 4 && padding == (3 - n % 3) % 3
    ensures Bytes(length, padding) == n
  {
    var q, r := n / 3, n % 3;
    assert n == 3 * q + r;
    if r == 0 {
      assert (n + 2) / 3 == q;
    } else {
      assert (n + 2) / 3 == q + 1;
    }
  }

  // ---- compressing ----

  /** What opening and compressing an image gives: its longer edge if it opens, and a JPEG for a quality and an edge. */
  datatype Codec = Codec(longest: string -> Option<nat>, jpeg: (string, nat, nat) -> seq<Byte>)

  const SMALLEST_EDGE: nat := 64

  function NextEdge(edge: nat): nat { if edge * 17 / 20 > SMALLEST_EDGE then edge * 17 / 20 else SMALLEST_EDGE }

  /** How far an edge is from the smallest, which an even smaller one reaches in one step. */
  function EdgeRank(edge: nat): nat { if edge < SMALLEST_EDGE then SMALLEST_EDGE + 1 else edge }

  /** The first JPEG within the target as quality goes down to 74 and then the edge to 64. */
  function FirstFit(codec: Codec, encoded: string, target: nat, quality: nat, edge: nat): Option<seq<Byte>>
    decreases quality, EdgeRank(edge)
  {
    var d := codec.jpeg(encoded, quality, edge);
    if |d| <= target then Some(d)
    else if quality > 76 then FirstFit(codec, encoded, target, quality - 4, edge)
    else if NextEdge(edge) == edge then None
    else FirstFit(codec, encoded, target, quality, NextEdge(edge))
  }

  function Resized(codec: Codec, url: string, target: nat, maxEdge: nat): Result<string> {
    if Size(url) <= target then Success(url)
    else
      var encoded := Payload(url).GetOr("");
      var longest := codec.longest(encoded);
      if longest.None? then Failure
      else
        var edge := if maxEdge < longest.value then maxEdge else longest.value;
        var fit := FirstFit(codec, encoded, target, 86, edge);
        if fit.None? then Failure else Success(JpegUrl(fit.value))
  }

  /** The loop ends whatever the compressor gives. */
  method ResizeDataUrl(codec: Codec, url: string, target: nat, maxEdge: nat) returns (r: Result<string>)
    ensures r == Resized(codec, url, target, maxEdge)
    ensures r.Success? ==> Size(r.value) <= target
  {
    if Size(url) <= target {
      return Success(url);
    }
    var encoded := Payload(url).GetOr("");
    var longest := codec.longest(encoded);
    if longest.None? {
      return Failure;
    }
    var quality: nat, edge: nat := 86, if maxEdge < longest.value then maxEdge else longest.value;
    while true
      invariant FirstFit(codec, encoded, target, 86, if maxEdge < longest.value then maxEdge else longest.value)
                == FirstFit(codec, encoded, target, quality, edge)
      decreases quality, EdgeRank(edge)
    {
      var data := codec.jpeg(encoded, quality, edge);
      if |data| <= target {
        JpegSize(data);
        return Success(JpegUrl(data));
      }
      if quality > 76 {
        quality := quality - 4;
      } else {
        var next := NextEdge(edge);
        if next == edge {
          return Failure;
        }
        edge := next;
      }
    }
  }

  /** A resized image is within the target, at most as large as before, and again an image. */
  lemma {:induction false} FitWithin(codec: Codec, encoded: string, target: nat, quality: nat, edge: nat)
    ensures var fit := FirstFit(codec, encoded, target, quality, edge);
            fit.Some? ==> |fit.value| <= target && exists q, e :: fit.value == codec.jpeg(encoded, q, e)
    decreases quality, EdgeRank(edge)
  {
    var d := codec.jpeg(encoded, quality, edge);
    if |d| > target {
      if quality > 76 {
        FitWithin(codec, encoded, target, quality - 4, edge);
      } else if NextEdge(edge) != edge {
        FitWithin(codec, encoded, target, quality, NextEdge(edge));
      }
    }
  }

  /** The edges tried at the lowest quality. */
  function Edges(edge: nat): seq<nat>
    decreases EdgeRank(edge)
  {
    [edge] + if NextEdge(edge) == edge then [] else Edges(NextEdge(edge))
  }

  /** The edges tried end at 64, even for an image that is smaller than that. */
  lemma {:induction false} EdgesEnd(edge: nat)
    ensures Edges(edge)[|Edges(edge)| - 1] == SMALLEST_EDGE
    ensures forall i | 0 <= i < |Edges(edge)| - 1 :: Edges(edge)[i + 1] == NextEdge(Edges(edge)[i])
    decreases EdgeRank(edge)
  {
    if NextEdge(edge) != edge { EdgesEnd(NextEdge(edge)); }
  }

  predicate NoneFits(codec: Codec, encoded: string, target: nat, quality: nat, edges: seq<nat>) {
    forall i | 0 <= i < |edges| :: |codec.jpeg(encoded, quality, edges[i])| > target
  }

  lemma {:induction false} LowestFails(codec: Codec, encoded: string, target: nat, edge: nat)
    ensures FirstFit(codec, encoded, target, 74, edge).None? <==> NoneFits(codec, encoded, target, 74, Edges(edge))
    decreases EdgeRank(edge)
  {
    if NextEdge(edge) == edge {
      NoneFitsStep(codec, encoded, target, edge, []);
    } else {
      LowestFails(codec, encoded, target, NextEdge(edge));
      NoneFitsStep(codec, encoded, target, edge, Edges(NextEdge(edge)));
    }
  }

  lemma NoneFitsStep(codec: Codec, encoded: string, target: nat, edge: nat, rest: seq<nat>)
    ensures NoneFits(codec, encoded, target, 74, [edge] + rest) <==>
              |codec.jpeg(encoded, 74, edge)| > target && NoneFits(codec, encoded, target, 74, rest)
  {
    var all := [edge] + rest;
    assert all[0] == edge && all[1..] == rest;
    if NoneFits(codec, encoded, target, 74, all) {
      forall i | 0 <= i < |rest| ensures |codec.jpeg(encoded, 74, rest[i])| > target { assert all[i + 1] == rest[i]; }
    }
  }

  /**
   Compressing fails exactly when no quality from 86 down to 74 fits at the first
   edge and no edge from there to 64 fits at the lowest quality.
   */
  lemma FailsExactly(codec: Codec, encoded: string, target: nat, edge: nat)
    ensures FirstFit(codec, encoded, target, 86, edge).None? <==>
              && (forall q | q in {86, 82, 78} :: |codec.jpeg(encoded, q, edge)| > target)
              && NoneFits(codec, encoded, target, 74, Edges(edge))
  {
    LowestFails(codec, encoded, target, edge);
    assert FirstFit(codec, encoded, target, 78, edge) ==
           if |codec.jpeg(encoded, 78, edge)| <= target then Some(codec.jpeg(encoded, 78, edge))
           else FirstFit(codec, encoded, target, 74, edge);
  }

  lemma ResizedWithin(codec: Codec, url: string, target: nat, maxEdge: nat)
    ensures var r := Resized(codec, url, target, maxEdge);
            r.Success? ==> Size(r.value) <= target && (Size(url) <= target ==> r.value == url)
  {
    var encoded := Payload(url).GetOr("");
    var longest := codec.longest(encoded);
    if Size(url) > target && longest.Some? {
      var edge := if maxEdge < longest.value then maxEdge else longest.value;
      FitWithin(codec, encoded, target, 86, edge);
      var fit := FirstFit(codec, encoded, target, 86, edge);
      if fit.Some? { JpegSize(fit.value); }
    }
  }
}
