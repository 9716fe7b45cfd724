/** Which JPEG a large image becomes, and which images of a request may not be changed. */
module ImageChoice {
  import opened Wrappers
  import opened ImageUrls
  import opened ImageBounding
  import opened ImageFixedPoint
  import opened ImageRequests

  // ---- the settings that are tried ----

  /** A quality and a longest edge. */
  datatype Setting = Setting(quality: nat, edge: nat)

  /** Edges, each 17/20 of the one before but at least 64, down to 64. */
  ghost predicate AreEdges(edges: seq<nat>, edge: nat) {
    && edges != [] && edges[0] == edge && edges[|edges| - 1] == 64
    && forall i | 0 <= i < |edges| - 1 :: edges[i] != 64 && edges[i + 1] == Max(edges[i] * 17 / 20, 64)
  }

  /** First the qualities 86, 82 and 78 with the first edge, then 74 with each edge. */
  function Tried(edges: seq<nat>): seq<Setting>
    requires edges != []
  {
    [Setting(86, edges[0]), Setting(82, edges[0]), Setting(78, edges[0])] + Lowest(edges)
  }

  function JpegAt(codec: Codec, encoded: string, s: Setting): seq<Byte> { codec.jpeg(encoded, s.quality, s.edge) }

  /** The JPEG of the first of some settings that fits, or none if none fits. */
  ghost predicate IsFirstFit(codec: Codec, encoded: string, target: nat, tried: seq<Setting>, fit: Option<seq<Byte>>) {
    match fit
    case None => forall i | 0 <= i < |tried| :: |JpegAt(codec, encoded, tried[i])| > target
    case Some(d) =>
      exists i :: 0 <= i < |tried| && d == JpegAt(codec, encoded, tried[i]) && |d| <= target
                  && forall j | 0 <= j < i :: |JpegAt(codec, encoded, tried[j])| > target
  }

  lemma {:induction false} EdgesDown(edge: nat) returns (edges: seq<nat>)
    ensures AreEdges(edges, edge)
    decreases if edge < 64 then 65 else edge
  {
    if edge == 64 {
      edges := [64];
    } else {
      var more := EdgesDown(Max(edge * 17 / 20, 64));
      edges := [edge] + more;
    }
  }

  lemma EdgesBehind(edges: seq<nat>, edge: nat)
    requires AreEdges(edges, edge) && edge != 64
    ensures |edges| > 1 && AreEdges(edges[1..], Max(edge * 17 / 20, 64))
  {
  }

  /** One more setting in front of those tried. */
  lemma FitStep(codec: Codec, encoded: string, target: nat, s: Setting, tried: seq<Setting>, fit: Option<seq<Byte>>)
    requires IsFirstFit(codec, encoded, target, tried, fit)
    ensures var d := JpegAt(codec, encoded, s);
            IsFirstFit(codec, encoded, target, [s] + tried, if |d| <= target then Some(d) else fit)
  {
    var d, all := JpegAt(codec, encoded, s), [s] + tried;
    hide JpegAt;
    assert all[0] == s;
    if |d| <= target {
      assert IsFirstFit(codec, encoded, target, all, Some(d));
    } else if fit.Some? {
      FitMoves(codec, encoded, target, s, tried, fit.value);
    } else {
      forall i | 0 <= i < |all| ensures |JpegAt(codec, encoded, all[i])| > target {
        if i > 0 { assert all[i] == tried[i - 1]; }
      }
    }
  }

  lemma FitMoves(codec: Codec, encoded: string, target: nat, s: Setting, tried: seq<Setting>, fit: seq<Byte>)
    requires IsFirstFit(codec, encoded, target, tried, Some(fit)) && |JpegAt(codec, encoded, s)| > target
    ensures IsFirstFit(codec, encoded, target, [s] + tried, Some(fit))
  {
    hide JpegAt;
    var all := [s] + tried;
    var i :| 0 <= i < |tried| && fit == JpegAt(codec, encoded, tried[i]) && |fit| <= target
             && forall j | 0 <= j < i :: |JpegAt(codec, encoded, tried[j])| > target;
    forall j | 0 <= j < i + 1 ensures |JpegAt(codec, encoded, all[j])| > target {
      if j > 0 { assert all[j] == tried[j - 1]; }
    }
    assert all[i + 1] == tried[i];
  }

  function Lowest(edges: seq<nat>): seq<Setting> { seq(|edges|, i requires 0 <= i < |edges| => Setting(74, edges[i])) }

  lemma {:induction false} LowestFit(codec: Codec, encoded: string, target: nat, edges: seq<nat>, edge: nat)
    requires AreEdges(edges, edge)
    ensures IsFirstFit(codec, encoded, target, Lowest(edges), FirstFit(codec, encoded, target, 74, edge))
    decreases |edges|
  {
    hide IsFirstFit;
    if edge == 64 {
      OnlyOne(edges);
      NoneTried(codec, encoded, target);
      FitStep(codec, encoded, target, Setting(74, 64), [], None);
    } else {
      EdgesBehind(edges, edge);
      var next := Max(edge * 17 / 20, 64);
      assert NextEdge(edge) == next != edge;
      LowestFit(codec, encoded, target, edges[1..], next);
      FitStep(codec, encoded, target, Setting(74, edge), Lowest(edges[1..]), FirstFit(codec, encoded, target, 74, next));
      assert [Setting(74, edge)] + Lowest(edges[1..]) == Lowest(edges);
    }
  }

  lemma OnlyOne(edges: seq<nat>)
    requires AreEdges(edges, 64)
    ensures [Setting(74, 64)] + [] == Lowest(edges)
  {
    assert |edges| == 1;
  }

  lemma NoneTried(codec: Codec, encoded: string, target: nat)
    ensures IsFirstFit(codec, encoded, target, [], None)
  {
  }

  /** The first fit is the first of all settings in their order. */
  lemma FirstFitExactly(codec: Codec, encoded: string, target: nat, edges: seq<nat>, edge: nat)
    requires AreEdges(edges, edge)
    ensures IsFirstFit(codec, encoded, target, Tried(edges), FirstFit(codec, encoded, target, 86, edge))
  {
    hide IsFirstFit;
    LowestFit(codec, encoded, target, edges, edge);
    var f74 := FirstFit(codec, encoded, target, 74, edge);
    FitStep(codec, encoded, target, Setting(78, edge), Lowest(edges), f74);
    var f78 := FirstFit(codec, encoded, target, 78, edge);
    FitStep(codec, encoded, target, Setting(82, edge), [Setting(78, edge)] + Lowest(edges), f78);
    var f82 := FirstFit(codec, encoded, target, 82, edge);
    FitStep(codec, encoded, target, Setting(86, edge), [Setting(82, edge)] + ([Setting(78, edge)] + Lowest(edges)), f82);
    assert Tried(edges) == [Setting(86, edge)] + ([Setting(82, edge)] + ([Setting(78, edge)] + Lowest(edges)));
  }

  /**
   A text within the target stays.  A larger image becomes the first JPEG within it, from the
   best quality at the smaller of its own and the largest allowed edge on; without one, or if
   it does not open, the pass fails.
   */
  ghost predicate Becomes(codec: Codec, s: string, target: nat, maxEdge: nat, r: Result<string>) {
    if Size(s) <= target then r == Success(s)
    else
      exists encoded :: Payload(s) == Some(encoded) &&
        match codec.longest(encoded)
        case None => r == Failure
        case Some(longest) =>
          exists edges, fit ::
            && AreEdges(edges, if longest < maxEdge then longest else maxEdge)
            && IsFirstFit(codec, encoded, target, Tried(edges), fit)
            && r == if fit.None? then Failure else Success(JpegUrl(fit.value))
  }

  lemma ResizedExactly(codec: Codec, s: string, target: nat, maxEdge: nat)
    ensures Becomes(codec, s, target, maxEdge, Resized(codec, s, target, maxEdge))
  {
    hide FirstFit, IsFirstFit, AreEdges, Payload, Tried;
    if Size(s) > target {
      var encoded := Payload(s).value;
      var longest := codec.longest(encoded);
      if longest.Some? {
        var edge := if longest.value < maxEdge then longest.value else maxEdge;
        var edges := EdgesDown(edge);
        FirstFitExactly(codec, encoded, target, edges, edge);
        assert IsFirstFit(codec, encoded, target, Tried(edges), FirstFit(codec, encoded, target, 86, edge));
      }
    }
  }

  // ---- all texts of a value ----

  /** A text in a value; held ones stand in an output marked as original. */
  datatype Leaf = Leaf(s: string, held: bool)

  function Leaves(v: Value, held: bool): seq<Leaf>
    decreases v, 0
  {
    match v
    case Str(s) => [Leaf(s, held)]
    case Atom => []
    case List(items) => ItemLeaves(items, held)
    case Dict(_, items) => ItemLeaves(items, held || Marked(v, ORIGINAL))
  }

  function ItemLeaves(vs: seq<Value>, held: bool): seq<Leaf>
    decreases vs, 1
  {
    if vs == [] then [] else Leaves(vs[0], held) + ItemLeaves(vs[1..], held)
  }

  function Texts(v: Value): seq<string>
    decreases v, 0
  {
    match v
    case Str(s) => [s]
    case Atom => []
    case List(items) => ItemTexts(items)
    case Dict(_, items) => ItemTexts(items)
  }

  function ItemTexts(vs: seq<Value>): seq<string>
    decreases vs, 1
  {
    if vs == [] then [] else Texts(vs[0]) + ItemTexts(vs[1..])
  }

  /** The texts of the result: held ones as they were, each other one as it becomes on its own. */
  ghost predicate EachBecomes(codec: Codec, ls: seq<Leaf>, ts: seq<string>, target: nat, edge: nat) {
    |ts| == |ls| && forall i | 0 <= i < |ls| ::
      if ls[i].held then ts[i] == ls[i].s else Becomes(codec, ls[i].s, target, edge, Success(ts[i]))
  }

  lemma EachBoth(codec: Codec, ls: seq<Leaf>, ts: seq<string>, ms: seq<Leaf>, us: seq<string>, target: nat, edge: nat)
    requires EachBecomes(codec, ls, ts, target, edge) && EachBecomes(codec, ms, us, target, edge)
    ensures EachBecomes(codec, ls + ms, ts + us, target, edge)
  {
    hide Becomes;
  }

  lemma {:induction false} HeldStay(codec: Codec, v: Value, target: nat, edge: nat)
    ensures EachBecomes(codec, Leaves(v, true), Texts(v), target, edge)
    decreases v, 0
  {
    hide Becomes, Marked;
    match v
    case List(items) => HeldItemsStay(codec, items, target, edge);
    case Dict(_, items) => HeldItemsStay(codec, items, target, edge);
    case _ =>
  }

  lemma {:induction false} HeldItemsStay(codec: Codec, vs: seq<Value>, target: nat, edge: nat)
    ensures EachBecomes(codec, ItemLeaves(vs, true), ItemTexts(vs), target, edge)
    decreases vs, 1
  {
    hide Becomes, Leaves, Texts;
    if vs != [] {
      HeldStay(codec, vs[0], target, edge);
      HeldItemsStay(codec, vs[1..], target, edge);
      EachBoth(codec, Leaves(vs[0], true), Texts(vs[0]), ItemLeaves(vs[1..], true), ItemTexts(vs[1..]), target, edge);
    }
  }

  /** Bounding changes each text on its own, but for the held ones. */
  lemma {:induction false} BoundLeaves(codec: Codec, v: Value, target: nat, edge: nat)
    requires BoundValue(codec, v, target, edge).Success?
    ensures EachBecomes(codec, Leaves(v, false), Texts(BoundValue(codec, v, target, edge).value), target, edge)
    decreases v, 0
  {
    hide Becomes, Marked, Resized;
    match v
    case Str(s) => ResizedExactly(codec, s, target, edge);
    case Atom =>
    case List(items) => BoundItemLeaves(codec, items, target, edge);
    case Dict(_, items) =>
      if Marked(v, ORIGINAL) {
        HeldItemsStay(codec, items, target, edge);
      } else {
        BoundItemLeaves(codec, items, target, edge);
      }
  }

  lemma {:induction false} BoundItemLeaves(codec: Codec, vs: seq<Value>, target: nat, edge: nat)
    requires BoundItems(codec, vs, target, edge).Success?
    ensures EachBecomes(codec, ItemLeaves(vs, false), ItemTexts(BoundItems(codec, vs, target, edge).value), target, edge)
    decreases vs, 1
  {
    hide Becomes, Leaves, Texts, BoundValue, EachBecomes;
    if vs == [] {
      NoLeaves(codec, target, edge);
    } else {
      var w, ws := BoundValue(codec, vs[0], target, edge).value, BoundItems(codec, vs[1..], target, edge).value;
      BoundLeaves(codec, vs[0], target, edge);
      BoundItemLeaves(codec, vs[1..], target, edge);
      EachBoth(codec, Leaves(vs[0], false), Texts(w), ItemLeaves(vs[1..], false), ItemTexts(ws), target, edge);
      assert ([w] + ws)[1..] == ws;
    }
  }

  lemma NoLeaves(codec: Codec, target: nat, edge: nat)
    ensures EachBecomes(codec, [], [], target, edge)
  {
  }

  // ---- a pass ----

  /**
   After a pass that changed something, each text behind the boundaries is what it becomes under the
   pass's target, from the values with bounded previews: with edges up to 2,200 for a single
   image in the whole request, and up to 1,400 for many.
   */
  lemma PassChooses(codec: Codec, vs: seq<Value>, ws: seq<Value>) returns (bounded: seq<Value>)
    requires Sound(codec) && WithBounded(codec, vs) == Success(Some(ws))
    ensures Previews(codec, vs) == Success(bounded)
    ensures var edge := if PrefixStats(vs).count == 0 && |AllSizes(bounded)| == 1 then 2200 else 1400;
            EachBecomes(codec, ItemLeaves(bounded, false), ItemTexts(Suffixes(ws)), PassTarget(vs, bounded), edge)
  {
    hide EachBecomes, BoundItems, Previews, AllSizes, PrefixStats, Suffixes, PassTarget, Sound, WithBounded;
    bounded := PassResult(codec, vs, ws);
    SomeSizes(AllSizes(bounded));
    BoundItemLeaves(codec, bounded, PassTarget(vs, bounded), PassEdge(vs, bounded));
  }

  lemma SomeSizes(sizes: seq<nat>)
    requires sizes != []
    ensures |sizes| >= 1
  {
  }

  // ---- the boundary ----

  /** A value and all that is in it. */
  function Inside(v: Value): seq<Value>
    decreases v, 0
  {
    [v] + match v
          case List(items) => InsideAll(items)
          case Dict(_, items) => InsideAll(items)
          case _ => []
  }

  function InsideAll(vs: seq<Value>): seq<Value>
    decreases vs, 1
  {
    if vs == [] then [] else Inside(vs[0]) + InsideAll(vs[1..])
  }

  predicate IsEncrypted(v: Value) {
    v.Dict? && Field(v, "encrypted_content").Str? && Field(v, "encrypted_content").s != ""
  }

  /** Encrypted content is found wherever it stands inside a value. */
  lemma {:induction false} EncryptedInside(v: Value)
    ensures HasEncrypted(v) <==> exists d :: d in Inside(v) && IsEncrypted(d)
    decreases v, 0
  {
    match v
    case Str(_) => assert Inside(v) == [v];
    case Atom => assert Inside(v) == [v];
    case List(items) =>
      EncryptedInAll(items);
      assert forall d :: d in Inside(v) <==> d == v || d in InsideAll(items);
    case Dict(_, items) =>
      EncryptedInAll(items);
      assert forall d :: d in Inside(v) <==> d == v || d in InsideAll(items);
      assert v in Inside(v);
  }

  lemma {:induction false} EncryptedInAll(vs: seq<Value>)
    ensures AnyEncrypted(vs) <==> exists d :: d in InsideAll(vs) && IsEncrypted(d)
    decreases vs, 1
  {
    hide IsEncrypted, HasEncrypted;
    if vs != [] {
      EncryptedInside(vs[0]);
      EncryptedInAll(vs[1..]);
      assert forall d :: d in InsideAll(vs) <==> d in Inside(vs[0]) || d in InsideAll(vs[1..]);
    }
  }

  /** The boundary stands behind the last item with encrypted content; without one all may be changed. */
  lemma {:induction false} BoundaryExactly(items: seq<Value>)
    ensures var n := Boundary(items);
            && (n > 0 ==> exists d :: d in Inside(items[n - 1]) && IsEncrypted(d))
            && forall k | n <= k < |items| :: forall d | d in Inside(items[k]) :: !IsEncrypted(d)
  {
    hide IsEncrypted, HasEncrypted, Inside;
    if items != [] {
      EncryptedInside(items[|items| - 1]);
      if !HasEncrypted(items[|items| - 1]) { BoundaryExactly(items[..|items| - 1]); }
    }
  }

  // ---- what counts ----

  predicate Holds(s: string, part: string) { exists i :: 0 <= i <= |s| && part <= s[i..] }

  lemma {:induction false} FindsIt(s: string, part: string, i: nat)
    requires i <= |s|
    ensures Find(s, part, i).Some? <==> exists j :: i <= j <= |s| && part <= s[j..]
    decreases |s| - i
  {
    AtStart(s, part, i);
    if !At(s, part, i) && i < |s| { FindsIt(s, part, i + 1); }
  }

  lemma AtStart(s: string, part: string, i: nat)
    requires i <= |s|
    ensures At(s, part, i) <==> part <= s[i..]
  {
    if i + |part| <= |s| { assert s[i..][..|part|] == s[i..i + |part|]; }
  }

  /** The output of a tool, with a text part that holds the marker somewhere. */
  ghost predicate IsMarkedOutput(v: Value, marker: string) {
    && Field(v, "type") == Str("custom_tool_call_output") && Field(v, "output").List?
    && exists k :: 0 <= k < |Field(v, "output").items| && IsMarkedText(Field(v, "output").items[k], marker)
  }

  ghost predicate IsMarkedText(part: Value, marker: string) {
    Field(part, "type") == Str("input_text") && Field(part, "text").Str? && Holds(Field(part, "text").s, marker)
  }

  lemma {:induction false} SomeMarked(items: seq<Value>, marker: string)
    ensures AnyMarked(items, marker) <==> exists k :: 0 <= k < |items| && IsMarkedText(items[k], marker)
  {
    hide MarkedPart, IsMarkedText;
    if items != [] {
      SomeMarked(items[1..], marker);
      TextMarked(items[0], marker);
      OneMarked(items, marker);
    }
  }

  lemma OneMarked(items: seq<Value>, marker: string)
    requires items != []
    ensures (exists k :: 0 <= k < |items| && IsMarkedText(items[k], marker))
            <==> IsMarkedText(items[0], marker) || exists k :: 0 <= k < |items[1..]| && IsMarkedText(items[1..][k], marker)
  {
    hide IsMarkedText;
    assert forall k | 0 <= k < |items[1..]| :: items[1..][k] == items[k + 1];
    if k :| 0 <= k < |items| && IsMarkedText(items[k], marker) {
      if k > 0 { assert items[1..][k - 1] == items[k]; }
    }
  }

  lemma TextMarked(part: Value, marker: string)
    ensures MarkedPart(part, marker) <==> IsMarkedText(part, marker)
  {
    if Field(part, "text").Str? { FindsIt(Field(part, "text").s, marker, 0); }
  }

  lemma MarkedExactly(v: Value, marker: string)
    ensures Marked(v, marker) <==> IsMarkedOutput(v, marker)
  {
    hide AnyMarked, IsMarkedText;
    if Field(v, "output").List? { SomeMarked(Field(v, "output").items, marker); }
  }

  /** The sizes of the texts that are inline images, in order. */
  function TextSizes(ts: seq<string>): seq<nat> {
    if ts == [] then [] else (if Size(ts[0]) > 0 then [Size(ts[0])] else []) + TextSizes(ts[1..])
  }

  lemma {:induction false} TextSizesBoth(a: seq<string>, b: seq<string>)
    ensures TextSizes(a + b) == TextSizes(a) + TextSizes(b)
  {
    if a == [] {
      assert a + b == b;
    } else {
      assert (a + b)[1..] == a[1..] + b;
      TextSizesBoth(a[1..], b);
    }
  }

  lemma {:induction false} SizesAre(v: Value)
    ensures Sizes(v) == TextSizes(Texts(v))
    decreases v, 0
  {
    match v
    case Str(s) => assert [s][1..] == [];
    case Atom =>
    case List(items) => ItemSizesAre(items);
    case Dict(_, items) => ItemSizesAre(items);
  }

  lemma {:induction false} ItemSizesAre(vs: seq<Value>)
    ensures ItemSizes(vs) == TextSizes(ItemTexts(vs))
    decreases vs, 1
  {
    if vs != [] {
      SizesAre(vs[0]);
      ItemSizesAre(vs[1..]);
      TextSizesBoth(Texts(vs[0]), ItemTexts(vs[1..]));
    }
  }

  /** What counts for the target are the inline images of all values but those that are outputs marked as original. */
  lemma {:induction false} CountedExactly(vs: seq<Value>)
    ensures AllSizes(vs) == CountedSizes(vs)
  {
    hide Marked, IsMarkedOutput;
    if vs != [] {
      CountedExactly(vs[1..]);
      MarkedExactly(vs[0], "[litellm-menu original image]");
      SizesAre(vs[0]);
    }
  }

  ghost function CountedSizes(vs: seq<Value>): seq<nat> {
    if vs == [] then []
    else
      (if IsMarkedOutput(vs[0], "[litellm-menu original image]") then [] else TextSizes(Texts(vs[0])))
      + CountedSizes(vs[1..])
  }

  // ---- previews ----

  ghost predicate IsPreviewPart(part: Value) {
    Field(part, "type") == Str("input_image") && Field(part, "image_url").Str? && Size(Field(part, "image_url").s) > 0
  }

  /** The places of a list that hold a preview, with those of the list's rest moved by one. */
  ghost function PreviewPlaces(items: seq<Value>): set<nat> { set k: nat | k < |items| && IsPreviewPart(items[k]) }

  lemma {:induction false} PreviewsCounted(items: seq<Value>)
    ensures PreviewsIn(items) == |PreviewPlaces(items)|
  {
    hide IsPreviewPart;
    if items != [] {
      PreviewsCounted(items[1..]);
      PreviewAgrees(items[0]);
      PlacesMoved(items);
    }
  }

  lemma PreviewAgrees(part: Value)
    ensures IsPreview(part) <==> IsPreviewPart(part)
  {
  }

  lemma PlacesMoved(items: seq<Value>)
    requires items != []
    ensures |PreviewPlaces(items)| == |PreviewPlaces(items[1..])| + if IsPreviewPart(items[0]) then 1 else 0
  {
    hide IsPreviewPart;
    var rest := PreviewPlaces(items[1..]);
    var moved := set k: nat | k in rest :: k + 1;
    MovedCount(rest, moved);
    forall k: nat ensures k in PreviewPlaces(items) <==> (k == 0 && IsPreviewPart(items[0])) || k in moved {
      if k in PreviewPlaces(items) && k > 0 {
        assert items[1..][k - 1] == items[k] && k - 1 in rest;
      }
    }
    assert PreviewPlaces(items) == moved + if IsPreviewPart(items[0]) then {0} else {};
  }

  lemma {:induction false} MovedCount(ks: set<nat>, moved: set<nat>)
    requires moved == set k: nat | k in ks :: k + 1
    ensures |moved| == |ks| && 0 !in moved
    decreases |ks|
  {
    if ks != {} {
      var k :| k in ks;
      var less := set j: nat | j in ks - {k} :: j + 1;
      forall x: nat ensures x in moved <==> x in less || x == k + 1 {
        if x in moved { var j :| j in ks && x == j + 1; assert j != k ==> j in ks - {k}; }
        if x in less { var j :| j in ks - {k} && x == j + 1; assert j in ks; }
      }
      assert moved == less + {k + 1};
      MovedCount(ks - {k}, less);
    }
  }

  /** The lists of parts of all outermost outputs with references that are not marked as original. */
  ghost function PreviewLists(v: Value): seq<seq<Value>>
    decreases v, 0
  {
    match v
    case List(items) => PreviewListsOf(items)
    case Dict(_, items) =>
      if IsMarkedOutput(v, "[litellm-menu image references]") && !IsMarkedOutput(v, "[litellm-menu original image]")
      then [Field(v, "output").items] else PreviewListsOf(items)
    case _ => []
  }

  ghost function PreviewListsOf(vs: seq<Value>): seq<seq<Value>>
    decreases vs, 1
  {
    if vs == [] then [] else PreviewLists(vs[0]) + PreviewListsOf(vs[1..])
  }

  ghost function Total(lists: seq<seq<Value>>): nat {
    if lists == [] then 0 else |PreviewPlaces(lists[0])| + Total(lists[1..])
  }

  lemma {:induction false} TotalBoth(a: seq<seq<Value>>, b: seq<seq<Value>>)
    ensures Total(a + b) == Total(a) + Total(b)
  {
    hide PreviewPlaces;
    if a == [] {
      assert a + b == b;
    } else {
      assert (a + b)[1..] == a[1..] + b;
      TotalBoth(a[1..], b);
    }
  }

  /** The previews that count are the inline image parts of those outputs. */
  lemma {:induction false} PreviewsExactly(v: Value)
    ensures PreviewCount(v) == Total(PreviewLists(v))
    decreases v, 0
  {
    hide Marked, IsMarkedText, PreviewPlaces, PreviewsIn;
    match v
    case List(items) => ItemPreviewsExactly(items);
    case Dict(_, items) =>
      MarkedExactly(v, "[litellm-menu image references]");
      MarkedExactly(v, "[litellm-menu original image]");
      if Marked(v, REFERENCE) && !Marked(v, ORIGINAL) {
        var parts := Field(v, "output").items;
        PreviewsCounted(parts);
        assert [parts][1..] == [];
      } else {
        ItemPreviewsExactly(items);
      }
    case _ =>
  }

  lemma {:induction false} ItemPreviewsExactly(vs: seq<Value>)
    ensures ItemPreviews(vs) == Total(PreviewListsOf(vs))
    decreases vs, 1
  {
    hide Total, PreviewLists, PreviewCount;
    if vs == [] {
      NoLists();
    } else {
      PreviewsExactly(vs[0]);
      ItemPreviewsExactly(vs[1..]);
      TotalBoth(PreviewLists(vs[0]), PreviewListsOf(vs[1..]));
    }
  }

  lemma NoLists()
    ensures Total([]) == 0
  {
  }
}
