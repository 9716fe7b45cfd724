/** What bounding keeps of a value, and that a bounded value is not changed again. */
module ImageFixedPoint {
  import opened Wrappers
  import opened ImageUrls
  import opened ImageBounding

  /** A compressor never gives an empty file. */
  ghost predicate Sound(codec: Codec) {
    forall e: string, q: nat, d: nat :: codec.jpeg(e, q, d) != []
  }

  // ---- related values ----

  /** A text as it was, or an image replaced by another one. */
  predicate RelText(s: string, r: string) { r == s || (Size(s) > 0 && Size(r) > 0 && '[' !in r) }

  /** Two values that differ only in inline images. */
  predicate Rel(v: Value, w: Value)
    decreases v, 0
  {
    match v
    case Str(s) => w.Str? && RelText(s, w.s)
    case List(items) => w.List? && RelItems(items, w.items)
    case Dict(keys, items) => w.Dict? && w.keys == keys && RelItems(items, w.items)
    case Atom => w == v
  }

  predicate RelItems(vs: seq<Value>, ws: seq<Value>)
    decreases vs, 1
  {
    if vs == [] then ws == [] else ws != [] && Rel(vs[0], ws[0]) && RelItems(vs[1..], ws[1..])
  }

  /** No text that holds a marker is itself an inline image. */
  predicate Tame(v: Value)
    decreases v, 0
  {
    match v
    case Str(s) => Contains(s, REFERENCE) || Contains(s, ORIGINAL) ==> Size(s) == 0
    case List(items) => TameItems(items)
    case Dict(_, items) => TameItems(items)
    case Atom => true
  }

  predicate TameItems(vs: seq<Value>)
    decreases vs, 1
  {
    vs == [] || (Tame(vs[0]) && TameItems(vs[1..]))
  }

  lemma {:induction false} RelSelf(v: Value)
    ensures Rel(v, v)
    decreases v, 0
  {
    match v
    case Str(_) =>
    case List(items) => RelItemsSelf(items);
    case Dict(_, items) => RelItemsSelf(items);
    case Atom =>
  }

  lemma {:induction false} RelItemsSelf(vs: seq<Value>)
    ensures RelItems(vs, vs)
    decreases vs, 1
  {
    if vs != [] {
      RelSelf(vs[0]);
      RelItemsSelf(vs[1..]);
    }
  }

  // ---- what related values share ----

  lemma {:induction false} RelGet(keys: seq<string>, vs: seq<Value>, ws: seq<Value>, key: string)
    requires RelItems(vs, ws)
    ensures Rel(Get(keys, vs, key), Get(keys, ws, key)) && (TameItems(vs) ==> Tame(Get(keys, vs, key)))
  {
    if keys != [] && vs != [] && keys[0] != key { RelGet(keys[1..], vs[1..], ws[1..], key); }
  }

  lemma RelField(v: Value, w: Value, key: string)
    requires Rel(v, w)
    ensures Rel(Field(v, key), Field(w, key)) && (Tame(v) ==> Tame(Field(v, key)))
  {
    if v.Dict? { RelGet(v.keys, v.items, w.items, key); }
  }

  predicate IsConstant(text: string) { text == TOOL_OUTPUT || text == INPUT_TEXT || text == INPUT_IMAGE }

  lemma NoImage(text: string, image: string)
    requires IsConstant(text) && image == IMAGE
    ensures Size(text) == 0
  {
    if At(text, image, 0) { AtFirst(text, image, 0); }
  }

  lemma RelIsText(v: Value, w: Value, text: string)
    requires Rel(v, w) && IsConstant(text)
    ensures IsText(v, text) <==> IsText(w, text)
  {
    NoImage(text, IMAGE);
  }

  predicate IsMarker(marker: string) { marker == REFERENCE || marker == ORIGINAL }

  lemma NotContained(s: string, marker: string)
    requires '[' !in s && marker != "" && marker[0] == '['
    ensures !Contains(s, marker)
  {
    var at := Find(s, marker, 0);
    if at.Some? { AtFirst(s, marker, at.value); }
  }

  /** No marker appears where there was none, and none is lost from a tame value. */
  lemma RelMarkedPart(v: Value, w: Value, marker: string)
    requires Rel(v, w) && IsMarker(marker)
    ensures MarkedPart(w, marker) ==> MarkedPart(v, marker)
    ensures Tame(v) && MarkedPart(v, marker) ==> MarkedPart(w, marker)
  {
    RelField(v, w, "type");
    RelIsText(Field(v, "type"), Field(w, "type"), INPUT_TEXT);
    RelField(v, w, "text");
    var s, r := Field(v, "text"), Field(w, "text");
    if s.Str? && r != s { NotContained(r.s, marker); }
  }

  lemma {:induction false} RelAnyMarked(vs: seq<Value>, ws: seq<Value>, marker: string)
    requires RelItems(vs, ws) && IsMarker(marker)
    ensures AnyMarked(ws, marker) ==> AnyMarked(vs, marker)
    ensures TameItems(vs) && AnyMarked(vs, marker) ==> AnyMarked(ws, marker)
  {
    if vs != [] {
      RelMarkedPart(vs[0], ws[0], marker);
      RelAnyMarked(vs[1..], ws[1..], marker);
    }
  }

  lemma RelMarked(v: Value, w: Value, marker: string)
    requires Rel(v, w) && IsMarker(marker)
    ensures Marked(w, marker) ==> Marked(v, marker)
    ensures Tame(v) && Marked(v, marker) ==> Marked(w, marker)
  {
    RelField(v, w, "type");
    RelIsText(Field(v, "type"), Field(w, "type"), TOOL_OUTPUT);
    RelField(v, w, "output");
    var s, r := Field(v, "output"), Field(w, "output");
    if s.List? { RelAnyMarked(s.items, r.items, marker); }
  }

  /** Related values have equally many inline images, and both are tame if one is. */
  lemma {:induction false} RelCounts(v: Value, w: Value)
    requires Rel(v, w)
    ensures |Sizes(v)| == |Sizes(w)| && (Tame(v) ==> Tame(w))
    decreases v, 0
  {
    match v
    case Str(s) =>
      if w != v {
        NotContained(w.s, REFERENCE);
        NotContained(w.s, ORIGINAL);
      }
    case List(items) => RelItemCounts(items, w.items);
    case Dict(_, items) => RelItemCounts(items, w.items);
    case Atom =>
  }

  lemma {:induction false} RelItemCounts(vs: seq<Value>, ws: seq<Value>)
    requires RelItems(vs, ws)
    ensures |ItemSizes(vs)| == |ItemSizes(ws)| && (TameItems(vs) ==> TameItems(ws))
    decreases vs, 1
  {
    if vs != [] {
      RelCounts(vs[0], ws[0]);
      RelItemCounts(vs[1..], ws[1..]);
    }
  }

  lemma RelIsPreview(v: Value, w: Value)
    requires Rel(v, w)
    ensures IsPreview(v) <==> IsPreview(w)
  {
    RelField(v, w, "type");
    RelIsText(Field(v, "type"), Field(w, "type"), INPUT_IMAGE);
    RelField(v, w, "image_url");
  }

  lemma {:induction false} RelPreviewsIn(vs: seq<Value>, ws: seq<Value>)
    requires RelItems(vs, ws)
    ensures PreviewsIn(vs) == PreviewsIn(ws)
  {
    if vs != [] {
      RelIsPreview(vs[0], ws[0]);
      RelPreviewsIn(vs[1..], ws[1..]);
    }
  }

  /** Related values have equally many previews, if no marker is lost. */
  lemma {:induction false} RelPreviews(v: Value, w: Value)
    requires Rel(v, w) && Tame(v)
    ensures PreviewCount(v) == PreviewCount(w)
    decreases v, 0
  {
    match v
    case Str(_) =>
    case Atom =>
    case List(items) => RelItemPreviews(items, w.items);
    case Dict(_, items) =>
      RelMarked(v, w, REFERENCE);
      RelMarked(v, w, ORIGINAL);
      RelField(v, w, "output");
      if Marked(v, REFERENCE) && !Marked(v, ORIGINAL) {
        RelPreviewsIn(Field(v, "output").items, Field(w, "output").items);
      } else {
        RelItemPreviews(items, w.items);
      }
  }

  lemma {:induction false} RelItemPreviews(vs: seq<Value>, ws: seq<Value>)
    requires RelItems(vs, ws) && TameItems(vs)
    ensures ItemPreviews(vs) == ItemPreviews(ws)
    decreases vs, 1
  {
    if vs != [] {
      RelPreviews(vs[0], ws[0]);
      RelItemPreviews(vs[1..], ws[1..]);
    }
  }

  // ---- outputs of tools inside outputs of tools ----

  predicate IsTool(v: Value) { IsText(Field(v, "type"), TOOL_OUTPUT) }

  predicate NoTool(v: Value)
    decreases v, 0
  {
    match v
    case List(items) => NoTools(items)
    case Dict(_, items) => !IsTool(v) && NoTools(items)
    case _ => true
  }

  predicate NoTools(vs: seq<Value>)
    decreases vs, 1
  {
    vs == [] || (NoTool(vs[0]) && NoTools(vs[1..]))
  }

  /** No output of a tool holds another one. */
  predicate Shallow(v: Value)
    decreases v, 0
  {
    match v
    case List(items) => ShallowItems(items)
    case Dict(_, items) => if IsTool(v) then NoTools(items) else ShallowItems(items)
    case _ => true
  }

  predicate ShallowItems(vs: seq<Value>)
    decreases vs, 1
  {
    vs == [] || (Shallow(vs[0]) && ShallowItems(vs[1..]))
  }

  lemma RelIsTool(v: Value, w: Value)
    requires Rel(v, w)
    ensures IsTool(v) <==> IsTool(w)
  {
    RelField(v, w, "type");
    RelIsText(Field(v, "type"), Field(w, "type"), TOOL_OUTPUT);
  }

  lemma {:induction false} RelNoTool(v: Value, w: Value)
    requires Rel(v, w) && NoTool(v)
    ensures NoTool(w)
    decreases v, 0
  {
    match v
    case List(items) => RelNoTools(items, w.items);
    case Dict(_, items) =>
      RelIsTool(v, w);
      RelNoTools(items, w.items);
    case _ =>
  }

  lemma {:induction false} RelNoTools(vs: seq<Value>, ws: seq<Value>)
    requires RelItems(vs, ws) && NoTools(vs)
    ensures NoTools(ws)
    decreases vs, 1
  {
    if vs != [] {
      RelNoTool(vs[0], ws[0]);
      RelNoTools(vs[1..], ws[1..]);
    }
  }

  lemma {:induction false} RelShallow(v: Value, w: Value)
    requires Rel(v, w) && Shallow(v)
    ensures Shallow(w)
    decreases v, 0
  {
    match v
    case List(items) => RelShallows(items, w.items);
    case Dict(_, items) =>
      RelIsTool(v, w);
      if IsTool(v) { RelNoTools(items, w.items); } else { RelShallows(items, w.items); }
    case _ =>
  }

  lemma {:induction false} RelShallows(vs: seq<Value>, ws: seq<Value>)
    requires RelItems(vs, ws) && ShallowItems(vs)
    ensures ShallowItems(ws)
    decreases vs, 1
  {
    if vs != [] {
      RelShallow(vs[0], ws[0]);
      RelShallows(vs[1..], ws[1..]);
    }
  }

  // ---- bounding leaves a related value within the target ----

  /** Every inline image outside outputs marked as original is within the target. */
  predicate Within(v: Value, target: nat)
    decreases v, 0
  {
    match v
    case Str(s) => Size(s) <= target
    case List(items) => WithinItems(items, target)
    case Dict(_, items) => Marked(v, ORIGINAL) || WithinItems(items, target)
    case Atom => true
  }

  predicate WithinItems(vs: seq<Value>, target: nat)
    decreases vs, 1
  {
    vs == [] || (Within(vs[0], target) && WithinItems(vs[1..], target))
  }

  lemma JpegPlain(d: seq<Byte>, jpeg: string)
    requires jpeg == JPEG
    ensures '[' !in JpegUrl(d)
  {
    EncodedCode(d);
    forall i | 0 <= i < |jpeg| ensures jpeg[i] != '[' { }
    assert JpegUrl(d) == jpeg + Encoded(d);
  }

  lemma BoundText(codec: Codec, s: string, target: nat, edge: nat)
    requires Sound(codec) && Resized(codec, s, target, edge).Success?
    ensures var r := Resized(codec, s, target, edge).value;
            RelText(s, r) && Size(r) <= target && Size(r) <= Size(s)
  {
    ResizedWithin(codec, s, target, edge);
    if Size(s) > target {
      var encoded := Payload(s).GetOr("");
      var longest := codec.longest(encoded);
      var first := if edge < longest.value then edge else longest.value;
      FitWithin(codec, encoded, target, 86, first);
      var d := FirstFit(codec, encoded, target, 86, first).value;
      JpegSize(d);
      JpegPlain(d, JPEG);
    }
  }

  lemma {:induction false} BoundKeeps(codec: Codec, v: Value, target: nat, edge: nat)
    requires Sound(codec) && BoundValue(codec, v, target, edge).Success?
    ensures var w := BoundValue(codec, v, target, edge).value; Rel(v, w) && Within(w, target)
    decreases v, 0
  {
    match v
    case Str(s) => BoundText(codec, s, target, edge);
    case List(items) => BoundItemsKeep(codec, items, target, edge);
    case Dict(_, items) => if Marked(v, ORIGINAL) { RelSelf(v); } else { BoundItemsKeep(codec, items, target, edge); }
    case Atom =>
  }

  lemma {:induction false} BoundItemsKeep(codec: Codec, vs: seq<Value>, target: nat, edge: nat)
    requires Sound(codec) && BoundItems(codec, vs, target, edge).Success?
    ensures var ws := BoundItems(codec, vs, target, edge).value; RelItems(vs, ws) && WithinItems(ws, target)
    decreases vs, 1
  {
    if vs != [] {
      BoundKeeps(codec, vs[0], target, edge);
      BoundItemsKeep(codec, vs[1..], target, edge);
    }
  }

  /** A value within the target is left as it is, and only such a value is. */
  lemma {:induction false} BoundStays(codec: Codec, v: Value, target: nat, edge: nat)
    ensures Within(v, target) <==> BoundValue(codec, v, target, edge) == Success(v)
    decreases v, 0
  {
    match v
    case Str(s) => ResizedWithin(codec, s, target, edge);
    case List(items) => BoundItemsStay(codec, items, target, edge);
    case Dict(_, items) => BoundItemsStay(codec, items, target, edge);
    case Atom =>
  }

  lemma {:induction false} BoundItemsStay(codec: Codec, vs: seq<Value>, target: nat, edge: nat)
    ensures WithinItems(vs, target) <==> BoundItems(codec, vs, target, edge) == Success(vs)
    decreases vs, 1
  {
    if vs != [] {
      BoundStays(codec, vs[0], target, edge);
      BoundItemsStay(codec, vs[1..], target, edge);
      assert vs == [vs[0]] + vs[1..];
    }
  }

  /** Bounding to another target does not take a value out of the target it is within. */
  lemma {:induction false} BoundStaysWithin(codec: Codec, v: Value, within: nat, target: nat, edge: nat)
    requires Sound(codec) && Within(v, within) && BoundValue(codec, v, target, edge).Success?
    ensures Within(BoundValue(codec, v, target, edge).value, within)
    decreases v, 0
  {
    match v
    case Str(s) => BoundText(codec, s, target, edge);
    case List(items) => BoundItemsStayWithin(codec, items, within, target, edge);
    case Dict(_, items) => if !Marked(v, ORIGINAL) { BoundItemsStayWithin(codec, items, within, target, edge); }
    case Atom =>
  }

  lemma {:induction false} BoundItemsStayWithin(codec: Codec, vs: seq<Value>, within: nat, target: nat, edge: nat)
    requires Sound(codec) && WithinItems(vs, within) && BoundItems(codec, vs, target, edge).Success?
    ensures WithinItems(BoundItems(codec, vs, target, edge).value, within)
    decreases vs, 1
  {
    if vs != [] {
      BoundStaysWithin(codec, vs[0], within, target, edge);
      BoundItemsStayWithin(codec, vs[1..], within, target, edge);
    }
  }

  // ---- previews ----

  /** Every preview output is within the target. */
  predicate PreviewsWithin(v: Value, target: nat)
    decreases v, 0
  {
    match v
    case List(items) => PreviewItemsWithin(items, target)
    case Dict(_, items) =>
      if Marked(v, REFERENCE) then Marked(v, ORIGINAL) || Within(Field(v, "output"), target)
      else PreviewItemsWithin(items, target)
    case _ => true
  }

  predicate PreviewItemsWithin(vs: seq<Value>, target: nat)
    decreases vs, 1
  {
    vs == [] || (PreviewsWithin(vs[0], target) && PreviewItemsWithin(vs[1..], target))
  }

  lemma {:induction false} NoToolWithin(v: Value, target: nat)
    requires NoTool(v)
    ensures PreviewsWithin(v, target) && PreviewCount(v) == 0
    decreases v, 0
  {
    match v
    case List(items) => NoToolsWithin(items, target);
    case Dict(_, items) => NoToolsWithin(items, target);
    case _ =>
  }

  lemma {:induction false} NoToolsWithin(vs: seq<Value>, target: nat)
    requires NoTools(vs)
    ensures PreviewItemsWithin(vs, target) && ItemPreviews(vs) == 0
    decreases vs, 1
  {
    if vs != [] {
      NoToolWithin(vs[0], target);
      NoToolsWithin(vs[1..], target);
    }
  }

  lemma {:induction false} PutRel(keys: seq<string>, vs: seq<Value>, key: string, w: Value)
    requires Rel(Get(keys, vs, key), w) && !Get(keys, vs, key).Atom?
    ensures RelItems(vs, Put(keys, vs, key, w)) && Get(keys, Put(keys, vs, key, w), key) == w
  {
    if keys != [] && vs != [] {
      if keys[0] == key {
        RelItemsSelf(vs[1..]);
      } else {
        RelSelf(vs[0]);
        PutRel(keys[1..], vs[1..], key, w);
      }
    }
  }

  /** Bounding previews changes inline images only. */
  lemma {:induction false} PreviewsRel(codec: Codec, v: Value, target: nat)
    requires Sound(codec) && BoundPreviews(codec, v, target).Success?
    ensures Rel(v, BoundPreviews(codec, v, target).value)
    decreases v, 0
  {
    match v
    case Str(_) =>
    case Atom =>
    case List(items) => PreviewItemsRel(codec, items, target);
    case Dict(keys, items) =>
      if Marked(v, REFERENCE) {
        if Marked(v, ORIGINAL) {
          RelSelf(v);
        } else {
          BoundKeeps(codec, Field(v, "output"), target, MANY_EDGE);
          PutRel(keys, items, "output", BoundValue(codec, Field(v, "output"), target, MANY_EDGE).value);
        }
      } else {
        PreviewItemsRel(codec, items, target);
      }
  }

  lemma {:induction false} PreviewItemsRel(codec: Codec, vs: seq<Value>, target: nat)
    requires Sound(codec) && PreviewItems(codec, vs, target).Success?
    ensures RelItems(vs, PreviewItems(codec, vs, target).value)
    decreases vs, 1
  {
    if vs != [] {
      PreviewsRel(codec, vs[0], target);
      PreviewItemsRel(codec, vs[1..], target);
    }
  }

  /** It leaves every preview output within the target, wherever no marker is lost or no output holds another. */
  lemma {:induction false} PreviewsKeep(codec: Codec, v: Value, target: nat)
    requires Sound(codec) && BoundPreviews(codec, v, target).Success? && (Tame(v) || Shallow(v))
    ensures PreviewsWithin(BoundPreviews(codec, v, target).value, target)
    decreases v, 0
  {
    var w := BoundPreviews(codec, v, target).value;
    match v
    case Str(_) =>
    case Atom =>
    case List(items) => PreviewItemsKeep(codec, items, target);
    case Dict(keys, items) =>
      PreviewsRel(codec, v, target);
      RelMarked(v, w, REFERENCE);
      if Marked(v, REFERENCE) {
        if !Marked(v, ORIGINAL) {
          BoundKeeps(codec, Field(v, "output"), target, MANY_EDGE);
          PutRel(keys, items, "output", BoundValue(codec, Field(v, "output"), target, MANY_EDGE).value);
        }
        if !Marked(w, REFERENCE) {
          RelNoTools(items, w.items);
          NoToolsWithin(w.items, target);
        }
      } else if IsTool(v) && !Tame(v) {
        PreviewItemsRel(codec, items, target);
        RelNoTools(items, w.items);
        NoToolsWithin(w.items, target);
      } else {
        PreviewItemsKeep(codec, items, target);
      }
  }

  lemma {:induction false} PreviewItemsKeep(codec: Codec, vs: seq<Value>, target: nat)
    requires Sound(codec) && PreviewItems(codec, vs, target).Success? && (TameItems(vs) || ShallowItems(vs))
    ensures PreviewItemsWithin(PreviewItems(codec, vs, target).value, target)
    decreases vs, 1
  {
    if vs != [] {
      PreviewsKeep(codec, vs[0], target);
      PreviewItemsKeep(codec, vs[1..], target);
    }
  }

  lemma {:induction false} PutSame(keys: seq<string>, vs: seq<Value>, key: string)
    ensures Put(keys, vs, key, Get(keys, vs, key)) == vs
  {
    if keys != [] && vs != [] {
      assert vs == [vs[0]] + vs[1..];
      if keys[0] != key { PutSame(keys[1..], vs[1..], key); }
    }
  }

  /** A value whose previews are within the target is left as it is, and only such a value is. */
  lemma {:induction false} PreviewsStay(codec: Codec, v: Value, target: nat)
    ensures PreviewsWithin(v, target) <==> BoundPreviews(codec, v, target) == Success(v)
    decreases v, 0
  {
    match v
    case Str(_) =>
    case Atom =>
    case List(items) => PreviewItemsStay(codec, items, target);
    case Dict(keys, items) =>
      if Marked(v, REFERENCE) {
        if !Marked(v, ORIGINAL) {
          var output := BoundValue(codec, Field(v, "output"), target, MANY_EDGE);
          BoundStays(codec, Field(v, "output"), target, MANY_EDGE);
          PutSame(keys, items, "output");
          if output.Success? { PutGet(keys, items, "output", output.value); }
        }
      } else {
        PreviewItemsStay(codec, items, target);
      }
  }

  lemma {:induction false} PutGet(keys: seq<string>, vs: seq<Value>, key: string, w: Value)
    requires !Get(keys, vs, key).Atom?
    ensures Get(keys, Put(keys, vs, key, w), key) == w
  {
    if keys != [] && vs != [] && keys[0] != key { PutGet(keys[1..], vs[1..], key, w); }
  }

  lemma {:induction false} PreviewItemsStay(codec: Codec, vs: seq<Value>, target: nat)
    ensures PreviewItemsWithin(vs, target) <==> PreviewItems(codec, vs, target) == Success(vs)
    decreases vs, 1
  {
    if vs != [] {
      PreviewsStay(codec, vs[0], target);
      PreviewItemsStay(codec, vs[1..], target);
      assert vs == [vs[0]] + vs[1..];
    }
  }

  lemma {:induction false} BoundGet(codec: Codec, keys: seq<string>, vs: seq<Value>, key: string, target: nat, edge: nat)
    requires BoundItems(codec, vs, target, edge).Success?
    ensures BoundValue(codec, Get(keys, vs, key), target, edge)
            == Success(Get(keys, BoundItems(codec, vs, target, edge).value, key))
  {
    if keys != [] && vs != [] && keys[0] != key { BoundGet(codec, keys[1..], vs[1..], key, target, edge); }
  }

  /** The second bounding leaves the previews within their target. */
  lemma {:induction false} BoundKeepsPreviews(codec: Codec, v: Value, preview: nat, target: nat, edge: nat)
    requires Sound(codec) && PreviewsWithin(v, preview) && BoundValue(codec, v, target, edge).Success?
    requires Tame(v) || Shallow(v)
    ensures PreviewsWithin(BoundValue(codec, v, target, edge).value, preview)
    decreases v, 0
  {
    var w := BoundValue(codec, v, target, edge).value;
    match v
    case Str(_) =>
    case Atom =>
    case List(items) => BoundItemsKeepPreviews(codec, items, preview, target, edge);
    case Dict(keys, items) =>
      BoundKeeps(codec, v, target, edge);
      RelMarked(v, w, REFERENCE);
      if !Marked(v, ORIGINAL) {
        if Marked(w, REFERENCE) {
          BoundGet(codec, keys, items, "output", target, edge);
          BoundStaysWithin(codec, Field(v, "output"), preview, target, edge);
        } else if IsTool(v) && !Tame(v) {
          RelNoTools(items, w.items);
          NoToolsWithin(w.items, preview);
        } else {
          BoundItemsKeepPreviews(codec, items, preview, target, edge);
        }
      }
  }

  lemma {:induction false} BoundItemsKeepPreviews(codec: Codec, vs: seq<Value>, preview: nat, target: nat, edge: nat)
    requires Sound(codec) && PreviewItemsWithin(vs, preview) && BoundItems(codec, vs, target, edge).Success?
    requires TameItems(vs) || ShallowItems(vs)
    ensures PreviewItemsWithin(BoundItems(codec, vs, target, edge).value, preview)
    decreases vs, 1
  {
    if vs != [] {
      BoundKeepsPreviews(codec, vs[0], preview, target, edge);
      BoundItemsKeepPreviews(codec, vs[1..], preview, target, edge);
    }
  }

  // ---- outputs marked as original ----

  lemma {:induction false} PreviewGet(codec: Codec, keys: seq<string>, vs: seq<Value>, key: string, target: nat)
    requires PreviewItems(codec, vs, target).Success?
    ensures BoundPreviews(codec, Get(keys, vs, key), target)
            == Success(Get(keys, PreviewItems(codec, vs, target).value, key))
  {
    if keys != [] && vs != [] && keys[0] != key { PreviewGet(codec, keys[1..], vs[1..], key, target); }
  }

  /** The texts of a part are not bounded as previews. */
  lemma PreviewPart(codec: Codec, v: Value, marker: string, target: nat)
    requires Sound(codec) && BoundPreviews(codec, v, target).Success? && MarkedPart(v, marker)
    ensures MarkedPart(BoundPreviews(codec, v, target).value, marker)
  {
    assert !IsTool(v) && !Marked(v, REFERENCE);
    PreviewGet(codec, v.keys, v.items, "type", target);
    PreviewGet(codec, v.keys, v.items, "text", target);
  }

  lemma {:induction false} PreviewParts(codec: Codec, vs: seq<Value>, marker: string, target: nat)
    requires Sound(codec) && PreviewItems(codec, vs, target).Success? && AnyMarked(vs, marker)
    ensures AnyMarked(PreviewItems(codec, vs, target).value, marker)
  {
    if MarkedPart(vs[0], marker) {
      PreviewPart(codec, vs[0], marker, target);
    } else {
      PreviewParts(codec, vs[1..], marker, target);
    }
  }

  /** Bounding previews neither makes nor unmakes an output marked as original. */
  lemma OriginalKept(codec: Codec, v: Value, target: nat)
    requires Sound(codec) && BoundPreviews(codec, v, target).Success?
    ensures Marked(BoundPreviews(codec, v, target).value, ORIGINAL) <==> Marked(v, ORIGINAL)
  {
    PreviewsRel(codec, v, target);
    RelMarked(v, BoundPreviews(codec, v, target).value, ORIGINAL);
    if Marked(v, ORIGINAL) && !Marked(v, REFERENCE) {
      PreviewGet(codec, v.keys, v.items, "type", target);
      PreviewGet(codec, v.keys, v.items, "output", target);
      PreviewParts(codec, Field(v, "output").items, ORIGINAL, target);
    }
  }

  /** Nor does bounding all images. */
  lemma OriginalBound(codec: Codec, v: Value, target: nat, edge: nat)
    requires Sound(codec) && BoundValue(codec, v, target, edge).Success?
    ensures Marked(BoundValue(codec, v, target, edge).value, ORIGINAL) <==> Marked(v, ORIGINAL)
  {
    BoundKeeps(codec, v, target, edge);
    RelMarked(v, BoundValue(codec, v, target, edge).value, ORIGINAL);
  }

  // ---- the encrypted boundary ----

  predicate HasEncrypted(v: Value)
    decreases v, 0
  {
    match v
    case Str(_) => false
    case Atom => false
    case List(items) => AnyEncrypted(items)
    case Dict(_, items) =>
      var content := Field(v, "encrypted_content");
      (content.Str? && content.s != "") || AnyEncrypted(items)
  }

  predicate AnyEncrypted(vs: seq<Value>)
    decreases vs, 1
  {
    vs != [] && (HasEncrypted(vs[0]) || AnyEncrypted(vs[1..]))
  }

  lemma {:induction false} RelEncrypted(v: Value, w: Value)
    requires Rel(v, w)
    ensures HasEncrypted(v) <==> HasEncrypted(w)
    decreases v, 0
  {
    match v
    case Str(_) =>
    case Atom =>
    case List(items) => RelAnyEncrypted(items, w.items);
    case Dict(_, items) =>
      RelField(v, w, "encrypted_content");
      NotEmpty("");
      RelAnyEncrypted(items, w.items);
  }

  lemma NotEmpty(text: string)
    requires text == ""
    ensures Size(text) == 0
  {
  }

  lemma {:induction false} RelAnyEncrypted(vs: seq<Value>, ws: seq<Value>)
    requires RelItems(vs, ws)
    ensures AnyEncrypted(vs) <==> AnyEncrypted(ws)
    decreases vs, 1
  {
    if vs != [] {
      RelEncrypted(vs[0], ws[0]);
      RelAnyEncrypted(vs[1..], ws[1..]);
    }
  }

  /** The number of items up to the last one with encrypted content. */
  function Boundary(items: seq<Value>): (n: nat)
    ensures n <= |items|
  {
    if items == [] then 0
    else if HasEncrypted(items[|items| - 1]) then |items|
    else Boundary(items[..|items| - 1])
  }

  function Prefix(v: Value): seq<Value> { if v.List? then v.items[..Boundary(v.items)] else [] }

  /** What may be changed: the items behind the last encrypted one. */
  function Suffix(v: Value): Value { if v.List? then List(v.items[Boundary(v.items)..]) else v }

  /** A value with its changed suffix in place. */
  function Rejoined(v: Value, suffix: Value): Value {
    if v.List? && suffix.List? then List(Prefix(v) + suffix.items) else suffix
  }

  lemma {:induction false} BoundaryBehind(prefix: seq<Value>, rest: seq<Value>)
    requires Boundary(prefix) == |prefix| && Boundary(rest) == 0
    ensures Boundary(prefix + rest) == |prefix|
  {
    if rest == [] {
      assert prefix + rest == prefix;
    } else {
      var n := |rest| - 1;
      assert (prefix + rest)[..|prefix| + n] == prefix + rest[..n];
      BoundaryBehind(prefix, rest[..n]);
    }
  }

  lemma {:induction false} BoundaryParts(items: seq<Value>)
    ensures var b := Boundary(items); Boundary(items[..b]) == b && Boundary(items[b..]) == 0
  {
    var n := |items|;
    if n > 0 && !HasEncrypted(items[n - 1]) {
      var front := items[..n - 1];
      BoundaryParts(front);
      var b := Boundary(front);
      assert front[..b] == items[..b] && items[b..][..n - 1 - b] == front[b..];
    } else {
      assert items[..n] == items && items[n..] == [];
    }
  }

  lemma {:induction false} RelBoundary(vs: seq<Value>, ws: seq<Value>)
    requires RelItems(vs, ws) && Boundary(vs) == 0
    ensures Boundary(ws) == 0 && |ws| == |vs|
  {
    RelAt(vs, ws);
    if ws != [] {
      var n := |ws| - 1;
      RelEncrypted(vs[n], ws[n]);
      RelFront(vs, ws, n);
      RelBoundary(vs[..n], ws[..n]);
    }
  }

  lemma {:induction false} RelAt(vs: seq<Value>, ws: seq<Value>)
    requires RelItems(vs, ws)
    ensures |ws| == |vs| && forall i | 0 <= i < |vs| :: Rel(vs[i], ws[i])
  {
    if vs != [] { RelAt(vs[1..], ws[1..]); }
  }

  lemma {:induction false} RelFront(vs: seq<Value>, ws: seq<Value>, n: nat)
    requires RelItems(vs, ws) && n <= |vs| == |ws|
    ensures RelItems(vs[..n], ws[..n])
  {
    if n > 0 {
      RelFront(vs[1..], ws[1..], n - 1);
      assert vs[..n][1..] == vs[1..][..n - 1] && ws[..n][1..] == ws[1..][..n - 1];
    }
  }

  /** Changing the images of the suffix moves neither the boundary nor anything in front of it. */
  lemma Reboundary(v: Value, w: Value)
    requires Rel(Suffix(v), w)
    ensures Suffix(Rejoined(v, w)) == w && Prefix(Rejoined(v, w)) == Prefix(v)
  {
    if v.List? {
      BoundaryParts(v.items);
      RelBoundary(Suffix(v).items, w.items);
      BoundaryBehind(Prefix(v), w.items);
    }
  }
}
