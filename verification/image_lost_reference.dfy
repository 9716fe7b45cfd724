/** A request that two passes bound differently: a text with the reference is itself an image. */
module ImageLostReference {
  import opened Wrappers
  import opened ImageUrls
  import opened ImageBounding
  import opened ImageFixedPoint
  import opened ImageRequests
  import opened ImageSecondPass

  // ---- an image that a pass leaves ----

  /** A text stands in a value, outside outputs marked as original. */
  predicate Stands(v: Value, s: string)
    decreases v, 0
  {
    match v
    case Str(t) => t == s
    case List(items) => StandsIn(items, s)
    case Dict(_, items) => !Marked(v, ORIGINAL) && StandsIn(items, s)
    case Atom => false
  }

  predicate StandsIn(vs: seq<Value>, s: string)
    decreases vs, 1
  {
    vs != [] && (Stands(vs[0], s) || StandsIn(vs[1..], s))
  }

  lemma {:induction false} TooLarge(v: Value, s: string, target: nat)
    requires Stands(v, s) && Size(s) > target
    ensures !Within(v, target)
    decreases v, 0
  {
    match v
    case Str(_) =>
    case List(items) => TooLargeIn(items, s, target);
    case Dict(_, items) => TooLargeIn(items, s, target);
  }

  lemma {:induction false} TooLargeIn(vs: seq<Value>, s: string, target: nat)
    requires StandsIn(vs, s) && Size(s) > target
    ensures !WithinItems(vs, target)
    decreases vs, 1
  {
    if Stands(vs[0], s) { TooLarge(vs[0], s, target); } else { TooLargeIn(vs[1..], s, target); }
  }

  lemma {:induction false} BoundLeaves(codec: Codec, v: Value, s: string, target: nat, edge: nat)
    requires Sound(codec) && Stands(v, s) && Size(s) <= target && BoundValue(codec, v, target, edge).Success?
    ensures Stands(BoundValue(codec, v, target, edge).value, s)
    decreases v, 0
  {
    match v
    case Str(_) => ResizedWithin(codec, s, target, edge);
    case List(items) => BoundItemsLeave(codec, items, s, target, edge);
    case Dict(_, items) =>
      OriginalBound(codec, v, target, edge);
      BoundItemsLeave(codec, items, s, target, edge);
  }

  lemma {:induction false} BoundItemsLeave(codec: Codec, vs: seq<Value>, s: string, target: nat, edge: nat)
    requires Sound(codec) && StandsIn(vs, s) && Size(s) <= target && BoundItems(codec, vs, target, edge).Success?
    ensures StandsIn(BoundItems(codec, vs, target, edge).value, s)
    decreases vs, 1
  {
    if Stands(vs[0], s) {
      BoundLeaves(codec, vs[0], s, target, edge);
    } else {
      BoundItemsLeave(codec, vs[1..], s, target, edge);
    }
  }

  lemma {:induction false} PutLeaves(keys: seq<string>, vs: seq<Value>, key: string, w: Value, s: string)
    requires StandsIn(vs, s) && (Stands(Get(keys, vs, key), s) ==> Stands(w, s))
    ensures StandsIn(Put(keys, vs, key, w), s)
  {
    if keys != [] && keys[0] != key && !Stands(vs[0], s) { PutLeaves(keys[1..], vs[1..], key, w, s); }
  }

  lemma {:induction false} PreviewLeaves(codec: Codec, v: Value, s: string, target: nat)
    requires Sound(codec) && Stands(v, s) && Size(s) <= target && BoundPreviews(codec, v, target).Success?
    ensures Stands(BoundPreviews(codec, v, target).value, s)
    decreases v, 0
  {
    match v
    case Str(_) =>
    case List(items) => PreviewItemsLeave(codec, items, s, target);
    case Dict(keys, items) =>
      OriginalKept(codec, v, target);
      if Marked(v, REFERENCE) {
        var output := Field(v, "output");
        if Stands(output, s) { BoundLeaves(codec, output, s, target, MANY_EDGE); }
        PutLeaves(keys, items, "output", BoundValue(codec, output, target, MANY_EDGE).value, s);
      } else {
        PreviewItemsLeave(codec, items, s, target);
      }
  }

  lemma {:induction false} PreviewItemsLeave(codec: Codec, vs: seq<Value>, s: string, target: nat)
    requires Sound(codec) && StandsIn(vs, s) && Size(s) <= target && PreviewItems(codec, vs, target).Success?
    ensures StandsIn(PreviewItems(codec, vs, target).value, s)
    decreases vs, 1
  {
    if Stands(vs[0], s) {
      PreviewLeaves(codec, vs[0], s, target);
    } else {
      PreviewItemsLeave(codec, vs[1..], s, target);
    }
  }

  /** A second pass changes the result of the first whenever an image is between the two targets. */
  lemma BetweenTargets(codec: Codec, vs: seq<Value>, ws: seq<Value>, image: string)
    requires Sound(codec) && ShallowItems(Suffixes(vs)) && WithBounded(codec, vs) == Success(Some(ws))
    requires StandsIn(Suffixes(vs), image) && SecondTarget(vs) < Size(image)
    requires Size(image) <= FirstTarget(vs) && Size(image) <= PreviewTarget(ItemPreviews(Suffixes(vs)))
    ensures WithBounded(codec, ws) != Success(None)
  {
    var bounded := PassResult(codec, vs, ws);
    PreviewItemsLeave(codec, Suffixes(vs), image, PreviewTarget(ItemPreviews(Suffixes(vs))));
    BoundItemsLeave(codec, bounded, image, PassTarget(vs, bounded), PassEdge(vs, bounded));
    TooLargeIn(Suffixes(ws), image, SecondTarget(vs));
    SecondPassExactly(codec, vs, ws);
  }

  // ---- a compressor that always succeeds ----

  /** Every image opens and is compressed to at most the least target. */
  ghost predicate Opens(codec: Codec) {
    && (forall e: string :: codec.longest(e).Some?)
    && (forall e: string, q: nat, d: nat :: 0 < |codec.jpeg(e, q, d)| <= HISTORY_MIN)
  }

  lemma OpensText(codec: Codec, encoded: string, target: nat, edge: nat)
    requires Opens(codec) && target >= HISTORY_MIN
    ensures FirstFit(codec, encoded, target, 86, edge).Some?
  {
    var d := codec.jpeg(encoded, 86, edge);
  }

  lemma {:induction false} OpensBound(codec: Codec, v: Value, target: nat, edge: nat)
    requires Opens(codec) && target >= HISTORY_MIN
    ensures BoundValue(codec, v, target, edge).Success?
    decreases v, 0
  {
    match v
    case Str(s) =>
      var encoded := Payload(s).GetOr("");
      OpensText(codec, encoded, target, if edge < codec.longest(encoded).value then edge else codec.longest(encoded).value);
    case List(items) => OpensBoundItems(codec, items, target, edge);
    case Dict(_, items) => OpensBoundItems(codec, items, target, edge);
    case Atom =>
  }

  lemma {:induction false} OpensBoundItems(codec: Codec, vs: seq<Value>, target: nat, edge: nat)
    requires Opens(codec) && target >= HISTORY_MIN
    ensures BoundItems(codec, vs, target, edge).Success?
    decreases vs, 1
  {
    if vs != [] {
      OpensBound(codec, vs[0], target, edge);
      OpensBoundItems(codec, vs[1..], target, edge);
    }
  }

  lemma {:induction false} OpensPreviews(codec: Codec, v: Value, target: nat)
    requires Opens(codec) && target >= HISTORY_MIN
    ensures BoundPreviews(codec, v, target).Success?
    decreases v, 0
  {
    match v
    case List(items) => OpensPreviewItems(codec, items, target);
    case Dict(_, items) =>
      OpensBound(codec, Field(v, "output"), target, MANY_EDGE);
      OpensPreviewItems(codec, items, target);
    case _ =>
  }

  lemma {:induction false} OpensPreviewItems(codec: Codec, vs: seq<Value>, target: nat)
    requires Opens(codec) && target >= HISTORY_MIN
    ensures PreviewItems(codec, vs, target).Success?
    decreases vs, 1
  {
    if vs != [] {
      OpensPreviews(codec, vs[0], target);
      OpensPreviewItems(codec, vs[1..], target);
    }
  }

  lemma OpensPass(codec: Codec, vs: seq<Value>)
    requires Opens(codec)
    ensures Sound(codec) && WithBounded(codec, vs).Success?
  {
    PreviewTargetFalls(ItemPreviews(Suffixes(vs)), ItemPreviews(Suffixes(vs)));
    OpensPreviewItems(codec, Suffixes(vs), PreviewTarget(ItemPreviews(Suffixes(vs))));
    var bounded := Previews(codec, vs).value;
    if AllSizes(bounded) != [] {
      OpensBoundItems(codec, bounded, PassTarget(vs, bounded), PassEdge(vs, bounded));
    }
  }

  // ---- the request ----

  /** A dictionary with two entries, the first one its type. */
  function Pair(kind: string, key: string, v: Value): Value { Dict(["type", key], [Str(kind), v]) }

  function Images(image: string, n: nat): seq<Value> {
    if n == 0 then [] else [Pair(INPUT_IMAGE, "image_url", Str(image))] + Images(image, n - 1)
  }

  /** What a tool gave: a text and n times an image. */
  function Parts(text: string, image: string, n: nat): seq<Value> {
    [Pair(INPUT_TEXT, "text", Str(text))] + Images(image, n)
  }

  function Request(text: string, image: string, n: nat): seq<Value> {
    [List([Pair(TOOL_OUTPUT, "output", List(Parts(text, image, n)))])]
  }

  lemma PairGet(keys: seq<string>, items: seq<Value>, asked: string)
    requires |keys| == |items| == 2
    ensures Get(keys, items, asked)
            == if keys[0] == asked then items[0] else if keys[1] == asked then items[1] else Atom
  {
    assert Get(keys[1..], items[1..], asked) == if keys[1] == asked then items[1] else Get(keys[1..][1..], items[1..][1..], asked);
  }

  lemma PairItems(items: seq<Value>, image: string)
    requires |items| == 2
    ensures ItemSizes(items) == Sizes(items[0]) + Sizes(items[1])
    ensures NoTools(items) <==> NoTool(items[0]) && NoTool(items[1])
    ensures AnyEncrypted(items) <==> HasEncrypted(items[0]) || HasEncrypted(items[1])
    ensures StandsIn(items, image) <==> Stands(items[0], image) || Stands(items[1], image)
  {
    OneItem(items[1..], image);
  }

  lemma OneItem(items: seq<Value>, image: string)
    requires |items| == 1
    ensures ItemSizes(items) == Sizes(items[0]) && (NoTools(items) <==> NoTool(items[0]))
    ensures AnyEncrypted(items) <==> HasEncrypted(items[0])
    ensures StandsIn(items, image) <==> Stands(items[0], image)
  {
    assert items[1..] == [];
  }

  lemma ImageFacts(kind: string, key: string, image: string)
    requires kind == INPUT_IMAGE && key == "image_url" && Size(image) > 0
    ensures var part := Pair(kind, key, Str(image));
            && IsPreview(part) && Sizes(part) == [Size(image)] && Stands(part, image)
            && !MarkedPart(part, REFERENCE) && !MarkedPart(part, ORIGINAL) && NoTool(part) && !HasEncrypted(part)
  {
    NoImage(kind, IMAGE);
    var part := Pair(kind, key, Str(image));
    PairGet(part.keys, part.items, "type");
    PairGet(part.keys, part.items, "text");
    PairGet(part.keys, part.items, key);
    PairGet(part.keys, part.items, "encrypted_content");
    PairItems(part.items, image);
  }

  lemma {:induction false} ImagesFacts(image: string, n: nat, limit: nat)
    requires Size(image) > 0
    ensures var parts := Images(image, n);
            && PreviewsIn(parts) == |ItemSizes(parts)| == n && (n > 0 ==> StandsIn(parts, image))
            && !AnyMarked(parts, REFERENCE) && !AnyMarked(parts, ORIGINAL) && !AnyKept(parts, limit)
            && NoTools(parts) && !AnyEncrypted(parts)
  {
    if n > 0 {
      ImageFacts(INPUT_IMAGE, "image_url", image);
      ImagesFacts(image, n - 1, limit);
    }
  }

  lemma TextFacts(kind: string, key: string, text: string, limit: nat)
    requires kind == INPUT_TEXT && key == "text" && Size(text) > limit
    ensures var part := Pair(kind, key, Str(text));
            && !IsPreview(part) && |Sizes(part)| == 1 && Stands(part, text) && NoTool(part) && !HasEncrypted(part)
            && (MarkedPart(part, REFERENCE) <==> Contains(text, REFERENCE)) && !KeptPart(part, limit)
            && (MarkedPart(part, ORIGINAL) <==> Contains(text, ORIGINAL))
  {
    NoImage(kind, IMAGE);
    var part := Pair(kind, key, Str(text));
    PairGet(part.keys, part.items, "type");
    PairGet(part.keys, part.items, key);
    PairGet(part.keys, part.items, "output");
    PairGet(part.keys, part.items, "encrypted_content");
    PairItems(part.items, text);
  }

  predicate LosesReference(text: string, limit: nat) {
    Contains(text, REFERENCE) && !Contains(text, ORIGINAL) && Size(text) > limit
  }

  lemma PartsFacts(text: string, image: string, n: nat, limit: nat)
    requires LosesReference(text, limit) && Size(image) > 0 && n > 0
    ensures var parts := Parts(text, image, n);
            && PreviewsIn(parts) == n && |ItemSizes(parts)| == n + 1 && StandsIn(parts, image) && StandsIn(parts, text)
            && AnyMarked(parts, REFERENCE) && !AnyMarked(parts, ORIGINAL) && !AnyKept(parts, limit)
            && NoTools(parts) && !AnyEncrypted(parts)
  {
    var parts := Parts(text, image, n);
    TextFacts(INPUT_TEXT, "text", text, limit);
    ImagesFacts(image, n, limit);
    assert parts[1..] == Images(image, n);
  }

  lemma OutputFacts(kind: string, key: string, parts: seq<Value>, text: string, image: string, n: nat, limit: nat)
    requires kind == TOOL_OUTPUT && key == "output"
    requires PreviewsIn(parts) == n && |ItemSizes(parts)| == n + 1 && StandsIn(parts, image) && StandsIn(parts, text)
    requires AnyMarked(parts, REFERENCE) && !AnyMarked(parts, ORIGINAL) && !AnyKept(parts, limit)
    requires NoTools(parts) && !AnyEncrypted(parts)
    ensures var output := Pair(kind, key, List(parts));
            && PreviewCount(output) == n && |Sizes(output)| == n + 1 && KeptPreviews(output, limit) == 0
            && Stands(output, image) && Stands(output, text) && Shallow(output) && !HasEncrypted(output)
  {
    NoImage(kind, IMAGE);
    var output := Pair(kind, key, List(parts));
    PairGet(output.keys, output.items, "type");
    PairGet(output.keys, output.items, key);
    PairGet(output.keys, output.items, "encrypted_content");
    PairItems(output.items, image);
    PairItems(output.items, text);
  }

  lemma ListFacts(vs: seq<Value>, items: seq<Value>, output: Value, image: string, limit: nat)
    requires vs == [List(items)] && items == [output] && Shallow(output) && !HasEncrypted(output)
    ensures Suffixes(vs) == vs && PrefixStats(vs) == Stats(0, 0) && ShallowItems(vs)
    ensures ItemPreviews(vs) == PreviewCount(output) && |AllSizes(vs)| == |Sizes(output)|
    ensures KeptItems(vs, limit) == KeptPreviews(output, limit) && (StandsIn(vs, image) <==> Stands(output, image))
  {
    assert items[..0] == [] && items[0..] == items;
    assert Boundary(items) == Boundary(items[..0]) == 0;
    Alone(items, image, limit);
    Alone(vs, image, limit);
    Whole(vs, items);
  }

  lemma Alone(vs: seq<Value>, image: string, limit: nat)
    requires |vs| == 1
    ensures ItemPreviews(vs) == PreviewCount(vs[0]) && (ShallowItems(vs) <==> Shallow(vs[0]))
    ensures ItemSizes(vs) == Sizes(vs[0]) && AllSizes(vs) == CompressibleSizes(vs[0])
    ensures KeptItems(vs, limit) == KeptPreviews(vs[0], limit) && (StandsIn(vs, image) <==> Stands(vs[0], image))
  {
    assert vs[1..] == [];
  }

  lemma Whole(vs: seq<Value>, items: seq<Value>)
    requires vs == [List(items)] && Boundary(items) == 0
    ensures Suffixes(vs) == vs && PrefixStats(vs) == Stats(0, 0)
  {
    assert vs[1..] == [] && items[..0] == [] && items[0..] == items;
  }

  /** What bounding sees of the request. */
  lemma RequestFacts(text: string, image: string, n: nat, limit: nat)
    requires LosesReference(text, limit) && Size(image) > 0 && n > 0
    ensures var vs := Request(text, image, n);
            && Suffixes(vs) == vs && PrefixStats(vs) == Stats(0, 0) && ShallowItems(vs)
            && ItemPreviews(vs) == n && |AllSizes(vs)| == n + 1 && KeptItems(vs, limit) == 0
            && StandsIn(vs, image) && StandsIn(vs, text)
  {
    var parts := Parts(text, image, n);
    PartsFacts(text, image, n, limit);
    OutputFacts(TOOL_OUTPUT, "output", parts, text, image, n, limit);
    var output := Pair(TOOL_OUTPUT, "output", List(parts));
    ListFacts([List([output])], [output], output, image, limit);
    ListFacts([List([output])], [output], output, text, limit);
  }

  /** The first pass changes the request, and the second one changes what the first has made of it. */
  predicate ChangesTwice(codec: Codec, vs: seq<Value>) {
    var once := WithBounded(codec, vs);
    && once.Success? && once.value.Some?
    && var twice := WithBounded(codec, once.value.value); twice.Success? && twice.value.Some?
  }

  /**
   A tool gives a text and n images, the text holding the reference and being itself
   an image above the preview target: the first pass replaces the text, so the second
   one finds no preview, lowers its target and compresses images that the first one left.
   */
  lemma TwoPassesDiffer(codec: Codec, text: string, image: string, n: nat)
    requires n > 0 && Opens(codec) && LosesReference(text, PreviewTarget(n)) && MANY_TOTAL < (n + 1) * PREVIEW_MIN
    requires Max(HISTORY_MIN, MANY_TOTAL / (n + 1)) < Size(image) <= PREVIEW_MIN
    ensures ChangesTwice(codec, Request(text, image, n))
  {
    var vs := Request(text, image, n);
    RequestFacts(text, image, n, PreviewTarget(n));
    RequestFacts(text, image, n, PREVIEW_MIN);
    LostTargets(vs, n);
    OpensPass(codec, vs);
    PassIdle(codec, vs);
    TooLargeIn(vs, text, PREVIEW_MIN);
    var ws := WithBounded(codec, vs).value.value;
    BetweenTargets(codec, vs, ws, image);
    OpensPass(codec, ws);
  }

  lemma LostTargets(vs: seq<Value>, n: nat)
    requires n > 0 && MANY_TOTAL < (n + 1) * PREVIEW_MIN
    requires Suffixes(vs) == vs && PrefixStats(vs) == Stats(0, 0) && ItemPreviews(vs) == n && |AllSizes(vs)| == n + 1
    requires KeptItems(vs, PREVIEW_MIN) == 0
    ensures FirstTarget(vs) == PassTarget(vs, vs) == PREVIEW_MIN <= PreviewTarget(n)
    ensures SecondTarget(vs) == Max(HISTORY_MIN, MANY_TOTAL / (n + 1))
  {
    PreviewTargetFalls(n, n);
    ShortTargets(n);
  }

  lemma ShortTargets(n: nat)
    requires n > 0 && MANY_TOTAL < (n + 1) * PREVIEW_MIN
    ensures Target(n + 1, n, 0, 0) == PREVIEW_MIN
    ensures Target(n + 1, 0, 0, 0) == Max(HISTORY_MIN, MANY_TOTAL / (n + 1))
  {
    AtLeast(MANY_TOTAL, n + 1, PREVIEW_MIN);
  }

  // ---- such a text ----

  /** The reference stands where an image's type does. */
  function MarkedUrl(d: seq<Byte>): string { IMAGE + REFERENCE + BASE64 + Encoded(d) }

  lemma {:induction false} Found(s: string, part: string, from: nat, at: nat)
    requires from <= at && At(s, part, at)
    ensures Find(s, part, from).Some?
    decreases at - from
  {
    if from < at && !At(s, part, from) { Found(s, part, from + 1, at); }
  }

  /** An image of any size may hold the reference. */
  lemma MarkedUrlLoses(d: seq<Byte>, limit: nat)
    requires |d| > limit
    ensures LosesReference(MarkedUrl(d), limit) && Size(MarkedUrl(d)) == |d|
  {
    var code, url := Encoded(d), MarkedUrl(d);
    EncodedCode(d);
    MarkedParts(IMAGE, REFERENCE, ORIGINAL, BASE64);
    Headed(IMAGE, REFERENCE, BASE64, code, url);
    PayloadSize(d, code, url);
    MarkedHead(code, url, IMAGE, REFERENCE, ORIGINAL, BASE64);
  }

  lemma MarkedParts(image: string, reference: string, original: string, marker: string)
    requires image == IMAGE && reference == REFERENCE && original == ORIGINAL && marker == BASE64
    ensures marker != "" && marker[0] == ';' && ';' !in image && ';' !in reference
    ensures Brackets(image, reference, original, marker)
  {
    assert '[' !in image && '[' !in marker;
    Behind(reference);
  }

  lemma Behind(reference: string)
    requires reference == REFERENCE
    ensures |reference| > 14 && '[' !in reference[1..]
  {
    forall i | 1 <= i < |reference| ensures reference[i] != '[' { }
  }

  /** The two references differ behind their first character, and no other part has a bracket. */
  predicate Brackets(image: string, reference: string, original: string, marker: string) {
    && |original| > 14 && |reference| > 14 && original[14] != reference[14]
    && original[0] == '[' && '[' !in image && '[' !in reference[1..] && '[' !in marker
  }

  lemma MarkedHead(code: string, url: string, image: string, reference: string, original: string, marker: string)
    requires Brackets(image, reference, original, marker)
    requires url == image + reference + marker + code && AllCode(code)
    ensures Contains(url, reference) && !Contains(url, original)
  {
    var a := |image|;
    var rest := reference + marker + code;
    assert url == image + rest && url[a..a + |reference|] == reference;
    Found(url, reference, 0, a);
    var at := Find(url, original, 0);
    if at.Some? {
      var i := at.value;
      AtFirst(url, original, i);
    }
  }

  /** For every such compressor and enough images there is such a request; 18 images of 127 kB are enough. */
  lemma PassesMayDiffer(codec: Codec, marked: seq<Byte>, image: seq<Byte>, n: nat)
    requires n > 0 && Opens(codec) && |marked| > PreviewTarget(n) && MANY_TOTAL < (n + 1) * PREVIEW_MIN
    requires Max(HISTORY_MIN, MANY_TOTAL / (n + 1)) < |image| <= PREVIEW_MIN
    ensures ChangesTwice(codec, Request(MarkedUrl(marked), JpegUrl(image), n))
  {
    MarkedUrlLoses(marked, PreviewTarget(n));
    JpegSize(image);
    TwoPassesDiffer(codec, MarkedUrl(marked), JpegUrl(image), n);
  }
}
