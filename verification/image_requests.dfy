/** Bounding all inline images of a request, whose values are its inputs and its messages. */
module ImageRequests {
  import opened Wrappers
  import opened ImageUrls
  import opened ImageBounding
  import opened ImageFixedPoint

  // ---- what the immutable prefix holds ----

  /** How many images there are, and the bytes of those inline. */
  datatype Stats = Stats(count: nat, bytes: nat)

  function Plus(a: Stats, b: Stats): Stats { Stats(a.count + b.count, a.bytes + b.bytes) }

  predicate Present(v: Value) {
    match v
    case Str(s) => s != ""
    case List(items) => items != []
    case Dict(keys, _) => keys != []
    case Atom => false
  }

  predicate IsPart(v: Value) {
    IsText(Field(v, "type"), "input_image") || IsText(Field(v, "type"), "image_url")
  }

  /** The image a part refers to, as a text. */
  function Referred(v: Value): string {
    var image := Field(v, "image_url");
    var found := if Present(image) || (!IsPart(v) && (image.Str? || image.Dict?)) then image
                 else if Present(Field(v, "url")) then Field(v, "url") else Field(v, "file_id");
    if found.Str? then found.s else if Field(found, "url").Str? then Field(found, "url").s else ""
  }

  function ImageStats(v: Value): Stats
    decreases v, 0
  {
    match v
    case List(items) => ItemStats(items)
    case Dict(_, items) =>
      if IsPart(v) || Field(v, "image_url").Str? || Field(v, "image_url").Dict?
      then Stats(1, Size(Referred(v)))
      else ItemStats(items)
    case _ => Stats(0, 0)
  }

  function ItemStats(vs: seq<Value>): Stats
    decreases vs, 1
  {
    if vs == [] then Stats(0, 0) else Plus(ImageStats(vs[0]), ItemStats(vs[1..]))
  }

  // ---- one pass ----

  function Suffixes(vs: seq<Value>): seq<Value> {
    if vs == [] then [] else [Suffix(vs[0])] + Suffixes(vs[1..])
  }

  function PrefixStats(vs: seq<Value>): Stats {
    if vs == [] then Stats(0, 0) else Plus(ItemStats(Prefix(vs[0])), PrefixStats(vs[1..]))
  }

  function AllSizes(vs: seq<Value>): seq<nat> {
    if vs == [] then [] else CompressibleSizes(vs[0]) + AllSizes(vs[1..])
  }

  function RejoinAll(vs: seq<Value>, us: seq<Value>): seq<Value> {
    if vs == [] || us == [] then [] else [Rejoined(vs[0], us[0])] + RejoinAll(vs[1..], us[1..])
  }

  predicate AllAtMost(sizes: seq<nat>, target: nat) { forall i | 0 <= i < |sizes| :: sizes[i] <= target }

  /** The target of a pass, from the suffixes whose previews are bounded already. */
  function PassTarget(vs: seq<Value>, bounded: seq<Value>): nat {
    var stats, sizes := PrefixStats(vs), AllSizes(bounded);
    if sizes == [] then 0 else Target(|sizes|, ItemPreviews(Suffixes(vs)), stats.count, stats.bytes)
  }

  function PassEdge(vs: seq<Value>, bounded: seq<Value>): nat {
    if PrefixStats(vs).count + |AllSizes(bounded)| > 1 then MANY_EDGE else SINGLE_EDGE
  }

  function Previews(codec: Codec, vs: seq<Value>): Result<seq<Value>> {
    PreviewItems(codec, Suffixes(vs), PreviewTarget(ItemPreviews(Suffixes(vs))))
  }

  /** The request with bounded images, or none if nothing has to change. */
  function WithBounded(codec: Codec, vs: seq<Value>): Result<Option<seq<Value>>> {
    var suffixes, previews := Suffixes(vs), Previews(codec, vs);
    if previews.Failure? then Failure
    else
      var bounded := previews.value;
      var target := PassTarget(vs, bounded);
      if AllSizes(bounded) == [] || (AllAtMost(AllSizes(bounded), target) && bounded == suffixes) then Success(None)
      else
        var updated := BoundItems(codec, bounded, target, PassEdge(vs, bounded));
        if updated.Failure? then Failure
        else if updated.value == bounded && bounded == suffixes then Success(None)
        else Success(Some(RejoinAll(vs, updated.value)))
  }

  // ---- the code ----

  method WithBoundedImageInputs(codec: Codec, vs: seq<Value>) returns (r: Result<Option<seq<Value>>>)
    ensures r == WithBounded(codec, vs)
  {
    var suffixes, previewCount, stats := SplitAtBoundary(vs);
    var bounded, sizes, failed := BoundPreviewsAndMeasure(codec, suffixes, PreviewTarget(previewCount));
    if failed {
      return Failure;
    }
    if sizes == [] {
      return Success(None);
    }
    var target := Target(|sizes|, previewCount, stats.count, stats.bytes);
    if AllAtMost(sizes, target) && bounded == suffixes {
      return Success(None);
    }
    r := BoundAll(codec, vs, suffixes, bounded, target, if stats.count + |sizes| > 1 then MANY_EDGE else SINGLE_EDGE);
  }

  /** The second half of a pass: bound what the first one left, and put the result in place. */
  method BoundAll(codec: Codec, vs: seq<Value>, suffixes: seq<Value>, bounded: seq<Value>, target: nat, edge: nat)
      returns (r: Result<Option<seq<Value>>>)
    ensures var updated := BoundItems(codec, bounded, target, edge);
            r == if updated.Failure? then Failure
                 else if updated.value == bounded && bounded == suffixes then Success(None)
                 else Success(Some(RejoinAll(vs, updated.value)))
  {
    var updated := BoundItems(codec, bounded, target, edge);
    if updated.Failure? {
      return Failure;
    }
    if updated.value == bounded && bounded == suffixes {
      return Success(None);
    }
    return Success(Some(RejoinAll(vs, updated.value)));
  }

  method SplitAtBoundary(vs: seq<Value>) returns (suffixes: seq<Value>, previewCount: nat, stats: Stats)
    ensures suffixes == Suffixes(vs) && previewCount == ItemPreviews(Suffixes(vs)) && stats == PrefixStats(vs)
  {
    hide Suffixes, ItemPreviews, PrefixStats, Suffix, Prefix, PreviewCount, ItemStats;
    suffixes, previewCount, stats := [], 0, Stats(0, 0);
    assert vs[0..] == vs;
    for i := 0 to |vs|
      invariant Suffixes(vs) == suffixes + Suffixes(vs[i..])
      invariant ItemPreviews(Suffixes(vs)) == previewCount + ItemPreviews(Suffixes(vs[i..]))
      invariant PrefixStats(vs) == Plus(stats, PrefixStats(vs[i..]))
    {
      OneSplit(vs, i);
      suffixes := suffixes + [Suffix(vs[i])];
      previewCount := previewCount + PreviewCount(Suffix(vs[i]));
      stats := Plus(stats, ItemStats(Prefix(vs[i])));
    }
    NoneSplit(vs[|vs|..]);
  }

  lemma OneSplit(vs: seq<Value>, i: nat)
    requires i < |vs|
    ensures Suffixes(vs[i..]) == [Suffix(vs[i])] + Suffixes(vs[i + 1..])
    ensures ItemPreviews(Suffixes(vs[i..])) == PreviewCount(Suffix(vs[i])) + ItemPreviews(Suffixes(vs[i + 1..]))
    ensures PrefixStats(vs[i..]) == Plus(ItemStats(Prefix(vs[i])), PrefixStats(vs[i + 1..]))
  {
    hide Suffix, Prefix, PreviewCount, ItemStats;
    assert vs[i..][1..] == vs[i + 1..];
    assert Suffixes(vs[i..])[1..] == Suffixes(vs[i + 1..]);
  }

  lemma NoneSplit(vs: seq<Value>)
    requires vs == []
    ensures Suffixes(vs) == [] && ItemPreviews(Suffixes(vs)) == 0 && PrefixStats(vs) == Stats(0, 0)
  {
  }

  method BoundPreviewsAndMeasure(codec: Codec, suffixes: seq<Value>, target: nat)
      returns (bounded: seq<Value>, sizes: seq<nat>, failed: bool)
    ensures failed <==> PreviewItems(codec, suffixes, target).Failure?
    ensures !failed ==> bounded == PreviewItems(codec, suffixes, target).value && sizes == AllSizes(bounded)
  {
    bounded, sizes := [], [];
    assert suffixes[0..] == suffixes;
    BehindNone(PreviewItems(codec, suffixes, target));
    for i := 0 to |suffixes|
      invariant PreviewItems(codec, suffixes, target) == Behind(bounded, PreviewItems(codec, suffixes[i..], target))
      invariant sizes == AllSizes(bounded)
    {
      assert suffixes[i..][1..] == suffixes[i + 1..];
      var one := BoundPreviews(codec, suffixes[i], target);
      if one.Failure? {
        return bounded, sizes, true;
      }
      SizesLast(bounded, one.value);
      BehindOne(bounded, one.value, PreviewItems(codec, suffixes[i + 1..], target));
      bounded := bounded + [one.value];
      sizes := sizes + CompressibleSizes(one.value);
    }
    assert suffixes[|suffixes|..] == [];
    failed := false;
  }

  function Behind(front: seq<Value>, rest: Result<seq<Value>>): Result<seq<Value>> {
    if rest.Success? then Success(front + rest.value) else Failure
  }

  lemma BehindNone(rest: Result<seq<Value>>)
    ensures Behind([], rest) == rest
  {
    if rest.Success? { assert [] + rest.value == rest.value; }
  }

  lemma BehindOne(front: seq<Value>, v: Value, rest: Result<seq<Value>>)
    ensures Behind(front, Behind([v], rest)) == Behind(front + [v], rest)
  {
    if rest.Success? { assert front + ([v] + rest.value) == (front + [v]) + rest.value; }
  }

  lemma {:induction false} SizesLast(vs: seq<Value>, v: Value)
    ensures AllSizes(vs + [v]) == AllSizes(vs) + CompressibleSizes(v)
  {
    if vs != [] {
      assert (vs + [v])[1..] == vs[1..] + [v];
      SizesLast(vs[1..], v);
    } else {
      assert (vs + [v])[1..] == [];
    }
  }

  // ---- what a pass does ----

  lemma {:induction false} RelTrans(u: Value, v: Value, w: Value)
    requires Rel(u, v) && Rel(v, w)
    ensures Rel(u, w)
    decreases u, 0
  {
    match u
    case Str(_) =>
    case Atom =>
    case List(items) => RelItemsTrans(items, v.items, w.items);
    case Dict(_, items) => RelItemsTrans(items, v.items, w.items);
  }

  lemma {:induction false} RelItemsTrans(us: seq<Value>, vs: seq<Value>, ws: seq<Value>)
    requires RelItems(us, vs) && RelItems(vs, ws)
    ensures RelItems(us, ws)
    decreases us, 1
  {
    if us != [] {
      RelTrans(us[0], vs[0], ws[0]);
      RelItemsTrans(us[1..], vs[1..], ws[1..]);
    }
  }

  /** Both kinds of bounding keep the number of images that count. */
  lemma {:induction false} PreviewSizes(codec: Codec, vs: seq<Value>, target: nat)
    requires Sound(codec) && PreviewItems(codec, vs, target).Success?
    ensures |AllSizes(PreviewItems(codec, vs, target).value)| == |AllSizes(vs)|
  {
    if vs != [] {
      OriginalKept(codec, vs[0], target);
      PreviewsRel(codec, vs[0], target);
      RelCounts(vs[0], BoundPreviews(codec, vs[0], target).value);
      PreviewSizes(codec, vs[1..], target);
    }
  }

  lemma {:induction false} BoundSizes(codec: Codec, vs: seq<Value>, target: nat, edge: nat)
    requires Sound(codec) && BoundItems(codec, vs, target, edge).Success?
    ensures |AllSizes(BoundItems(codec, vs, target, edge).value)| == |AllSizes(vs)|
  {
    if vs != [] {
      OriginalBound(codec, vs[0], target, edge);
      BoundKeeps(codec, vs[0], target, edge);
      RelCounts(vs[0], BoundValue(codec, vs[0], target, edge).value);
      BoundSizes(codec, vs[1..], target, edge);
    }
  }

  /** Nothing in front of the boundary changes, and the new suffixes are the updated ones. */
  lemma {:induction false} RejoinedParts(vs: seq<Value>, us: seq<Value>)
    requires RelItems(Suffixes(vs), us)
    ensures var ws := RejoinAll(vs, us);
            && |ws| == |vs| && Suffixes(ws) == us && PrefixStats(ws) == PrefixStats(vs)
            && forall i | 0 <= i < |vs| :: Prefix(ws[i]) == Prefix(vs[i])
  {
    if vs != [] {
      Reboundary(vs[0], us[0]);
      RejoinedParts(vs[1..], us[1..]);
    }
  }

  lemma {:induction false} SizesWithin(v: Value, target: nat)
    requires AllAtMost(Sizes(v), target)
    ensures Within(v, target)
    decreases v, 0
  {
    match v
    case Str(s) => if Size(s) > 0 { assert Sizes(v)[0] == Size(s); }
    case Atom =>
    case List(items) => ItemSizesWithin(items, target);
    case Dict(_, items) => ItemSizesWithin(items, target);
  }

  lemma {:induction false} ItemSizesWithin(vs: seq<Value>, target: nat)
    requires AllAtMost(ItemSizes(vs), target)
    ensures WithinItems(vs, target)
    decreases vs, 1
  {
    if vs != [] {
      AtMostParts(Sizes(vs[0]), ItemSizes(vs[1..]), target);
      SizesWithin(vs[0], target);
      ItemSizesWithin(vs[1..], target);
    }
  }

  lemma AtMostParts(a: seq<nat>, b: seq<nat>, target: nat)
    requires AllAtMost(a + b, target)
    ensures AllAtMost(a, target) && AllAtMost(b, target)
  {
    forall i | 0 <= i < |a| ensures a[i] <= target { assert (a + b)[i] == a[i]; }
    forall i | 0 <= i < |b| ensures b[i] <= target { assert (a + b)[|a| + i] == b[i]; }
  }

  lemma {:induction false} AllSizesWithin(vs: seq<Value>, target: nat)
    requires AllAtMost(AllSizes(vs), target)
    ensures WithinItems(vs, target)
  {
    if vs != [] {
      AtMostParts(CompressibleSizes(vs[0]), AllSizes(vs[1..]), target);
      if !Marked(vs[0], ORIGINAL) { SizesWithin(vs[0], target); }
      AllSizesWithin(vs[1..], target);
    }
  }

  /**
   After a pass, every inline image behind the boundary and outside outputs marked as
   original is within the target, and only inline images there have changed.
   */
  lemma PassBounds(codec: Codec, vs: seq<Value>)
    requires Sound(codec) && WithBounded(codec, vs).Success?
    ensures var ws := WithBounded(codec, vs).value.GetOr(vs);
            var target := PassTarget(vs, Previews(codec, vs).value);
            && |ws| == |vs| && WithinItems(Suffixes(ws), target) && RelItems(Suffixes(vs), Suffixes(ws))
            && forall i | 0 <= i < |vs| :: Prefix(ws[i]) == Prefix(vs[i])
  {
    var suffixes, bounded := Suffixes(vs), Previews(codec, vs).value;
    var target := PassTarget(vs, bounded);
    RelItemsSelf(suffixes);
    PreviewItemsRel(codec, suffixes, PreviewTarget(ItemPreviews(suffixes)));
    PreviewSizes(codec, suffixes, PreviewTarget(ItemPreviews(suffixes)));
    if AllSizes(bounded) == [] {
      AllSizesWithin(suffixes, target);
    } else if AllAtMost(AllSizes(bounded), target) && bounded == suffixes {
      AllSizesWithin(suffixes, target);
    } else {
      var edge := PassEdge(vs, bounded);
      BoundItemsKeep(codec, bounded, target, edge);
      var updated := BoundItems(codec, bounded, target, edge).value;
      RelItemsTrans(suffixes, bounded, updated);
      RejoinedParts(vs, updated);
    }
  }

  // ---- a second pass ----

  /** What a pass that changed something has made of the values. */
  lemma PassResult(codec: Codec, vs: seq<Value>, ws: seq<Value>) returns (bounded: seq<Value>)
    requires Sound(codec) && WithBounded(codec, vs) == Success(Some(ws))
    ensures Previews(codec, vs) == Success(bounded) && AllSizes(bounded) != []
    ensures BoundItems(codec, bounded, PassTarget(vs, bounded), PassEdge(vs, bounded)) == Success(Suffixes(ws))
    ensures RelItems(Suffixes(vs), bounded) && RelItems(bounded, Suffixes(ws))
    ensures PrefixStats(ws) == PrefixStats(vs)
    ensures |AllSizes(Suffixes(ws))| == |AllSizes(bounded)| == |AllSizes(Suffixes(vs))|
  {
    var suffixes := Suffixes(vs);
    bounded := Previews(codec, vs).value;
    var target, edge := PassTarget(vs, bounded), PassEdge(vs, bounded);
    var updated := BoundItems(codec, bounded, target, edge).value;
    PreviewItemsRel(codec, suffixes, PreviewTarget(ItemPreviews(suffixes)));
    PreviewSizes(codec, suffixes, PreviewTarget(ItemPreviews(suffixes)));
    BoundItemsKeep(codec, bounded, target, edge);
    BoundSizes(codec, bounded, target, edge);
    RelItemsTrans(suffixes, bounded, updated);
    RejoinedParts(vs, updated);
  }

  /** A pass over images changes nothing exactly when all are within its targets. */
  lemma PassIdle(codec: Codec, vs: seq<Value>)
    requires Sound(codec) && AllSizes(Suffixes(vs)) != []
    ensures WithBounded(codec, vs) == Success(None) <==>
              && PreviewItemsWithin(Suffixes(vs), PreviewTarget(ItemPreviews(Suffixes(vs))))
              && WithinItems(Suffixes(vs), PassTarget(vs, Suffixes(vs)))
  {
    var suffixes := Suffixes(vs);
    var preview := PreviewTarget(ItemPreviews(suffixes));
    PreviewItemsStay(codec, suffixes, preview);
    if Previews(codec, vs).Success? {
      var bounded := Previews(codec, vs).value;
      PreviewSizes(codec, suffixes, preview);
      BoundItemsStay(codec, bounded, PassTarget(vs, bounded), PassEdge(vs, bounded));
      if AllAtMost(AllSizes(bounded), PassTarget(vs, bounded)) { AllSizesWithin(bounded, PassTarget(vs, bounded)); }
    }
  }

  /** A second pass changes nothing exactly when the first one's result is within the targets of the second. */
  lemma SecondPassIdle(codec: Codec, vs: seq<Value>, ws: seq<Value>)
    requires Sound(codec) && WithBounded(codec, vs) == Success(Some(ws))
    ensures WithBounded(codec, ws) == Success(None) <==>
              && PreviewItemsWithin(Suffixes(ws), PreviewTarget(ItemPreviews(Suffixes(ws))))
              && WithinItems(Suffixes(ws), PassTarget(ws, Suffixes(ws)))
  {
    var bounded := PassResult(codec, vs, ws);
    PassIdle(codec, ws);
  }

  /** Where no text with a marker is an image, a second pass changes nothing. */
  lemma SecondPassChangesNothing(codec: Codec, vs: seq<Value>, ws: seq<Value>)
    requires Sound(codec) && TameItems(Suffixes(vs)) && WithBounded(codec, vs) == Success(Some(ws))
    ensures WithBounded(codec, ws) == Success(None)
  {
    var bounded := PassResult(codec, vs, ws);
    var suffixes, updated := Suffixes(vs), Suffixes(ws);
    var count := ItemPreviews(suffixes);
    var target, edge := PassTarget(vs, bounded), PassEdge(vs, bounded);
    RelItemCounts(suffixes, bounded);
    RelItemsTrans(suffixes, bounded, updated);
    RelItemPreviews(suffixes, updated);
    PreviewItemsKeep(codec, suffixes, PreviewTarget(count));
    BoundItemsKeepPreviews(codec, bounded, PreviewTarget(count), target, edge);
    BoundItemsKeep(codec, bounded, target, edge);
    SecondPassIdle(codec, vs, ws);
  }
}
