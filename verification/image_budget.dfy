/** The budget for the inline images of a whole request, the part that may not be changed included. */
module ImageBudget {
  import opened Wrappers
  import opened ImageUrls
  import opened ImageBounding
  import opened ImageFixedPoint
  import opened ImageRequests

  function Sum(sizes: seq<nat>): nat { if sizes == [] then 0 else sizes[0] + Sum(sizes[1..]) }

  lemma {:induction false} SumBoth(a: seq<nat>, b: seq<nat>)
    ensures Sum(a + b) == Sum(a) + Sum(b)
  {
    if a == [] {
      assert a + b == b;
    } else {
      assert (a + b)[1..] == a[1..] + b;
      SumBoth(a[1..], b);
    }
  }

  lemma {:induction false} SumAtMost(sizes: seq<nat>, target: nat)
    requires AllAtMost(sizes, target)
    ensures Sum(sizes) <= |sizes| * target
  {
    if sizes != [] {
      SumAtMost(sizes[1..], target);
      assert |sizes| * target == target + (|sizes| - 1) * target;
    }
  }

  // ---- images as they are sent ----

  /** The two forms of an image: its address as a text, or as the text under url. */
  predicate IsImage(v: Value, s: string) {
    && (IsText(Field(v, "type"), "input_image") || IsText(Field(v, "type"), "image_url")) && s != ""
    && (Field(v, "image_url") == Str(s) || (Field(v, "image_url").Dict? && Field(v, "image_url").keys != []
                                             && Field(Field(v, "image_url"), "url") == Str(s)))
  }

  function AddressOf(v: Value): string {
    var image := Field(v, "image_url");
    if image.Str? then image.s else if Field(image, "url").Str? then Field(image, "url").s else ""
  }

  /** No image address and no image type. */
  predicate IsNoImage(v: Value) {
    && !IsText(Field(v, "type"), "input_image") && !IsText(Field(v, "type"), "image_url")
    && !Field(v, "image_url").Str? && !Field(v, "image_url").Dict?
  }

  /** Every inline image in the value is the image of such a part. */
  predicate InParts(v: Value)
    decreases v, 0
  {
    match v
    case Str(s) => Size(s) == 0
    case Atom => true
    case List(items) => AllInParts(items)
    case Dict(_, items) =>
      if IsImage(v, AddressOf(v)) then Sizes(v) == if Size(AddressOf(v)) > 0 then [Size(AddressOf(v))] else []
      else IsNoImage(v) && AllInParts(items)
  }

  predicate AllInParts(vs: seq<Value>)
    decreases vs, 1
  {
    vs == [] || (InParts(vs[0]) && AllInParts(vs[1..]))
  }

  /** The number of images, inline or not. */
  function Parts(v: Value): nat
    decreases v, 0
  {
    match v
    case List(items) => PartsIn(items)
    case Dict(_, items) => if IsImage(v, AddressOf(v)) then 1 else PartsIn(items)
    case _ => 0
  }

  function PartsIn(vs: seq<Value>): nat
    decreases vs, 1
  {
    if vs == [] then 0 else Parts(vs[0]) + PartsIn(vs[1..])
  }

  /** What is counted of a value are its images and their bytes. */
  lemma {:induction false} StatsAre(v: Value)
    requires InParts(v)
    ensures ImageStats(v) == Stats(Parts(v), Sum(Sizes(v)))
    decreases v, 0
  {
    match v
    case Str(_) =>
    case Atom =>
    case List(items) => ItemStatsAre(items);
    case Dict(_, items) => if IsImage(v, AddressOf(v)) { OneImage(v); } else { ItemStatsAre(items); }
  }

  lemma OneImage(v: Value)
    requires v.Dict? && IsImage(v, AddressOf(v)) && InParts(v)
    ensures ImageStats(v) == Stats(1, Sum(Sizes(v)))
  {
    var image := Field(v, "image_url");
    assert Present(image) && Referred(v) == AddressOf(v);
    assert Sum([Size(AddressOf(v))]) == Size(AddressOf(v));
  }

  lemma {:induction false} ItemStatsAre(vs: seq<Value>)
    requires AllInParts(vs)
    ensures ItemStats(vs) == Stats(PartsIn(vs), Sum(ItemSizes(vs)))
    decreases vs, 1
  {
    hide InParts, ImageStats, Parts, Sizes;
    if vs != [] {
      StatsAre(vs[0]);
      ItemStatsAre(vs[1..]);
      SumBoth(Sizes(vs[0]), ItemSizes(vs[1..]));
    }
  }

  /** A field that is there and neither blank nor empty. */
  predicate IsGiven(v: Value, key: string) {
    var f := Field(v, key);
    (f.Str? && f.s != "") || (f.List? && |f.items| > 0) || (f.Dict? && |f.keys| > 0)
  }

  /** An address: a text, or the text under url; anything else gives none. */
  predicate IsAddress(v: Value, s: string) {
    (v.Str? && v.s == s) || (!v.Str? && Field(v, "url") == Str(s)) || (!v.Str? && !Field(v, "url").Str? && s == "")
  }

  predicate IsTyped(v: Value) { Field(v, "type") == Str("input_image") || Field(v, "type") == Str("image_url") }

  /**
   What counts as one image: a part of an image type, or any other with an image address.  Its address is the one
   under image_url; only for an image type may it be under url, or else under file_id.
   */
  lemma OneImageCounts(v: Value, s: string)
    requires v.Dict? && (IsTyped(v) || Field(v, "image_url").Str? || Field(v, "image_url").Dict?)
    requires IsAddress(if IsGiven(v, "image_url") || !IsTyped(v) then Field(v, "image_url")
                       else if IsGiven(v, "url") then Field(v, "url") else Field(v, "file_id"), s)
    ensures ImageStats(v) == Stats(1, Size(s))
  {
    OnlyAddress(if IsGiven(v, "image_url") || !IsTyped(v) then Field(v, "image_url")
                else if IsGiven(v, "url") then Field(v, "url") else Field(v, "file_id"), s);
  }

  lemma OnlyAddress(v: Value, s: string)
    requires IsAddress(v, s)
    ensures s == if v.Str? then v.s else if Field(v, "url").Str? then Field(v, "url").s else ""
  {
  }

  // ---- the request ----

  /** The images and the inline bytes in front of the boundaries. */
  function FixedParts(vs: seq<Value>): nat { if vs == [] then 0 else PartsIn(Prefix(vs[0])) + FixedParts(vs[1..]) }

  function FixedBytes(vs: seq<Value>): nat {
    if vs == [] then 0 else Sum(ItemSizes(Prefix(vs[0]))) + FixedBytes(vs[1..])
  }

  predicate FixedInParts(vs: seq<Value>) { vs == [] || (AllInParts(Prefix(vs[0])) && FixedInParts(vs[1..])) }

  lemma {:induction false} PrefixStatsAre(vs: seq<Value>)
    requires FixedInParts(vs)
    ensures PrefixStats(vs) == Stats(FixedParts(vs), FixedBytes(vs))
  {
    hide Prefix, ItemStats, AllInParts, PartsIn, ItemSizes, Sum;
    if vs != [] {
      ItemStatsAre(Prefix(vs[0]));
      PrefixStatsAre(vs[1..]);
    }
  }

  /**
   The target of a pass.  A single image in the whole request may have 900,000 bytes.
   Many share what the images in front of the boundaries leave of 2,400,000, each at most
   320,000 and at least 128,000 if there are previews and 64,000 otherwise.
   */
  lemma TargetExactly(vs: seq<Value>, bounded: seq<Value>)
    requires FixedInParts(vs) && AllSizes(bounded) != []
    ensures var count, least := |AllSizes(bounded)|, if ItemPreviews(Suffixes(vs)) > 0 then 128000 else 64000;
            PassTarget(vs, bounded)
            == if FixedParts(vs) == 0 && count == 1 then 900000
               else Min(320000, Max(least, Max(0, 2400000 - FixedBytes(vs)) / count))
  {
    PrefixStatsAre(vs);
  }

  /** The inline images behind a boundary, but for those in outputs marked as original. */
  function FreeSizes(v: Value): seq<nat>
    decreases v, 0
  {
    match v
    case Str(s) => if Size(s) > 0 then [Size(s)] else []
    case Atom => []
    case List(items) => FreeItemSizes(items)
    case Dict(_, items) => if Marked(v, ORIGINAL) then [] else FreeItemSizes(items)
  }

  function FreeItemSizes(vs: seq<Value>): seq<nat>
    decreases vs, 1
  {
    if vs == [] then [] else FreeSizes(vs[0]) + FreeItemSizes(vs[1..])
  }

  lemma {:induction false} FreeFewer(v: Value)
    ensures |FreeSizes(v)| <= |Sizes(v)|
    decreases v, 0
  {
    match v
    case List(items) => FreeItemsFewer(items);
    case Dict(_, items) => FreeItemsFewer(items);
    case _ =>
  }

  lemma {:induction false} FreeItemsFewer(vs: seq<Value>)
    ensures |FreeItemSizes(vs)| <= |ItemSizes(vs)|
    decreases vs, 1
  {
    if vs != [] {
      FreeFewer(vs[0]);
      FreeItemsFewer(vs[1..]);
    }
  }

  lemma {:induction false} FreeCounted(vs: seq<Value>)
    ensures |FreeItemSizes(vs)| <= |AllSizes(vs)|
  {
    if vs != [] {
      FreeFewer(vs[0]);
      FreeCounted(vs[1..]);
    }
  }

  lemma {:induction false} FreeWithin(v: Value, target: nat)
    requires Within(v, target)
    ensures AllAtMost(FreeSizes(v), target)
    decreases v, 0
  {
    match v
    case List(items) => FreeItemsWithin(items, target);
    case Dict(_, items) => if !Marked(v, ORIGINAL) { FreeItemsWithin(items, target); }
    case _ =>
  }

  lemma {:induction false} FreeItemsWithin(vs: seq<Value>, target: nat)
    requires WithinItems(vs, target)
    ensures AllAtMost(FreeItemSizes(vs), target)
    decreases vs, 1
  {
    if vs != [] {
      FreeWithin(vs[0], target);
      FreeItemsWithin(vs[1..], target);
    }
  }

  /**
   After a pass over many images, all inline bytes together are within 2,400,000, or what
   may not be changed and the least target for each image that may are more than that.
   */
  lemma WholeBudget(codec: Codec, vs: seq<Value>)
    requires Sound(codec) && WithBounded(codec, vs).Success? && FixedInParts(vs)
    requires FixedParts(vs) + |AllSizes(Suffixes(vs))| > 1 && AllSizes(Suffixes(vs)) != []
    ensures var ws := WithBounded(codec, vs).value.GetOr(vs);
            var count, least := |AllSizes(Suffixes(vs))|, if ItemPreviews(Suffixes(vs)) > 0 then 128000 else 64000;
            && FixedBytes(ws) == FixedBytes(vs)
            && FixedBytes(ws) + Sum(FreeItemSizes(Suffixes(ws))) <= Max(2400000, FixedBytes(vs) + count * least)
  {
    hide FreeItemSizes, WithinItems, Sound, Target, Prefix, AllSizes, Suffixes;
    var bounded := Previews(codec, vs).value;
    var ws, target := WithBounded(codec, vs).value.GetOr(vs), PassTarget(vs, bounded);
    PassBounds(codec, vs);
    SameCounts(codec, vs, ws, bounded);
    SameFixed(vs, ws);
    FreeItemsWithin(Suffixes(ws), target);
    FreeCounted(Suffixes(ws));
    SumAtMost(FreeItemSizes(Suffixes(ws)), target);
    PrefixStatsAre(vs);
    BudgetWithin(|FreeItemSizes(Suffixes(ws))|, |AllSizes(bounded)|, ItemPreviews(Suffixes(vs)), FixedParts(vs),
                 FixedBytes(vs), Sum(FreeItemSizes(Suffixes(ws))));
  }

  lemma BudgetWithin(free: nat, count: nat, previews: nat, fixedParts: nat, fixedBytes: nat, sum: nat)
    requires free <= count && fixedParts + count > 1 && count > 0
    requires sum <= free * Target(count, previews, fixedParts, fixedBytes)
    ensures var least := if previews > 0 then 128000 else 64000;
            fixedBytes + sum <= Max(2400000, fixedBytes + count * least)
  {
    var target := Target(count, previews, fixedParts, fixedBytes);
    BudgetKept(count, previews, fixedParts, fixedBytes);
    hide Target;
    TimesMore(free, count, target);
  }

  lemma TimesMore(m: nat, n: nat, target: nat)
    requires m <= n
    ensures m * target <= n * target
  {
  }

  lemma SameCounts(codec: Codec, vs: seq<Value>, ws: seq<Value>, bounded: seq<Value>)
    requires Sound(codec) && WithBounded(codec, vs).Success? && ws == WithBounded(codec, vs).value.GetOr(vs)
    requires bounded == Previews(codec, vs).value
    ensures |AllSizes(bounded)| == |AllSizes(Suffixes(vs))| == |AllSizes(Suffixes(ws))|
  {
    PreviewSizes(codec, Suffixes(vs), PreviewTarget(ItemPreviews(Suffixes(vs))));
    if WithBounded(codec, vs).value.Some? {
      var b := PassResult(codec, vs, ws);
    }
  }

  lemma {:induction false} SameFixed(vs: seq<Value>, ws: seq<Value>)
    requires |ws| == |vs| && forall i | 0 <= i < |vs| :: Prefix(ws[i]) == Prefix(vs[i])
    ensures FixedBytes(ws) == FixedBytes(vs) && FixedParts(ws) == FixedParts(vs)
  {
    if vs != [] { SameFixed(vs[1..], ws[1..]); }
  }
}
