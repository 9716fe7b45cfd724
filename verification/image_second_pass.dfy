/** When a second pass over a bounded request changes something, by targets that the request tells before the first. */
module ImageSecondPass {
  import opened Wrappers
  import opened ImageUrls
  import opened ImageBounding
  import opened ImageFixedPoint
  import opened ImageRequests

  // ---- previews that keep their reference ----

  /** A part with a reference that is no image above the limit. */
  predicate KeptPart(v: Value, limit: nat) { MarkedPart(v, REFERENCE) && Size(Field(v, "text").s) <= limit }

  predicate AnyKept(items: seq<Value>, limit: nat) {
    items != [] && (KeptPart(items[0], limit) || AnyKept(items[1..], limit))
  }

  predicate KeepsReference(v: Value, limit: nat) {
    IsTool(v) && Field(v, "output").List? && AnyKept(Field(v, "output").items, limit)
  }

  /** The previews in outputs that keep a reference when texts above the limit are compressed. */
  function KeptPreviews(v: Value, limit: nat): nat
    decreases v, 0
  {
    match v
    case List(items) => KeptItems(items, limit)
    case Dict(_, items) =>
      if !IsTool(v) then KeptItems(items, limit)
      else if KeepsReference(v, limit) && !Marked(v, ORIGINAL) then PreviewsIn(Field(v, "output").items) else 0
    case _ => 0
  }

  function KeptItems(vs: seq<Value>, limit: nat): nat
    decreases vs, 1
  {
    if vs == [] then 0 else KeptPreviews(vs[0], limit) + KeptItems(vs[1..], limit)
  }

  lemma {:induction false} KeptFewer(v: Value, limit: nat)
    requires Shallow(v)
    ensures KeptPreviews(v, limit) <= PreviewCount(v)
    decreases v, 0
  {
    match v
    case List(items) => KeptItemsFewer(items, limit);
    case Dict(_, items) =>
      if !IsTool(v) {
        KeptItemsFewer(items, limit);
      } else if KeepsReference(v, limit) {
        KeptIsMarked(Field(v, "output").items, limit);
      }
    case _ =>
  }

  lemma {:induction false} KeptItemsFewer(vs: seq<Value>, limit: nat)
    requires ShallowItems(vs)
    ensures KeptItems(vs, limit) <= ItemPreviews(vs)
    decreases vs, 1
  {
    if vs != [] {
      KeptFewer(vs[0], limit);
      KeptItemsFewer(vs[1..], limit);
    }
  }

  lemma {:induction false} KeptIsMarked(vs: seq<Value>, limit: nat)
    requires AnyKept(vs, limit)
    ensures AnyMarked(vs, REFERENCE)
  {
    if !KeptPart(vs[0], limit) { KeptIsMarked(vs[1..], limit); }
  }

  // ---- what bounding does to references ----

  /** A part keeps its reference exactly when its text is not above the target. */
  lemma BoundPart(codec: Codec, v: Value, target: nat, edge: nat, limit: nat, both: nat)
    requires Sound(codec) && BoundValue(codec, v, target, edge).Success?
    requires both == if limit <= target then limit else target
    ensures var w := BoundValue(codec, v, target, edge).value;
            && (MarkedPart(w, REFERENCE) <==> KeptPart(v, target))
            && (KeptPart(w, limit) <==> KeptPart(v, both))
  {
    var w := BoundValue(codec, v, target, edge).value;
    BoundKeeps(codec, v, target, edge);
    RelMarkedPart(v, w, REFERENCE);
    if MarkedPart(v, REFERENCE) {
      assert !IsTool(v) && !Marked(v, ORIGINAL);
      BoundGet(codec, v.keys, v.items, "type", target, edge);
      BoundGet(codec, v.keys, v.items, "text", target, edge);
      PartText(codec, Field(v, "type").s, Field(v, "text").s, target, edge);
    }
  }

  lemma PartText(codec: Codec, kind: string, text: string, target: nat, edge: nat)
    requires Sound(codec) && kind == INPUT_TEXT && Resized(codec, text, target, edge).Success?
    ensures Resized(codec, kind, target, edge) == Success(kind)
    ensures Size(text) <= target ==> Resized(codec, text, target, edge) == Success(text)
    ensures Size(text) > target ==> !Contains(Resized(codec, text, target, edge).value, REFERENCE)
  {
    NoImage(kind, IMAGE);
    if Size(text) > target {
      BoundText(codec, text, target, edge);
      NotContained(Resized(codec, text, target, edge).value, REFERENCE);
    }
  }

  lemma {:induction false} BoundParts(codec: Codec, vs: seq<Value>, target: nat, edge: nat, limit: nat, both: nat)
    requires Sound(codec) && BoundItems(codec, vs, target, edge).Success?
    requires both == if limit <= target then limit else target
    ensures var ws := BoundItems(codec, vs, target, edge).value;
            && (AnyMarked(ws, REFERENCE) <==> AnyKept(vs, target)) && (AnyKept(ws, limit) <==> AnyKept(vs, both))
  {
    if vs != [] {
      BoundPart(codec, vs[0], target, edge, limit, both);
      BoundParts(codec, vs[1..], target, edge, limit, both);
    }
  }

  /** After all images are bounded, the previews left are those whose output kept a reference. */
  lemma {:induction false} BoundCounts(codec: Codec, v: Value, target: nat, edge: nat)
    requires Sound(codec) && BoundValue(codec, v, target, edge).Success? && Shallow(v)
    ensures PreviewCount(BoundValue(codec, v, target, edge).value) == KeptPreviews(v, target)
    decreases v, 0
  {
    match v
    case Str(_) =>
    case Atom =>
    case List(items) => BoundItemCounts(codec, items, target, edge);
    case Dict(_, items) =>
      if IsTool(v) {
        BoundTool(codec, v, target, edge);
      } else {
        BoundKeeps(codec, v, target, edge);
        RelIsTool(v, BoundValue(codec, v, target, edge).value);
        BoundItemCounts(codec, items, target, edge);
      }
  }

  lemma BoundTool(codec: Codec, v: Value, target: nat, edge: nat)
    requires Sound(codec) && BoundValue(codec, v, target, edge).Success?
    requires v.Dict? && IsTool(v) && NoTools(v.items)
    ensures PreviewCount(BoundValue(codec, v, target, edge).value) == KeptPreviews(v, target)
  {
    var w := BoundValue(codec, v, target, edge).value;
    BoundKeeps(codec, v, target, edge);
    RelIsTool(v, w);
    OriginalBound(codec, v, target, edge);
    RelNoTools(v.items, w.items);
    NoToolsWithin(w.items, 0);
    if !Marked(v, ORIGINAL) {
      BoundGet(codec, v.keys, v.items, "output", target, edge);
      var output := Field(v, "output");
      if output.List? {
        BoundParts(codec, output.items, target, edge, target, target);
        BoundItemsKeep(codec, output.items, target, edge);
        RelPreviewsIn(output.items, Field(w, "output").items);
      } else {
        BoundKeeps(codec, output, target, edge);
      }
    }
  }

  lemma {:induction false} BoundItemCounts(codec: Codec, vs: seq<Value>, target: nat, edge: nat)
    requires Sound(codec) && BoundItems(codec, vs, target, edge).Success? && ShallowItems(vs)
    ensures ItemPreviews(BoundItems(codec, vs, target, edge).value) == KeptItems(vs, target)
    decreases vs, 1
  {
    if vs != [] {
      BoundCounts(codec, vs[0], target, edge);
      BoundItemCounts(codec, vs[1..], target, edge);
    }
  }

  /** Bounding previews leaves the references below its own target. */
  lemma {:induction false} PreviewCounts(codec: Codec, v: Value, target: nat, limit: nat, both: nat)
    requires Sound(codec) && BoundPreviews(codec, v, target).Success? && Shallow(v)
    requires both == if limit <= target then limit else target
    ensures KeptPreviews(BoundPreviews(codec, v, target).value, limit) == KeptPreviews(v, both)
    decreases v, 0
  {
    match v
    case Str(_) =>
    case Atom =>
    case List(items) => PreviewItemCounts(codec, items, target, limit, both);
    case Dict(_, items) =>
      if IsTool(v) {
        PreviewTool(codec, v, target, limit, both);
      } else {
        PreviewsRel(codec, v, target);
        RelIsTool(v, BoundPreviews(codec, v, target).value);
        PreviewItemCounts(codec, items, target, limit, both);
      }
  }

  lemma PreviewTool(codec: Codec, v: Value, target: nat, limit: nat, both: nat)
    requires Sound(codec) && BoundPreviews(codec, v, target).Success?
    requires v.Dict? && IsTool(v) && NoTools(v.items)
    requires both == if limit <= target then limit else target
    ensures KeptPreviews(BoundPreviews(codec, v, target).value, limit) == KeptPreviews(v, both)
  {
    var w := BoundPreviews(codec, v, target).value;
    PreviewsRel(codec, v, target);
    RelIsTool(v, w);
    OriginalKept(codec, v, target);
    RelMarked(v, w, REFERENCE);
    if Marked(v, REFERENCE) {
      if !Marked(v, ORIGINAL) {
        var output := Field(v, "output");
        BoundKeeps(codec, output, target, MANY_EDGE);
        PutGet(v.keys, v.items, "output", BoundValue(codec, output, target, MANY_EDGE).value);
        BoundParts(codec, output.items, target, MANY_EDGE, limit, both);
        RelPreviewsIn(output.items, Field(w, "output").items);
      }
    } else {
      if KeepsReference(v, both) { KeptIsMarked(Field(v, "output").items, both); }
      if KeepsReference(w, limit) { KeptIsMarked(Field(w, "output").items, limit); }
    }
  }

  lemma {:induction false} PreviewItemCounts(codec: Codec, vs: seq<Value>, target: nat, limit: nat, both: nat)
    requires Sound(codec) && PreviewItems(codec, vs, target).Success? && ShallowItems(vs)
    requires both == if limit <= target then limit else target
    ensures KeptItems(PreviewItems(codec, vs, target).value, limit) == KeptItems(vs, both)
    decreases vs, 1
  {
    if vs != [] {
      PreviewCounts(codec, vs[0], target, limit, both);
      PreviewItemCounts(codec, vs[1..], target, limit, both);
    }
  }

  // ---- the two targets ----

  /** The target of the first pass, which needs nothing but the request. */
  function FirstTarget(vs: seq<Value>): nat {
    var stats, count := PrefixStats(vs), |AllSizes(Suffixes(vs))|;
    if count == 0 then 0 else Target(count, ItemPreviews(Suffixes(vs)), stats.count, stats.bytes)
  }

  /** The previews of which a reference is left after the first pass. */
  function PreviewsLeft(vs: seq<Value>): nat {
    var preview := PreviewTarget(ItemPreviews(Suffixes(vs)));
    KeptItems(Suffixes(vs), if FirstTarget(vs) <= preview then FirstTarget(vs) else preview)
  }

  /** The target of the second pass, from the request as it was before the first. */
  function SecondTarget(vs: seq<Value>): nat {
    var stats, count := PrefixStats(vs), |AllSizes(Suffixes(vs))|;
    if count == 0 then 0 else Target(count, PreviewsLeft(vs), stats.count, stats.bytes)
  }

  lemma {:induction false} WithinMore(v: Value, target: nat, more: nat)
    requires Within(v, target) && target <= more
    ensures Within(v, more)
    decreases v, 0
  {
    match v
    case List(items) => WithinItemsMore(items, target, more);
    case Dict(_, items) => if !Marked(v, ORIGINAL) { WithinItemsMore(items, target, more); }
    case _ =>
  }

  lemma {:induction false} WithinItemsMore(vs: seq<Value>, target: nat, more: nat)
    requires WithinItems(vs, target) && target <= more
    ensures WithinItems(vs, more)
    decreases vs, 1
  {
    if vs != [] {
      WithinMore(vs[0], target, more);
      WithinItemsMore(vs[1..], target, more);
    }
  }

  lemma {:induction false} PreviewsWithinMore(v: Value, target: nat, more: nat)
    requires PreviewsWithin(v, target) && target <= more
    ensures PreviewsWithin(v, more)
    decreases v, 0
  {
    match v
    case List(items) => PreviewItemsWithinMore(items, target, more);
    case Dict(_, items) =>
      if !Marked(v, REFERENCE) {
        PreviewItemsWithinMore(items, target, more);
      } else if !Marked(v, ORIGINAL) {
        WithinMore(Field(v, "output"), target, more);
      }
    case _ =>
  }

  lemma {:induction false} PreviewItemsWithinMore(vs: seq<Value>, target: nat, more: nat)
    requires PreviewItemsWithin(vs, target) && target <= more
    ensures PreviewItemsWithin(vs, more)
    decreases vs, 1
  {
    if vs != [] {
      PreviewsWithinMore(vs[0], target, more);
      PreviewItemsWithinMore(vs[1..], target, more);
    }
  }

  /** The counts the second pass finds are those the request told before the first. */
  lemma SecondCounts(codec: Codec, vs: seq<Value>, ws: seq<Value>)
    requires Sound(codec) && ShallowItems(Suffixes(vs)) && WithBounded(codec, vs) == Success(Some(ws))
    ensures ItemPreviews(Suffixes(ws)) == PreviewsLeft(vs) <= ItemPreviews(Suffixes(vs))
    ensures PassTarget(ws, Suffixes(ws)) == SecondTarget(vs) && WithinItems(Suffixes(ws), FirstTarget(vs))
    ensures PreviewItemsWithin(Suffixes(ws), PreviewTarget(ItemPreviews(Suffixes(vs))))
  {
    hide Sound, BoundItems, PreviewItems, KeptItems, WithinItems, PreviewItemsWithin, Target, PreviewTarget;
    hide PrefixStats, AllSizes, Shallow, ShallowItems, WithBounded;
    var bounded := PassResult(codec, vs, ws);
    var suffixes := Suffixes(vs);
    var preview, target, edge := PreviewTarget(ItemPreviews(suffixes)), PassTarget(vs, bounded), PassEdge(vs, bounded);
    assert target == FirstTarget(vs);
    RelShallows(suffixes, bounded);
    BoundItemCounts(codec, bounded, target, edge);
    PreviewItemCounts(codec, suffixes, preview, target, if target <= preview then target else preview);
    KeptItemsFewer(suffixes, if target <= preview then target else preview);
    BoundItemsKeep(codec, bounded, target, edge);
    PreviewItemsKeep(codec, suffixes, preview);
    BoundItemsKeepPreviews(codec, bounded, preview, target, edge);
  }

  /**
   For a request without nested tool outputs a second pass changes nothing exactly when
   its target is not lower, or no image is between the two targets.  The second target
   is known from the request: it counts the previews whose reference is not lost.
   */
  lemma SecondPassExactly(codec: Codec, vs: seq<Value>, ws: seq<Value>)
    requires Sound(codec) && ShallowItems(Suffixes(vs)) && WithBounded(codec, vs) == Success(Some(ws))
    ensures WithBounded(codec, ws) == Success(None)
       <==> FirstTarget(vs) <= SecondTarget(vs) || WithinItems(Suffixes(ws), SecondTarget(vs))
  {
    SecondCounts(codec, vs, ws);
    SecondPassIdle(codec, vs, ws);
    var before, after := ItemPreviews(Suffixes(vs)), PreviewsLeft(vs);
    PreviewTargetFalls(after, before);
    PreviewItemsWithinMore(Suffixes(ws), PreviewTarget(before), PreviewTarget(after));
    if FirstTarget(vs) <= SecondTarget(vs) { WithinItemsMore(Suffixes(ws), FirstTarget(vs), SecondTarget(vs)); }
  }

  /** The second target is lower exactly when the last reference is lost and the budget is short. */
  lemma LowerTargetExactly(vs: seq<Value>)
    requires ShallowItems(Suffixes(vs))
    ensures var stats, count := PrefixStats(vs), |AllSizes(Suffixes(vs))|;
            SecondTarget(vs) < FirstTarget(vs) <==>
              && ItemPreviews(Suffixes(vs)) > 0 && PreviewsLeft(vs) == 0
              && stats.count + count > 1 && count > 0 && Max(0, MANY_TOTAL - stats.bytes) < count * PREVIEW_MIN
  {
    var stats, count := PrefixStats(vs), |AllSizes(Suffixes(vs))|;
    var preview := PreviewTarget(ItemPreviews(Suffixes(vs)));
    KeptItemsFewer(Suffixes(vs), if FirstTarget(vs) <= preview then FirstTarget(vs) else preview);
    if count > 0 {
      TargetByPreviews(count, ItemPreviews(Suffixes(vs)), PreviewsLeft(vs), stats.count, stats.bytes);
    }
  }

  lemma TargetByPreviews(count: nat, before: nat, after: nat, prefixCount: nat, prefixBytes: nat)
    requires count > 0 && after <= before
    ensures Target(count, after, prefixCount, prefixBytes) < Target(count, before, prefixCount, prefixBytes)
       <==> before > 0 && after == 0 && prefixCount + count > 1
            && Max(0, MANY_TOTAL - prefixBytes) < count * PREVIEW_MIN
  {
    var rest := Max(0, MANY_TOTAL - prefixBytes);
    if rest < count * PREVIEW_MIN {
      if rest / count >= PREVIEW_MIN { Shared(rest, count); Scaled(count, PREVIEW_MIN, rest / count); }
    } else {
      AtMost(rest, count, PREVIEW_MIN);
    }
  }
}
