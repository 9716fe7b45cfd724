/**
 Streams of response events made up from a finished response, and a client that
 rebuilds the response from them, refusing whatever does not fit.
 */
module ResponseEvents {
  import opened Wrappers

  datatype Part = Part(text: Option<string>, rest: string) | NotAnObject

  datatype Item = Item(kind: string, id: string, status: string, content: seq<Part>, rest: string)

  /** An entry of an output list; only objects get events. */
  datatype Entry = Object(item: Item) | Other

  datatype Phase = InProgress | Searching | Completed

  datatype Event =
    | ResponseCreated
    | ItemAdded(index: nat, item: Item)
    | PartAdded(index: nat, id: string, part: Part)
    | TextDelta(index: nat, id: string, delta: string)
    | TextDone(index: nat, id: string, text: string)
    | PartDone(index: nat, id: string, part: Part)
    | SearchCall(phase: Phase, index: nat, id: string, number: nat)
    | ItemDone(index: nat, item: Item)
    | ResponseCompleted(output: seq<Entry>)

  // ---- the client ----

  /** What a client knows: items under construction, finished items, the last sequence number. */
  datatype Client = Waiting | Reading(open: map<nat, Item>, closed: map<nat, Item>, number: nat) | Finished(items: seq<Item>)

  function TextOf(p: Part): string { if p.Part? then p.text.GetOr("") else "" }

  function LastText(i: Item): string { if i.content == [] then "" else TextOf(i.content[|i.content| - 1]) }

  function WithLast(i: Item, p: Part): Item
    requires i.content != []
  {
    i.(content := i.content[|i.content| - 1 := p])
  }

  /** The output as a list of items, if it is one. */
  predicate Matches(output: seq<Entry>, closed: map<nat, Item>) {
    && (forall k | k in closed :: k < |output|)
    && forall k: nat | k < |output| :: k in closed && output[k] == Object(closed[k])
  }

  function ItemsOf(output: seq<Entry>): seq<Item> {
    if output == [] then []
    else
      var front := ItemsOf(output[..|output| - 1]);
      if output[|output| - 1].Object? then front + [output[|output| - 1].item] else front
  }

  /** One event: created first, each index opened once and closed once, texts as announced, nothing behind the end. */
  function Feed(c: Client, e: Event): Option<Client> {
    match c
    case Waiting => if e == ResponseCreated then Some(Reading(map[], map[], 0)) else None
    case Finished(_) => None
    case Reading(open, closed, number) =>
      match e
      case ResponseCreated => None
      case ItemAdded(i, item) =>
        if i in open || i in closed then None else Some(c.(open := open[i := item]))
      case ResponseCompleted(output) =>
        if open == map[] && Matches(output, closed) then Some(Finished(ItemsOf(output))) else None
      case _ =>
        if e.index !in open then None else Advance(c, e, open[e.index])
  }

  /** An event on an open item. */
  function Advance(c: Client, e: Event, item: Item): Option<Client>
    requires c.Reading? && !e.ResponseCreated? && !e.ResponseCompleted? && !e.ItemAdded?
  {
    if e.ItemDone? then
      if e.item.id == item.id && e.item.kind == item.kind && (item.kind == "message" ==> e.item.content == item.content)
      then Some(c.(open := c.open - {e.index}, closed := c.closed[e.index := e.item])) else None
    else if e.id != item.id then None
    else if e.PartAdded? then Some(c.(open := c.open[e.index := item.(content := item.content + [e.part])]))
    else if e.SearchCall? then if e.number > c.number then Some(c.(number := e.number)) else None
    else if item.content == [] then None
    else if e.TextDelta? then
      Some(c.(open := c.open[e.index := WithLast(item, Part(Some(LastText(item) + e.delta), ""))]))
    else if e.TextDone? then if LastText(item) == e.text then Some(c) else None
    else if LastText(item) == TextOf(e.part) then Some(c.(open := c.open[e.index := WithLast(item, e.part)])) else None
  }

  function FeedAll(c: Client, es: seq<Event>): Option<Client> {
    if es == [] then Some(c)
    else
      var before := FeedAll(c, es[..|es| - 1]);
      if before.None? then None else Feed(before.value, es[|es| - 1])
  }

  lemma {:induction false} FeedConcat(c: Client, a: seq<Event>, b: seq<Event>)
    ensures FeedAll(c, a + b) ==
            var mid := FeedAll(c, a); if mid.None? then None else FeedAll(mid.value, b)
  {
    if b == [] {
      assert a + b == a;
    } else {
      assert (a + b)[..|a + b| - 1] == a + b[..|b| - 1];
      FeedConcat(c, a, b[..|b| - 1]);
    }
  }

  // ---- the events of one item ----

  const PLACEHOLDER: Part := Part(Some(""), "")

  /** The one part that is streamed. */
  function Streamed(item: Item): Part {
    if item.content != [] && item.content[0].Part? then item.content[0] else PLACEHOLDER
  }

  /** A message the stream shows completely: one part, an object. */
  predicate Whole(item: Item) {
    item.kind == "message" ==> |item.content| == 1 && item.content[0].Part?
  }

  /** An item as it is announced: not completed yet, and a message without its text. */
  function AddedItem(item: Item): (r: Item)
    ensures r.status != "completed" && r.id == item.id && r.kind == item.kind && r.rest == item.rest
    ensures r.content == if item.kind == "message" then [] else item.content
    ensures r.status == if item.kind == "message" || item.status == "completed" then "in_progress" else item.status
  {
    if item.kind == "message" then item.(status := "in_progress", content := [])
    else if item.status == "completed" then item.(status := "in_progress") else item
  }

  function TextEvents(id: string, part: Part, index: nat): seq<Event> {
    [PartAdded(index, id, PLACEHOLDER)]
    + (if TextOf(part) != "" then [TextDelta(index, id, TextOf(part))] else [])
    + [TextDone(index, id, TextOf(part))] + [PartDone(index, id, part)]
  }

  /** Opening an item: added, and for a message its text as announced. */
  function Opening(item: Item, index: nat): seq<Event> {
    [ItemAdded(index, AddedItem(item))]
    + if item.kind == "message" then TextEvents(item.id, Streamed(item), index) else []
  }

  method ItemEvents(item: Item, index: nat) returns (events: seq<Event>)
    ensures events == Opening(item, index) + [ItemDone(index, item)]
  {
    events := [ItemAdded(index, AddedItem(item))];
    if item.kind == "message" {
      var part := Streamed(item);
      events := events + [PartAdded(index, item.id, PLACEHOLDER)];
      if TextOf(part) != "" {
        events := events + [TextDelta(index, item.id, TextOf(part))];
      }
      events := events + [TextDone(index, item.id, TextOf(part))] + [PartDone(index, item.id, part)];
    }
    events := events + [ItemDone(index, item)];
  }

  /** What the client has open once an item's text has been streamed. */
  function Opened(item: Item): Item {
    if item.kind == "message" then AddedItem(item).(content := [Streamed(item)]) else AddedItem(item)
  }

  lemma FeedOne(c: Client, es: seq<Event>, e: Event)
    ensures FeedAll(c, es + [e]) == var mid := FeedAll(c, es); if mid.None? then None else Feed(mid.value, e)
  {
    assert (es + [e])[..|es|] == es;
  }

  lemma FeedFirst(c: Client, e: Event)
    ensures FeedAll(c, [e]) == Feed(c, e)
  {
    assert [e][..0] == [];
  }

  /** Whether or not there is a delta, the placeholder has the text then. */
  lemma TextStarted(c: Client, open: Item, text: string, index: nat)
    requires c.Reading? && index in c.open && c.open[index] == open && open.content == []
    ensures var es := [PartAdded(index, open.id, PLACEHOLDER)]
                      + if text != "" then [TextDelta(index, open.id, text)] else [];
            FeedAll(c, es) == Some(c.(open := c.open[index := open.(content := [Part(Some(text), "")])]))
  {
    var e0, e1 := PartAdded(index, open.id, PLACEHOLDER), TextDelta(index, open.id, text);
    var i1 := open.(content := [PLACEHOLDER]);
    var c1 := c.(open := c.open[index := i1]);
    FeedFirst(c, e0);
    assert open.content + [PLACEHOLDER] == [PLACEHOLDER];
    assert Feed(c, e0) == Some(c1);
    if text != "" {
      FeedOne(c, [e0], e1);
      assert LastText(i1) + text == text;
      var i2 := WithLast(i1, Part(Some(text), ""));
      assert i2.content == [Part(Some(text), "")];
      assert c1.open[index := i2] == c.open[index := open.(content := [Part(Some(text), "")])];
    } else {
      assert [e0] + [] == [e0];
    }
  }

  /** The text events leave the streamed part. */
  lemma TextStreamed(c: Client, open: Item, part: Part, index: nat)
    requires c.Reading? && index in c.open && c.open[index] == open && open.content == []
    requires part.Part?
    ensures FeedAll(c, TextEvents(open.id, part, index))
            == Some(c.(open := c.open[index := open.(content := [part])]))
  {
    var text := TextOf(part);
    TextStarted(c, open, text, index);
    var start := [PartAdded(index, open.id, PLACEHOLDER)] + if text != "" then [TextDelta(index, open.id, text)] else [];
    FeedOne(c, start, TextDone(index, open.id, text));
    FeedOne(c, start + [TextDone(index, open.id, text)], PartDone(index, open.id, part));
    var typed, done := open.(content := [Part(Some(text), "")]), open.(content := [part]);
    TextEnded(c.(open := c.open[index := typed]), open, part, index);
    assert c.open[index := typed][index := done] == c.open[index := done];
  }

  lemma TextEnded(c: Client, open: Item, part: Part, index: nat)
    requires c.Reading? && index in c.open && c.open[index] == open.(content := [Part(Some(TextOf(part)), "")])
    ensures Feed(c, TextDone(index, open.id, TextOf(part))) == Some(c)
    ensures Feed(c, PartDone(index, open.id, part)) == Some(c.(open := c.open[index := open.(content := [part])]))
  {
    assert WithLast(c.open[index], part).content == [part];
  }

  /** Opening an index the client does not know yet leaves the item open there; a known one is refused. */
  lemma OpeningFed(c: Client, item: Item, index: nat)
    requires c.Reading?
    ensures FeedAll(c, Opening(item, index)) ==
            if index in c.open || index in c.closed then None
            else Some(c.(open := c.open[index := Opened(item)]))
  {
    var first := ItemAdded(index, AddedItem(item));
    FeedFirst(c, first);
    if item.kind != "message" {
      assert Opening(item, index) == [first];
    } else {
      var rest := TextEvents(item.id, Streamed(item), index);
      assert Opening(item, index) == [first] + rest;
      FeedConcat(c, [first], rest);
      if index !in c.open && index !in c.closed {
        var c1 := c.(open := c.open[index := AddedItem(item)]);
        TextStreamed(c1, AddedItem(item), Streamed(item), index);
        assert c1.open[index := Opened(item)] == c.open[index := Opened(item)];
      }
    }
  }

  /** A client ends up with the item exactly when it is whole and the index is new. */
  lemma ItemFed(c: Client, item: Item, index: nat)
    requires c.Reading?
    ensures FeedAll(c, Opening(item, index) + [ItemDone(index, item)]) ==
            if index !in c.open && index !in c.closed && Whole(item)
            then Some(c.(closed := c.closed[index := item])) else None
  {
    OpeningFed(c, item, index);
    FeedOne(c, Opening(item, index), ItemDone(index, item));
    if index !in c.open && index !in c.closed {
      var mid := c.(open := c.open[index := Opened(item)]);
      assert mid.open - {index} == c.open;
      WholeStreamed(item);
    }
  }

  lemma WholeStreamed(item: Item)
    ensures item.kind == "message" ==> (Whole(item) <==> item.content == [Streamed(item)])
  {
    if |item.content| == 1 { assert item.content == [item.content[0]]; }
  }

  // ---- a whole response ----

  /** The events of the entries before index k, the items they hold being whole. */
  ghost predicate Fed(c: Client, output: seq<Entry>, k: nat)
    requires k <= |output|
  {
    && c.Reading? && c.open == map[] && c.number == 0
    && (forall i | i in c.closed :: i < k)
    && forall i: nat | i < k :: if output[i].Object? then i in c.closed && c.closed[i] == output[i].item else i !in c.closed
  }

  predicate Rebuildable(output: seq<Entry>, k: nat)
    requires k <= |output|
  {
    forall i | 0 <= i < k :: output[i].Object? ==> Whole(output[i].item)
  }

  /**
   The made-up stream of a response.  A client accepts it exactly when the output
   holds objects only and each message one text part, and has the output then.
   */
  method FacadeStream(output: seq<Entry>) returns (events: seq<Event>)
    ensures FeedAll(Waiting, events) ==
            if Rebuildable(output, |output|) && (forall i | 0 <= i < |output| :: output[i].Object?)
            then Some(Finished(ItemsOf(output))) else None
  {
    hide FeedAll, Whole;
    events := [ResponseCreated];
    FeedFirst(Waiting, ResponseCreated);
    for k := 0 to |output|
      invariant Rebuildable(output, k) <==> FeedAll(Waiting, events).Some?
      invariant FeedAll(Waiting, events).Some? ==> Fed(FeedAll(Waiting, events).value, output, k)
    {
      ghost var before := FeedAll(Waiting, events);
      if output[k].Object? {
        var more := ItemEvents(output[k].item, k);
        FeedConcat(Waiting, events, more);
        if before.Some? { ItemFed(before.value, output[k].item, k); }
        events := events + more;
      }
    }
    FeedOne(Waiting, events, ResponseCompleted(output));
    events := events + [ResponseCompleted(output)];
  }
}
