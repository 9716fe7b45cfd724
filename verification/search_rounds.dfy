/**
 Rounds of concurrent web searches turned into one stream of events.  The actions of
 a round are announced in order and finish in any order.
 */
module SearchRounds {
  import opened Wrappers
  import opened PythonText
  import opened ResponseEvents

  /** A search action: the body of its announced item, if it has one, and what running it gives. */
  datatype Action = Action(
    id: string,
    announced: Option<string>,
    section: string,
    urls: seq<string>,
    performed: string,
    done: Option<string>)

  function AnnouncedItem(a: Action): Item { Item("web_search_call", a.id, "in_progress", [], a.announced.GetOr("")) }

  function DoneItem(a: Action): Item { Item("web_search_call", a.id, "completed", [], a.done.GetOr("")) }

  // ---- what a round collects ----

  datatype Round = Round(
    sections: seq<string>,
    urls: seq<string>,
    urlsByAction: seq<seq<string>>,
    completed: seq<string>,
    items: seq<Item>)

  /** The actions that get an output index. */
  function Slots(actions: seq<Action>): seq<Action> {
    if actions == [] then []
    else
      var front, last := Slots(actions[..|actions| - 1]), actions[|actions| - 1];
      if last.announced.Some? then front + [last] else front
  }

  function AddNew(urls: seq<string>, more: seq<string>): seq<string> {
    if more == [] then urls
    else
      var front, last := AddNew(urls, more[..|more| - 1]), more[|more| - 1];
      if last in front then front else front + [last]
  }

  /** What the finished actions give, in the order in which they were announced. */
  function Gathered(slots: seq<Action>): Round {
    if slots == [] then Round([], [], [], [], [])
    else
      var front, last := Gathered(slots[..|slots| - 1]), slots[|slots| - 1];
      if last.done.None? then front
      else
        Round(front.sections + [last.section], AddNew(front.urls, last.urls), front.urlsByAction + [last.urls],
              front.completed + [last.performed], front.items + [DoneItem(last)])
  }

  function Message(sections: seq<string>): string {
    if sections == [] then ""
    else
      var front, last := Message(sections[..|sections| - 1]), sections[|sections| - 1];
      if Strip(last) == "" then front else if front == "" then last else front + "\n\n" + last
  }

  /** What all rounds together have collected. */
  datatype Collected = Collected(
    sections: seq<string>,
    urls: seq<string>,
    urlsByAction: seq<seq<string>>,
    completed: seq<string>,
    items: seq<Item>)

  function After(c: Collected, r: Round): Collected {
    Collected(c.sections + [Message(r.sections)], AddNew(c.urls, r.urls), c.urlsByAction + r.urlsByAction,
              c.completed + r.completed, c.items + r.items)
  }

  /** The actions asked for in a round, by what was collected before it. */
  type Planner = (nat, Collected) -> seq<Action>

  function CollectedBy(plan: Planner, round: nat, maxRounds: nat, c: Collected): Collected
    decreases maxRounds + 1 - round
  {
    if round > maxRounds || plan(round, c) == [] then c
    else CollectedBy(plan, round + 1, maxRounds, After(c, Gathered(Slots(plan(round, c)))))
  }

  function SlotsBy(plan: Planner, round: nat, maxRounds: nat, c: Collected): seq<Action>
    decreases maxRounds + 1 - round
  {
    if round > maxRounds || plan(round, c) == [] then []
    else
      var slots := Slots(plan(round, c));
      slots + SlotsBy(plan, round + 1, maxRounds, After(c, Gathered(slots)))
  }

  predicate AllDone(slots: seq<Action>) { forall i | 0 <= i < |slots| :: slots[i].done.Some? }

  // ---- what the client sees ----

  predicate Closing(slots: seq<Action>, finished: set<nat>, i: nat)
    requires i < |slots|
  {
    i in finished && slots[i].done.Some?
  }

  /** The client has the announced items open, and those closed whose action finished with an item. */
  ghost predicate Seen(c: Client, slots: seq<Action>, finished: set<nat>, number: nat) {
    && c.Reading? && c.number == number
    && (forall i: nat :: i in c.open <==> i < |slots| && !Closing(slots, finished, i))
    && (forall i: nat :: i in c.closed <==> i < |slots| && Closing(slots, finished, i))
    && (forall i: nat | i in c.open :: c.open[i] == AnnouncedItem(slots[i]))
    && forall i: nat | i in c.closed :: c.closed[i] == DoneItem(slots[i])
  }

  function AnnounceEvents(a: Action, index: nat, number: nat): seq<Event> {
    [ItemAdded(index, AnnouncedItem(a))] + [SearchCall(InProgress, index, a.id, number + 1)]
    + [SearchCall(Searching, index, a.id, number + 2)]
  }

  lemma AnnounceFed(c: Client, slots: seq<Action>, finished: set<nat>, number: nat, a: Action)
    requires Seen(c, slots, finished, number) && |slots| !in finished
    ensures var next := FeedAll(c, AnnounceEvents(a, |slots|, number));
            next.Some? && Seen(next.value, slots + [a], finished, number + 2)
  {
    var index := |slots|;
    var e0, e1, e2 := ItemAdded(index, AnnouncedItem(a)), SearchCall(InProgress, index, a.id, number + 1),
                      SearchCall(Searching, index, a.id, number + 2);
    FeedFirst(c, e0);
    FeedOne(c, [e0], e1);
    FeedOne(c, [e0] + [e1], e2);
    assert index !in c.open && index !in c.closed;
    var shown := c.open[index := AnnouncedItem(a)];
    assert Feed(c, e0) == Some(c.(open := shown));
    assert Feed(c.(open := shown), e1) == Some(c.(open := shown, number := number + 1));
    assert Feed(c.(open := shown, number := number + 1), e2) == Some(c.(open := shown, number := number + 2));
    AnnounceSeen(c, c.(open := shown, number := number + 2), slots, finished, number, a);
  }

  lemma AnnounceSeen(c: Client, d: Client, slots: seq<Action>, finished: set<nat>, number: nat, a: Action)
    requires Seen(c, slots, finished, number) && |slots| !in finished
    requires d == c.(open := c.open[|slots| := AnnouncedItem(a)], number := number + 2)
    ensures Seen(d, slots + [a], finished, number + 2)
  {
    var more := slots + [a];
    forall i: nat | i < |more| ensures Closing(more, finished, i) <==> i < |slots| && Closing(slots, finished, i) { }
  }

  function FinishEvents(a: Action, index: nat, number: nat): seq<Event> {
    if a.done.None? then []
    else [SearchCall(Completed, index, a.id, number + 1)] + [ItemDone(index, DoneItem(a))]
  }

  function NumberAfter(a: Action, number: nat): nat { if a.done.Some? then number + 1 else number }

  lemma FinishFed(c: Client, slots: seq<Action>, finished: set<nat>, number: nat, index: nat)
    requires Seen(c, slots, finished, number) && index < |slots| && index !in finished
    ensures var next := FeedAll(c, FinishEvents(slots[index], index, number));
            next.Some? && Seen(next.value, slots, finished + {index}, NumberAfter(slots[index], number))
  {
    var a := slots[index];
    assert !Closing(slots, finished, index);
    forall i: nat | i < |slots| && i != index
      ensures Closing(slots, finished + {index}, i) <==> Closing(slots, finished, i) { }
    if a.done.Some? {
      var e0, e1 := SearchCall(Completed, index, a.id, number + 1), ItemDone(index, DoneItem(a));
      FeedFirst(c, e0);
      FeedOne(c, [e0], e1);
      assert Feed(c, e0) == Some(c.(number := number + 1));
      assert Feed(c.(number := number + 1), e1)
             == Some(c.(open := c.open - {index}, closed := c.closed[index := DoneItem(a)], number := number + 1));
      assert Closing(slots, finished + {index}, index);
    }
  }

  // ---- the emitter ----

  ghost predicate Shown(events: seq<Event>, slots: seq<Action>, finished: set<nat>, number: nat) {
    exists c: Client :: FeedAll(Waiting, events) == Some(c) && Seen(c, slots, finished, number)
  }

  lemma AnnounceShown(events: seq<Event>, slots: seq<Action>, finished: set<nat>, number: nat, a: Action)
    requires Shown(events, slots, finished, number) && |slots| !in finished
    ensures Shown(events + AnnounceEvents(a, |slots|, number), slots + [a], finished, number + 2)
  {
    var c: Client :| FeedAll(Waiting, events) == Some(c) && Seen(c, slots, finished, number);
    AnnounceFed(c, slots, finished, number, a);
    FeedConcat(Waiting, events, AnnounceEvents(a, |slots|, number));
  }

  lemma FinishShown(events: seq<Event>, slots: seq<Action>, finished: set<nat>, number: nat, index: nat)
    requires Shown(events, slots, finished, number) && index < |slots| && index !in finished
    ensures var a := slots[index];
            Shown(events + FinishEvents(a, index, number), slots, finished + {index}, NumberAfter(a, number))
  {
    var c: Client :| FeedAll(Waiting, events) == Some(c) && Seen(c, slots, finished, number);
    FinishFed(c, slots, finished, number, index);
    FeedConcat(Waiting, events, FinishEvents(slots[index], index, number));
  }

  lemma SlotsNext(actions: seq<Action>, i: nat)
    requires i < |actions|
    ensures Slots(actions[..i + 1]) == Slots(actions[..i]) + if actions[i].announced.Some? then [actions[i]] else []
  {
    assert actions[..i + 1][..i] == actions[..i];
  }

  /** Actions in order with the output indices from start on. */
  predicate Indexed(roundItems: seq<(nat, Action)>, start: nat, slots: seq<Action>) {
    |roundItems| == |slots| && forall k | 0 <= k < |slots| :: roundItems[k] == (start + k, slots[k])
  }

  lemma IndexedLast(roundItems: seq<(nat, Action)>, start: nat, slots: seq<Action>, a: Action)
    requires Indexed(roundItems, start, slots)
    ensures Indexed(roundItems + [(start + |slots|, a)], start, slots + [a])
  {
  }

  class Emitter {
    var events: seq<Event>
    var sequenceNumber: nat
    var nextOutputIndex: nat
    /** All actions announced so far, and those of them that have finished. */
    ghost var announced: seq<Action>
    ghost var finished: set<nat>

    constructor ()
      ensures Valid() && announced == [] && finished == {}
    {
      events, sequenceNumber, nextOutputIndex := [ResponseCreated], 0, 0;
      announced, finished := [], {};
      FeedFirst(Waiting, ResponseCreated);
    }

    ghost predicate Valid()
      reads this
    {
      && nextOutputIndex == |announced|
      && (forall i | i in finished :: i < |announced|)
      && Shown(events, announced, finished, sequenceNumber)
    }

    method Announce(a: Action)
      requires Valid()
      modifies this
      ensures Valid() && announced == old(announced) + [a] && finished == old(finished)
      ensures nextOutputIndex == old(nextOutputIndex) + 1
    {
      hide Shown, AnnouncedItem;
      AnnounceShown(events, announced, finished, sequenceNumber, a);
      ghost var more := AnnounceEvents(a, nextOutputIndex, sequenceNumber);
      Grouped(events, more[0], more[1], more[2]);
      var outputIndex := nextOutputIndex;
      nextOutputIndex := nextOutputIndex + 1;
      events := events + [ItemAdded(outputIndex, AnnouncedItem(a))];
      sequenceNumber := sequenceNumber + 1;
      events := events + [SearchCall(InProgress, outputIndex, a.id, sequenceNumber)];
      sequenceNumber := sequenceNumber + 1;
      events := events + [SearchCall(Searching, outputIndex, a.id, sequenceNumber)];
      announced := announced + [a];
    }

    /** The action at an index finishes without an item: nothing is said about it. */
    method Skip(outputIndex: nat, a: Action)
      requires Valid() && outputIndex < |announced| && announced[outputIndex] == a && outputIndex !in finished
      requires a.done.None?
      modifies this`finished
      ensures Valid() && finished == old(finished) + {outputIndex}
    {
      FinishShown(events, announced, finished, sequenceNumber, outputIndex);
      assert events + [] == events;
      finished := finished + {outputIndex};
    }

    /** The action at an index finishes with an item. */
    method Complete(outputIndex: nat, a: Action)
      requires Valid() && outputIndex < |announced| && announced[outputIndex] == a && outputIndex !in finished
      requires a.done.Some?
      modifies this`finished, this`events, this`sequenceNumber
      ensures Valid() && finished == old(finished) + {outputIndex}
    {
      hide Shown, DoneItem;
      FinishShown(events, announced, finished, sequenceNumber, outputIndex);
      sequenceNumber := sequenceNumber + 1;
      events := events + ([SearchCall(Completed, outputIndex, a.id, sequenceNumber)]
                          + [ItemDone(outputIndex, DoneItem(a))]);
      finished := finished + {outputIndex};
    }

    /**
     One round.  Whatever order the actions finish in, what is collected is a
     function of the actions alone, and the client has seen every one of them.
     */
    method RunRound(actions: seq<Action>) returns (r: Round)
      requires Valid() && finished == Below(nextOutputIndex)
      modifies this
      ensures Valid() && finished == Below(nextOutputIndex)
      ensures announced == old(announced) + Slots(actions)
      ensures r == Gathered(Slots(actions))
    {
      ghost var start, slots := announced, Slots(actions);
      var roundItems := AnnounceAll(actions);
      var roundResults := FinishAll(roundItems, start, slots);
      r := Gather(roundResults, slots);
    }

    /** The actions of a round with their output indices. */
    method AnnounceAll(actions: seq<Action>) returns (roundItems: seq<(nat, Action)>)
      requires Valid()
      modifies this
      ensures Valid() && finished == old(finished) && announced == old(announced) + Slots(actions)
      ensures Indexed(roundItems, |old(announced)|, Slots(actions))
    {
      ghost var start, done := announced, finished;
      roundItems := [];
      for i := 0 to |actions|
        invariant Valid() && finished == done && announced == start + Slots(actions[..i])
        invariant Indexed(roundItems, |start|, Slots(actions[..i]))
      {
        SlotsNext(actions, i);
        if actions[i].announced.Some? {
          roundItems := AnnounceNext(actions[i], roundItems, start, Slots(actions[..i]));
        }
      }
      assert actions[..|actions|] == actions;
    }

    method AnnounceNext(a: Action, roundItems: seq<(nat, Action)>, ghost start: seq<Action>, ghost slots: seq<Action>)
        returns (more: seq<(nat, Action)>)
      requires Valid() && announced == start + slots && Indexed(roundItems, |start|, slots)
      modifies this
      ensures Valid() && finished == old(finished) && announced == start + (slots + [a])
      ensures Indexed(more, |start|, slots + [a])
    {
      IndexedLast(roundItems, |start|, slots, a);
      more := roundItems + [(nextOutputIndex, a)];
      Announce(a);
    }

    method FinishOne(outputIndex: nat, a: Action)
      requires Valid() && outputIndex < |announced| && announced[outputIndex] == a && outputIndex !in finished
      modifies this`finished, this`events, this`sequenceNumber
      ensures Valid() && finished == old(finished) + {outputIndex}
    {
      if a.done.Some? {
        Complete(outputIndex, a);
      } else {
        Skip(outputIndex, a);
      }
    }

    /** Wait for the actions of a round in any order; each result goes to its own place. */
    method FinishAll(roundItems: seq<(nat, Action)>, ghost start: seq<Action>, ghost slots: seq<Action>)
        returns (results: seq<Option<Action>>)
      requires Valid() && announced == start + slots && finished == Below(|start|)
      requires Indexed(roundItems, |start|, slots)
      modifies this`finished, this`events, this`sequenceNumber
      ensures Valid() && finished == Below(nextOutputIndex)
      ensures Stored(results, |start|, slots, {})
    {
      results := NoResults(|roundItems|);
      var running := Running(roundItems);
      ghost var end := |announced|;
      RunningIs(roundItems, slots, |start|);
      while running != {}
        invariant Valid() && Unfinished(running, finished, |start|, end)
        invariant Stored(results, |start|, slots, running)
        decreases |running|
      {
        var outputIndex :| outputIndex in running;
        TakeOne(running, finished, |start|, end, outputIndex);
        var index := PlaceOf(outputIndex, roundItems, announced, start, slots);
        var action := roundItems[index].1;
        StoreOne(results, |start|, slots, running, index);
        FinishOne(outputIndex, action);
        results := results[index := Some(action)];
        running := running - {outputIndex};
      }
    }
  }

  /** The output indices of the actions of a round. */
  function Running(roundItems: seq<(nat, Action)>): set<nat> {
    if roundItems == [] then {} else Running(roundItems[..|roundItems| - 1]) + {roundItems[|roundItems| - 1].0}
  }

  /** Some actions of the round are running, and all others have finished. */
  predicate Unfinished(running: set<nat>, finished: set<nat>, start: nat, end: nat) {
    running <= Below(end) - Below(start) && finished == Below(end) - running
  }

  /** What the actions that no longer run have given is in its place. */
  predicate Stored(results: seq<Option<Action>>, start: nat, slots: seq<Action>, running: set<nat>) {
    |results| == |slots| && forall k | 0 <= k < |slots| :: start + k !in running ==> results[k] == Some(slots[k])
  }

  lemma StoreOne(results: seq<Option<Action>>, start: nat, slots: seq<Action>, running: set<nat>, index: nat)
    requires Stored(results, start, slots, running) && index < |slots|
    ensures Stored(results[index := Some(slots[index])], start, slots, running - {start + index})
  {
  }

  lemma {:induction false} RunningIs(roundItems: seq<(nat, Action)>, slots: seq<Action>, start: nat)
    requires Indexed(roundItems, start, slots)
    ensures Unfinished(Running(roundItems), Below(start), start, start + |slots|)
    ensures Stored(NoResults(|slots|), start, slots, Running(roundItems))
  {
    var n := |slots|;
    if n > 0 {
      RunningIs(roundItems[..n - 1], slots[..n - 1], start);
      BelowIs(start + n - 1);
      BelowIs(start);
      BelowIs(start + n);
    } else {
      assert start + n == start;
    }
  }

  lemma TakeOne(running: set<nat>, finished: set<nat>, start: nat, end: nat, i: nat)
    requires Unfinished(running, finished, start, end) && i in running
    ensures i !in finished && start <= i < end && |running - {i}| < |running|
    ensures Unfinished(running - {i}, finished + {i}, start, end)
  {
    BelowIs(start);
    BelowIs(end);
  }

  /** The slot of the action at an output index. */
  method PlaceOf(outputIndex: nat, roundItems: seq<(nat, Action)>, ghost all: seq<Action>, ghost start: seq<Action>,
                 ghost slots: seq<Action>) returns (index: nat)
    requires all == start + slots && |start| <= outputIndex < |all| && Indexed(roundItems, |start|, slots)
    ensures index < |slots| && outputIndex == |start| + index && all[outputIndex] == slots[index] == roundItems[index].1
  {
    index := outputIndex - roundItems[0].0;
  }

  function Below(n: nat): set<nat> { if n == 0 then {} else Below(n - 1) + {n - 1} }

  lemma {:induction false} BelowIs(n: nat)
    ensures forall i: nat :: i in Below(n) <==> i < n
  {
    if n > 0 { BelowIs(n - 1); }
  }

  lemma Grouped(es: seq<Event>, a: Event, b: Event, c: Event)
    ensures es + [a] + [b] + [c] == es + ([a] + [b] + [c])
  {
  }

  function NoResults(n: nat): (r: seq<Option<Action>>)
    ensures |r| == n
  {
    seq(n, _ => None)
  }

  method AppendNew(urls: seq<string>, more: seq<string>) returns (all: seq<string>)
    ensures all == AddNew(urls, more)
  {
    all := urls;
    for i := 0 to |more|
      invariant all == AddNew(urls, more[..i])
    {
      assert more[..i + 1][..i] == more[..i];
      if more[i] !in all {
        all := all + [more[i]];
      }
    }
    assert more[..|more|] == more;
  }

  method Gather(results: seq<Option<Action>>, ghost slots: seq<Action>) returns (r: Round)
    requires |results| == |slots| && forall k | 0 <= k < |slots| :: results[k] == Some(slots[k])
    ensures r == Gathered(slots)
  {
    r := Round([], [], [], [], []);
    for i := 0 to |results|
      invariant r == Gathered(slots[..i])
    {
      assert slots[..i + 1][..i] == slots[..i];
      var a := results[i].value;
      if a.done.Some? {
        var urls := AppendNew(r.urls, a.urls);
        r := Round(r.sections + [a.section], urls, r.urlsByAction + [a.urls], r.completed + [a.performed],
                   r.items + [DoneItem(a)]);
      }
    }
    assert slots[..|slots|] == slots;
  }

  // ---- all rounds ----

  /**
   Up to maxRounds rounds.  Whatever the order in which actions finish, the same
   is collected in the end.
   */
  method RunRounds(plan: Planner, maxRounds: nat, start: Collected) returns (emitter: Emitter, c: Collected)
    ensures fresh(emitter) && emitter.Valid() && emitter.finished == Below(|emitter.announced|)
    ensures emitter.announced == SlotsBy(plan, 1, maxRounds, start)
    ensures c == CollectedBy(plan, 1, maxRounds, start)
  {
    emitter := new Emitter();
    c := start;
    var round := 1;
    while round <= maxRounds
      invariant 1 <= round <= maxRounds + 1
      invariant fresh(emitter) && emitter.Valid() && emitter.finished == Below(emitter.nextOutputIndex)
      invariant SlotsBy(plan, 1, maxRounds, start) == emitter.announced + SlotsBy(plan, round, maxRounds, c)
      invariant CollectedBy(plan, 1, maxRounds, start) == CollectedBy(plan, round, maxRounds, c)
    {
      var actions := plan(round, c);
      if actions == [] {
        break;
      }
      NextRound(plan, round, maxRounds, c, emitter.announced);
      var r := emitter.RunRound(actions);
      var urls := AppendNew(c.urls, r.urls);
      c := Collected(c.sections + [Message(r.sections)], urls, c.urlsByAction + r.urlsByAction,
                     c.completed + r.completed, c.items + r.items);
      round := round + 1;
    }
  }

  lemma NextRound(plan: Planner, round: nat, maxRounds: nat, c: Collected, announced: seq<Action>)
    requires round <= maxRounds && plan(round, c) != []
    ensures var slots := Slots(plan(round, c));
            var next := After(c, Gathered(slots));
            && CollectedBy(plan, round, maxRounds, c) == CollectedBy(plan, round + 1, maxRounds, next)
            && announced + SlotsBy(plan, round, maxRounds, c)
               == (announced + slots) + SlotsBy(plan, round + 1, maxRounds, next)
  {
  }

  function DoneItems(slots: seq<Action>): seq<Item> {
    if slots == [] then []
    else
      var front, last := DoneItems(slots[..|slots| - 1]), slots[|slots| - 1];
      if last.done.Some? then front + [DoneItem(last)] else front
  }

  /** The collected items are those of all announced actions that gave one, in the order of their indices. */
  lemma {:induction false} CollectedItems(plan: Planner, round: nat, maxRounds: nat, c: Collected)
    ensures CollectedBy(plan, round, maxRounds, c).items == c.items + DoneItems(SlotsBy(plan, round, maxRounds, c))
    decreases maxRounds + 1 - round
  {
    if round <= maxRounds && plan(round, c) != [] {
      var slots := Slots(plan(round, c));
      var next := After(c, Gathered(slots));
      var later := SlotsBy(plan, round + 1, maxRounds, next);
      CollectedItems(plan, round + 1, maxRounds, next);
      RoundItems(c.items, Gathered(slots).items, slots, later);
    }
  }

  lemma RoundItems(before: seq<Item>, items: seq<Item>, slots: seq<Action>, later: seq<Action>)
    requires items == Gathered(slots).items
    ensures (before + items) + DoneItems(later) == before + DoneItems(slots + later)
  {
    GatheredItems(slots);
    DoneConcat(slots, later);
  }

  lemma {:induction false} GatheredItems(slots: seq<Action>)
    ensures Gathered(slots).items == DoneItems(slots)
  {
    if slots != [] { GatheredItems(slots[..|slots| - 1]); }
  }

  lemma {:induction false} DoneConcat(a: seq<Action>, b: seq<Action>)
    ensures DoneItems(a + b) == DoneItems(a) + DoneItems(b)
  {
    if b == [] {
      assert a + b == a;
    } else {
      assert (a + b)[..|a + b| - 1] == a + b[..|b| - 1];
      DoneConcat(a, b[..|b| - 1]);
    }
  }

  lemma {:induction false} AllDoneItems(slots: seq<Action>)
    ensures |DoneItems(slots)| <= |slots|
    ensures AllDone(slots) ==> |DoneItems(slots)| == |slots|
    ensures AllDone(slots) ==> forall i | 0 <= i < |slots| :: DoneItems(slots)[i] == DoneItem(slots[i])
  {
    if slots != [] { AllDoneItems(slots[..|slots| - 1]); }
  }

  // ---- the answer ----

  /** Entries of the answer that are neither search calls nor calls of the search function. */
  predicate Answers(e: Entry, isCall: Item -> bool) {
    e.Object? && e.item.kind != "web_search_call" && !isCall(e.item)
  }

  function Answer(output: seq<Entry>, isCall: Item -> bool): seq<Item> {
    if output == [] then []
    else
      var front, last := Answer(output[..|output| - 1], isCall), output[|output| - 1];
      if Answers(last, isCall) then front + [last.item] else front
  }

  predicate AllWhole(items: seq<Item>) { forall i | 0 <= i < |items| :: Whole(items[i]) }

  function Entries(items: seq<Item>): seq<Entry> {
    if items == [] then [] else Entries(items[..|items| - 1]) + [Object(items[|items| - 1])]
  }

  lemma {:induction false} EntriesItems(items: seq<Item>)
    ensures ItemsOf(Entries(items)) == items && |Entries(items)| == |items|
    ensures forall i | 0 <= i < |items| :: Entries(items)[i] == Object(items[i])
  {
    if items != [] { EntriesItems(items[..|items| - 1]); }
  }

  /** A client that has some index open or has seen all items of the answer so far. */
  ghost predicate Answering(c: Option<Client>, complete: bool, whole: bool, items: seq<Item>, stuck: nat) {
    if !complete then c.Some? ==> c.value.Reading? && stuck in c.value.open
    else if !whole then c.None?
    else
      && c.Some? && c.value.Reading? && c.value.open == map[]
      && (forall i: nat :: i in c.value.closed <==> i < |items|)
      && forall i: nat | i < |items| :: c.value.closed[i] == items[i]
  }

  lemma AnswerStart(c: Client, slots: seq<Action>, number: nat, items: seq<Item>) returns (stuck: nat)
    requires Seen(c, slots, Below(|slots|), number) && items == DoneItems(slots)
    ensures Answering(Some(c), AllDone(slots), true, items, stuck)
    ensures AllDone(slots) || stuck < |slots|
  {
    BelowIs(|slots|);
    AllDoneItems(slots);
    stuck := 0;
    if AllDone(slots) {
      forall i: nat ensures i !in c.open {
        if i < |slots| { assert Closing(slots, Below(|slots|), i); }
      }
    } else {
      stuck :| 0 <= stuck < |slots| && slots[stuck].done.None?;
      assert !Closing(slots, Below(|slots|), stuck);
    }
  }

  lemma AnswerStep(c: Option<Client>, d: Option<Client>, complete: bool, whole: bool, items: seq<Item>, item: Item,
                   stuck: nat)
    requires Answering(c, complete, whole, items, stuck)
    requires d == if c.None? then None else FeedAll(c.value, Opening(item, |items|) + [ItemDone(|items|, item)])
    ensures Answering(d, complete, whole && Whole(item), items + [item], stuck)
  {
    if c.Some? { ItemFed(c.value, item, |items|); }
  }

  lemma AnswerEnd(c: Option<Client>, complete: bool, whole: bool, items: seq<Item>, stuck: nat)
    requires Answering(c, complete, whole, items, stuck)
    ensures (if c.None? then None else Feed(c.value, ResponseCompleted(Entries(items))))
            == if complete && whole then Some(Finished(items)) else None
  {
    EntriesItems(items);
    if complete && whole {
      EntriesMatch(items, Entries(items), c.value.closed);
    } else if c.Some? {
      assert c.value.open != map[];
    }
  }

  lemma EntriesMatch(items: seq<Item>, output: seq<Entry>, closed: map<nat, Item>)
    requires |output| == |items| && forall i | 0 <= i < |items| :: output[i] == Object(items[i])
    requires forall i: nat :: i in closed <==> i < |items|
    requires forall i: nat | i < |items| :: closed[i] == items[i]
    ensures Matches(output, closed)
  {
  }

  lemma ShownClient(events: seq<Event>, slots: seq<Action>, finished: set<nat>, number: nat) returns (c: Client)
    requires Shown(events, slots, finished, number)
    ensures FeedAll(Waiting, events) == Some(c) && Seen(c, slots, finished, number)
  {
    c :| FeedAll(Waiting, events) == Some(c) && Seen(c, slots, finished, number);
  }

  /**
   The whole stream, when a visible answer comes without route recovery.  A client
   accepts it exactly when every announced action gave an item and every message of
   the answer has one text part; it has the completed output then, which does not
   depend on the order in which actions finished.
   */
  method ResolveRounds(plan: Planner, maxRounds: nat, start: Collected, answer: Collected -> seq<Entry>,
                       isCall: Item -> bool) returns (events: seq<Event>, output: seq<Item>)
    requires start.items == []
    ensures var c := CollectedBy(plan, 1, maxRounds, start);
            var slots := SlotsBy(plan, 1, maxRounds, start);
            && output == c.items + Answer(answer(c), isCall)
            && FeedAll(Waiting, events)
               == if AllDone(slots) && AllWhole(Answer(answer(c), isCall)) then Some(Finished(output)) else None
  {
    var emitter, c := RunRounds(plan, maxRounds, start);
    CollectedItems(plan, 1, maxRounds, start);
    ghost var slots := emitter.announced;
    assert c.items == DoneItems(slots);
    ghost var client := ShownClient(emitter.events, slots, emitter.finished, emitter.sequenceNumber);
    ghost var stuck := AnswerStart(client, slots, emitter.sequenceNumber, c.items);
    events, output := AppendAnswer(emitter.events, c.items, answer(c), isCall, AllDone(slots), stuck);
  }

  method AppendAnswer(before: seq<Event>, items: seq<Item>, answer: seq<Entry>, isCall: Item -> bool,
                      ghost complete: bool, ghost stuck: nat) returns (events: seq<Event>, output: seq<Item>)
    requires Answering(FeedAll(Waiting, before), complete, true, items, stuck)
    ensures output == items + Answer(answer, isCall)
    ensures FeedAll(Waiting, events)
            == if complete && AllWhole(Answer(answer, isCall)) then Some(Finished(output)) else None
  {
    events, output := before, items;
    for i := 0 to |answer|
      invariant output == items + Answer(answer[..i], isCall)
      invariant Answering(FeedAll(Waiting, events), complete, AllWhole(Answer(answer[..i], isCall)), output, stuck)
    {
      assert answer[..i + 1][..i] == answer[..i];
      if Answers(answer[i], isCall) {
        var item := answer[i].item;
        var more := ItemEvents(item, |output|);
        FeedConcat(Waiting, events, more);
        AnswerStep(FeedAll(Waiting, events), FeedAll(Waiting, events + more), complete,
                   AllWhole(Answer(answer[..i], isCall)), output, item, stuck);
        WholeStep(Answer(answer[..i], isCall), item);
        events := events + more;
        output := output + [item];
      }
    }
    assert answer[..|answer|] == answer;
    AnswerEnd(FeedAll(Waiting, events), complete, AllWhole(Answer(answer, isCall)), output, stuck);
    FeedOne(Waiting, events, ResponseCompleted(Entries(output)));
    events := events + [ResponseCompleted(Entries(output))];
  }

  lemma WholeStep(items: seq<Item>, item: Item)
    ensures AllWhole(items + [item]) <==> AllWhole(items) && Whole(item)
  {
    assert (items + [item])[|items|] == item;
    if AllWhole(items + [item]) {
      forall i | 0 <= i < |items| ensures Whole(items[i]) { assert (items + [item])[i] == items[i]; }
    }
  }
}
