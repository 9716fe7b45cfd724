/** What the rounds of a search collect, told by filtering and joining what their actions give. */
module SearchCollection {
  import opened PythonText
  import opened ResponseEvents
  import opened SearchRounds

  function Filter<T>(keep: T -> bool, xs: seq<T>): seq<T> {
    if xs == [] then [] else (if keep(xs[0]) then [xs[0]] else []) + Filter(keep, xs[1..])
  }

  function Map<T, U>(f: T -> U, xs: seq<T>): seq<U> { seq(|xs|, i requires 0 <= i < |xs| => f(xs[i])) }

  function Concat<T>(xss: seq<seq<T>>): seq<T> { if xss == [] then [] else xss[0] + Concat(xss[1..]) }

  lemma FilterFirst<T>(keep: T -> bool, xs: seq<T>, rest: seq<T>)
    requires xs != [] && rest == xs[1..]
    ensures Filter(keep, xs) == (if keep(xs[0]) then [xs[0]] else []) + Filter(keep, rest)
  {
  }

  lemma FilterNone<T>(keep: T -> bool)
    ensures Filter(keep, []) == []
  {
  }

  lemma Assoc<T>(a: seq<T>, b: seq<T>, c: seq<T>)
    ensures a + (b + c) == a + b + c
    ensures a + [] == a && [] + b == b
  {
  }

  lemma FilterLast<T>(keep: T -> bool, xs: seq<T>, x: T)
    ensures Filter(keep, xs + [x]) == Filter(keep, xs) + if keep(x) then [x] else []
  {
    hide Filter;
    FilterBoth(keep, xs, [x]);
    FilterFirst(keep, [x], []);
    FilterNone(keep);
    Assoc(if keep(x) then [x] else [], [], []);
  }

  lemma {:induction false} FilterBoth<T>(keep: T -> bool, xs: seq<T>, ys: seq<T>)
    ensures Filter(keep, xs + ys) == Filter(keep, xs) + Filter(keep, ys)
  {
    hide Filter;
    if xs == [] {
      FilterNone(keep);
      Assoc(xs, ys, []);
    } else {
      assert (xs + ys)[1..] == xs[1..] + ys && (xs + ys)[0] == xs[0];
      FilterFirst(keep, xs, xs[1..]);
      FilterFirst(keep, xs + ys, xs[1..] + ys);
      FilterBoth(keep, xs[1..], ys);
      Assoc(if keep(xs[0]) then [xs[0]] else [], Filter(keep, xs[1..]), Filter(keep, ys));
    }
  }

  lemma {:induction false} ConcatLast<T>(xss: seq<seq<T>>, xs: seq<T>)
    ensures Concat(xss + [xs]) == Concat(xss) + xs
  {
    if xss == [] {
      assert xss + [xs] == [xs] && [xs][1..] == [];
    } else {
      assert (xss + [xs])[1..] == xss[1..] + [xs] && (xss + [xs])[0] == xss[0];
      ConcatLast(xss[1..], xs);
    }
  }

  lemma {:induction false} ConcatBoth<T>(xss: seq<seq<T>>, yss: seq<seq<T>>)
    ensures Concat(xss + yss) == Concat(xss) + Concat(yss)
  {
    if yss == [] {
      assert xss + yss == xss;
    } else {
      var front, last := yss[..|yss| - 1], yss[|yss| - 1];
      ConcatBoth(xss, front);
      ConcatLast(xss + front, last);
      ConcatLast(front, last);
      assert xss + yss == (xss + front) + [last] && yss == front + [last];
    }
  }

  lemma MapLast<T, U>(f: T -> U, xs: seq<T>, x: T)
    ensures Map(f, xs + [x]) == Map(f, xs) + [f(x)]
  {
  }

  /** Each once, in the order of first appearance. */
  function Once(xs: seq<string>): seq<string> {
    if xs == [] then [] else [xs[0]] + Filter((x: string) => x != xs[0], Once(xs[1..]))
  }

  lemma {:induction false} FilterHas<T>(keep: T -> bool, xs: seq<T>, x: T)
    ensures x in Filter(keep, xs) <==> x in xs && keep(x)
  {
    if xs != [] { FilterHas(keep, xs[1..], x); }
  }

  lemma {:induction false} OnceHas(xs: seq<string>, x: string)
    ensures x in Once(xs) <==> x in xs
  {
    if xs != [] {
      OnceHas(xs[1..], x);
      FilterHas((y: string) => y != xs[0], Once(xs[1..]), x);
    }
  }

  lemma {:induction false} OnceLast(xs: seq<string>, x: string)
    ensures Once(xs + [x]) == if x in xs then Once(xs) else Once(xs) + [x]
  {
    if xs == [] {
      assert xs + [x] == [x] && [x][1..] == [];
    } else {
      var keep := (y: string) => y != xs[0];
      assert (xs + [x])[1..] == xs[1..] + [x] && (xs + [x])[0] == xs[0];
      OnceLast(xs[1..], x);
      FilterLast(keep, Once(xs[1..]), x);
      assert x in xs <==> x == xs[0] || x in xs[1..];
    }
  }

  // ---- one round ----

  function IsAnnounced(): Action -> bool { (a: Action) => a.announced.Some? }

  function IsDone(): Action -> bool { (a: Action) => a.done.Some? }

  /** The actions that get an output index are those with an item to announce. */
  lemma {:induction false} SlotsAre(actions: seq<Action>)
    ensures Slots(actions) == Filter(IsAnnounced(), actions)
  {
    if actions != [] {
      var front, last := actions[..|actions| - 1], actions[|actions| - 1];
      SlotsAre(front);
      FilterLast(IsAnnounced(), front, last);
      assert actions == front + [last];
    }
  }

  lemma {:induction false} AddedOnce(urls: seq<string>, more: seq<string>)
    ensures AddNew(Once(urls), more) == Once(urls + more)
  {
    hide Once;
    if more == [] {
      assert urls + more == urls;
    } else {
      var front, last := more[..|more| - 1], more[|more| - 1];
      AddedOnce(urls, front);
      OnceLast(urls + front, last);
      OnceHas(urls + front, last);
      assert urls + more == (urls + front) + [last];
    }
  }

  /** What a round collects: of the actions that finished with an item, in order, and each address once. */
  ghost predicate IsRound(r: Round, done: seq<Action>) {
    && r.sections == Map((x: Action) => x.section, done) && r.urlsByAction == Map((x: Action) => x.urls, done)
    && r.completed == Map((x: Action) => x.performed, done) && r.items == Map((x: Action) => DoneItem(x), done)
    && r.urls == Once(Concat(r.urlsByAction))
  }

  lemma {:induction false} GatheredAre(slots: seq<Action>)
    ensures IsRound(Gathered(slots), Filter(IsDone(), slots))
  {
    if slots != [] {
      var front, last := slots[..|slots| - 1], slots[|slots| - 1];
      GatheredAre(front);
      FilterLast(IsDone(), front, last);
      assert slots == front + [last];
      if last.done.Some? { RoundLast(Gathered(front), Filter(IsDone(), front), last); }
    }
  }

  lemma RoundLast(r: Round, done: seq<Action>, a: Action)
    requires IsRound(r, done)
    ensures IsRound(Round(r.sections + [a.section], AddNew(r.urls, a.urls), r.urlsByAction + [a.urls],
                          r.completed + [a.performed], r.items + [DoneItem(a)]), done + [a])
  {
    MapLast((x: Action) => x.section, done, a);
    MapLast((x: Action) => x.urls, done, a);
    MapLast((x: Action) => x.performed, done, a);
    MapLast((x: Action) => DoneItem(x), done, a);
    ConcatLast(r.urlsByAction, a.urls);
    AddedOnce(Concat(r.urlsByAction), a.urls);
  }

  /** Texts with a blank line between them. */
  function Paragraphs(texts: seq<string>): string {
    if texts == [] then "" else if |texts| == 1 then texts[0] else texts[0] + "\n\n" + Paragraphs(texts[1..])
  }

  function IsText(): string -> bool { (s: string) => Strip(s) != "" }

  lemma {:induction false} ParagraphsLast(texts: seq<string>, text: string, gap: string)
    requires gap == "\n\n"
    ensures Paragraphs(texts + [text]) == if texts == [] then text else Paragraphs(texts) + gap + text
  {
    if |texts| >= 1 {
      assert (texts + [text])[1..] == texts[1..] + [text] && (texts + [text])[0] == texts[0];
      ParagraphsLast(texts[1..], text, gap);
      if |texts| > 1 {
        assert texts[0] + gap + (Paragraphs(texts[1..]) + gap + text) == (texts[0] + gap + Paragraphs(texts[1..])) + gap + text;
      }
    }
  }

  /** The message of a round: its sections that are not blank, as paragraphs. */
  lemma {:induction false} MessageIs(sections: seq<string>)
    ensures Message(sections) == Paragraphs(Filter(IsText(), sections))
    ensures Message(sections) == "" <==> Filter(IsText(), sections) == []
  {
    hide Strip;
    if sections != [] {
      var front, last := sections[..|sections| - 1], sections[|sections| - 1];
      MessageIs(front);
      FilterLast(IsText(), front, last);
      assert sections == front + [last];
      if Strip(last) != "" {
        ParagraphsLast(Filter(IsText(), front), last, "\n\n");
        BlankIsBlank(last);
        assert Filter(IsText(), sections) == Filter(IsText(), front) + [last];
      } else {
        assert Filter(IsText(), sections) == Filter(IsText(), front);
      }
    }
  }

  lemma BlankIsBlank(s: string)
    requires Strip(s) != ""
    ensures s != ""
  {
  }

  // ---- all rounds ----

  /** Everything the rounds collect, from all actions that finished with an item. */
  lemma {:induction false} CollectedAre(plan: Planner, round: nat, maxRounds: nat, c: Collected)
    requires c.urls == Once(Concat(c.urlsByAction))
    ensures var all, done := CollectedBy(plan, round, maxRounds, c), Filter(IsDone(), SlotsBy(plan, round, maxRounds, c));
            && all.urlsByAction == c.urlsByAction + Map((x: Action) => x.urls, done)
            && all.completed == c.completed + Map((x: Action) => x.performed, done)
            && all.items == c.items + Map((x: Action) => DoneItem(x), done)
            && all.urls == Once(Concat(all.urlsByAction))
    decreases maxRounds + 1 - round
  {
    if round <= maxRounds && plan(round, c) != [] {
      var slots := Slots(plan(round, c));
      var r := Gathered(slots);
      var next := After(c, r);
      var later := SlotsBy(plan, round + 1, maxRounds, next);
      GatheredAre(slots);
      AfterRound(c, r, Filter(IsDone(), slots));
      CollectedAre(plan, round + 1, maxRounds, next);
      FilterBoth(IsDone(), slots, later);
      Mapped(c, next, CollectedBy(plan, round + 1, maxRounds, next), Filter(IsDone(), slots), Filter(IsDone(), later));
    } else {
      NothingMapped(c);
    }
  }

  lemma NothingMapped(c: Collected)
    ensures c.urlsByAction == c.urlsByAction + Map((x: Action) => x.urls, [])
    ensures c.completed == c.completed + Map((x: Action) => x.performed, [])
    ensures c.items == c.items + Map((x: Action) => DoneItem(x), [])
  {
  }

  lemma AfterRound(c: Collected, r: Round, done: seq<Action>)
    requires IsRound(r, done) && c.urls == Once(Concat(c.urlsByAction))
    ensures var next := After(c, r);
            && next.urlsByAction == c.urlsByAction + Map((x: Action) => x.urls, done)
            && next.completed == c.completed + Map((x: Action) => x.performed, done)
            && next.items == c.items + Map((x: Action) => DoneItem(x), done)
            && next.urls == Once(Concat(next.urlsByAction))
  {
    ConcatBoth(c.urlsByAction, r.urlsByAction);
    AddedTwice(Concat(c.urlsByAction), Concat(r.urlsByAction));
  }

  lemma OnceNone()
    ensures Once([]) == []
  {
  }

  /** Adding addresses that were made unique adds the same as adding them all. */
  lemma {:induction false} AddedTwice(urls: seq<string>, more: seq<string>)
    ensures AddNew(Once(urls), Once(more)) == Once(urls + more)
  {
    hide Once;
    if more == [] {
      OnceNone();
      assert urls + more == urls;
    } else {
      var front, last := more[..|more| - 1], more[|more| - 1];
      AddedTwice(urls, front);
      OnceLast(front, last);
      OnceLast(urls + front, last);
      OnceHas(urls + front, last);
      assert more == front + [last] && urls + more == (urls + front) + [last];
      assert (Once(front) + [last])[..|Once(front)|] == Once(front);
      if last in front { assert last in urls + front; }
    }
  }

  lemma Mapped(c: Collected, next: Collected, all: Collected, done: seq<Action>, later: seq<Action>)
    requires next.urlsByAction == c.urlsByAction + Map((x: Action) => x.urls, done)
    requires next.completed == c.completed + Map((x: Action) => x.performed, done)
    requires next.items == c.items + Map((x: Action) => DoneItem(x), done)
    requires all.urlsByAction == next.urlsByAction + Map((x: Action) => x.urls, later)
    requires all.completed == next.completed + Map((x: Action) => x.performed, later)
    requires all.items == next.items + Map((x: Action) => DoneItem(x), later)
    ensures all.urlsByAction == c.urlsByAction + Map((x: Action) => x.urls, done + later)
    ensures all.completed == c.completed + Map((x: Action) => x.performed, done + later)
    ensures all.items == c.items + Map((x: Action) => DoneItem(x), done + later)
  {
  }

  /** The answer's entries that go into the output: items that are neither search calls nor calls of the function. */
  lemma {:induction false} AnswerIs(output: seq<Entry>, isCall: Item -> bool)
    ensures Answer(output, isCall)
            == Map((e: Entry) => if e.Object? then e.item else Item("", "", "", [], ""),
                   Filter((e: Entry) => e.Object? && e.item.kind != "web_search_call" && !isCall(e.item), output))
  {
    if output != [] {
      var front, last := output[..|output| - 1], output[|output| - 1];
      var keep := (e: Entry) => e.Object? && e.item.kind != "web_search_call" && !isCall(e.item);
      AnswerIs(front, isCall);
      FilterLast(keep, front, last);
      assert output == front + [last];
    }
  }

  // ---- which rounds there are ----

  /** What was collected before and behind a round with these actions. */
  ghost predicate OneRound(c: Collected, actions: seq<Action>, next: Collected) {
    var done := Filter(IsDone(), Filter(IsAnnounced(), actions));
    && next.sections == c.sections + [Paragraphs(Filter(IsText(), Map((x: Action) => x.section, done)))]
    && next.urlsByAction == c.urlsByAction + Map((x: Action) => x.urls, done)
    && next.completed == c.completed + Map((x: Action) => x.performed, done)
    && next.items == c.items + Map((x: Action) => DoneItem(x), done)
    && next.urls == Once(Concat(next.urlsByAction))
  }

  /** From each state one round leads to the next, and behind the last none is left or nothing is asked for. */
  ghost predicate AreRounds(plan: Planner, round: nat, maxRounds: nat, states: seq<Collected>) {
    && states != [] && round + |states| <= maxRounds + 2
    && (forall k | 0 <= k < |states| - 1 ::
          plan(round + k, states[k]) != [] && OneRound(states[k], plan(round + k, states[k]), states[k + 1]))
    && (round + |states| == maxRounds + 2 || plan(round + |states| - 1, states[|states| - 1]) == [])
  }

  /** The actions announced in all rounds. */
  function AllAnnounced(plan: Planner, round: nat, states: seq<Collected>): seq<Action>
    decreases |states|
  {
    if |states| < 2 then []
    else Filter(IsAnnounced(), plan(round, states[0])) + AllAnnounced(plan, round + 1, states[1..])
  }

  /** The rounds go on until none is left or nothing more is asked for. */
  lemma {:induction false} RoundsAre(plan: Planner, round: nat, maxRounds: nat, c: Collected) returns (states: seq<Collected>)
    requires round <= maxRounds + 1 && c.urls == Once(Concat(c.urlsByAction))
    ensures AreRounds(plan, round, maxRounds, states) && states[0] == c
    ensures CollectedBy(plan, round, maxRounds, c) == states[|states| - 1]
    ensures SlotsBy(plan, round, maxRounds, c) == AllAnnounced(plan, round, states)
    decreases maxRounds + 1 - round
  {
    hide OneRound, Once, Filter, IsAnnounced;
    if round <= maxRounds && plan(round, c) != [] {
      var slots := Slots(plan(round, c));
      var next := After(c, Gathered(slots));
      RoundIs(c, plan(round, c), next);
      var more := RoundsAre(plan, round + 1, maxRounds, next);
      states := [c] + more;
      RoundInFront(plan, round, maxRounds, c, more, states);
    } else {
      states := [c];
    }
  }

  lemma RoundIs(c: Collected, actions: seq<Action>, next: Collected)
    requires next == After(c, Gathered(Slots(actions))) && c.urls == Once(Concat(c.urlsByAction))
    ensures OneRound(c, actions, next) && next.urls == Once(Concat(next.urlsByAction))
    ensures Slots(actions) == Filter(IsAnnounced(), actions)
  {
    hide Once, Filter, Paragraphs, Gathered, Message;
    var slots := Slots(actions);
    SlotsAre(actions);
    GatheredAre(slots);
    AfterRound(c, Gathered(slots), Filter(IsDone(), slots));
    MessageIs(Gathered(slots).sections);
  }

  lemma RoundInFront(plan: Planner, round: nat, maxRounds: nat, c: Collected, more: seq<Collected>, states: seq<Collected>)
    requires AreRounds(plan, round + 1, maxRounds, more) && states == [c] + more
    requires plan(round, c) != [] && OneRound(c, plan(round, c), more[0])
    ensures AreRounds(plan, round, maxRounds, states) && states[1..] == more
  {
    hide OneRound;
    forall k | 0 <= k < |states| - 1
      ensures plan(round + k, states[k]) != [] && OneRound(states[k], plan(round + k, states[k]), states[k + 1])
    {
      if k > 0 {
        assert states[k] == more[k - 1] && states[k + 1] == more[k] && round + k == round + 1 + (k - 1);
      }
    }
  }
}
