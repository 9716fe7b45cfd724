/**
 The YAML expansion limiter.  It walks the parser's events once, with a stack of
 open collections and a table of anchor weights, and never builds the tree it
 measures.  The theorem at the end compares it with building that tree.
 */
module YamlLimits {
  import opened Wrappers

  const MAX_NODES: nat := 100_000
  const MAX_DEPTH: nat := 100

  /** An empty anchor is no anchor.  Other stands for the stream and document marks. */
  datatype Event = ScalarEvent(anchor: string) | AliasEvent(name: string) | Start(anchor: string) | End | Other

  /** Nodes and nesting of an expanded node. */
  datatype Weight = Weight(cost: nat, depth: nat)

  datatype Frame = Frame(anchor: string, cost: nat, childDepth: nat)

  datatype Machine = Machine(anchors: map<string, Weight>, frames: seq<Frame>, documentCost: nat)

  const START := Machine(map[], [], 0)

  // ---- one pass over the events ----

  function CheckedTotal(current: nat, increment: nat): Option<nat>
    requires current <= MAX_NODES
  {
    if increment > MAX_NODES - current then None else Some(current + increment)
  }

  predicate Bounded(m: Machine) {
    m.documentCost <= MAX_NODES && forall k | 0 <= k < |m.frames| :: m.frames[k].cost <= MAX_NODES
  }

  function AddNode(m: Machine, w: Weight): (r: Option<Machine>)
    requires Bounded(m)
    ensures r.Some? ==> Bounded(r.value)
  {
    if w.depth > MAX_DEPTH then None
    else if m.frames != [] then
      var n := |m.frames| - 1;
      var f := m.frames[n];
      var cost := CheckedTotal(f.cost, w.cost);
      if cost.None? then None
      else Some(m.(frames := m.frames[n := f.(cost := cost.value, childDepth := Max(f.childDepth, w.depth))]))
    else
      var cost := CheckedTotal(m.documentCost, w.cost);
      if cost.None? then None else Some(m.(documentCost := cost.value))
  }

  function Remember(anchors: map<string, Weight>, anchor: string, w: Weight): map<string, Weight> {
    if anchor == "" then anchors else anchors[anchor := w]
  }

  /** None is the source's refusal. */
  function Step(m: Machine, e: Event): (r: Option<Machine>)
    requires Bounded(m)
    ensures r.Some? ==> Bounded(r.value)
  {
    match e
    case Start(anchor) =>
      if |m.frames| + 1 > MAX_DEPTH then None else Some(m.(frames := m.frames + [Frame(anchor, 1, 0)]))
    case ScalarEvent(anchor) =>
      var added := AddNode(m, Weight(1, 1));
      if added.None? then None
      else Some(added.value.(anchors := Remember(added.value.anchors, anchor, Weight(1, 1))))
    case AliasEvent(name) =>
      if name in m.anchors then AddNode(m, m.anchors[name]) else None
    case End =>
      if m.frames == [] then None
      else
        var f := m.frames[|m.frames| - 1];
        var w := Weight(f.cost, 1 + f.childDepth);
        if w.depth > MAX_DEPTH then None
        else AddNode(m.(frames := m.frames[..|m.frames| - 1], anchors := Remember(m.anchors, f.anchor, w)), w)
    case Other => Some(m)
  }

  function Run(m: Machine, events: seq<Event>): Option<Machine>
    requires Bounded(m)
    decreases |events|
  {
    if events == [] then Some(m)
    else
      var next := Step(m, events[0]);
      if next.None? then None else Run(next.value, events[1..])
  }

  /** The loop of the source: false is its exception. */
  method ValidateEvents(events: seq<Event>) returns (ok: bool)
    ensures ok <==> Run(START, events).Some?
  {
    hide AddNode;
    var anchors: map<string, Weight> := map[];
    var frames: seq<Frame> := [];
    var documentCost: nat := 0;
    var i := 0;
    while i < |events|
      invariant 0 <= i <= |events|
      invariant Bounded(Machine(anchors, frames, documentCost))
      invariant Run(START, events) == Run(Machine(anchors, frames, documentCost), events[i..])
    {
      assert events[i..][1..] == events[i + 1..];
      var added := Some(Machine(anchors, frames, documentCost));
      match events[i] {
        case Start(anchor) =>
          if |frames| + 1 > MAX_DEPTH {
            return false;
          }
          added := Some(Machine(anchors, frames + [Frame(anchor, 1, 0)], documentCost));
        case ScalarEvent(anchor) =>
          added := AddNode(Machine(anchors, frames, documentCost), Weight(1, 1));
          if added.None? {
            return false;
          }
          if anchor != "" {
            added := Some(added.value.(anchors := added.value.anchors[anchor := Weight(1, 1)]));
          }
        case AliasEvent(name) =>
          if name !in anchors {
            return false;
          }
          added := AddNode(Machine(anchors, frames, documentCost), anchors[name]);
        case End =>
          if frames == [] {
            return false;
          }
          var frame := frames[|frames| - 1];
          var depth := 1 + frame.childDepth;
          if depth > MAX_DEPTH {
            return false;
          }
          var known := if frame.anchor != "" then anchors[frame.anchor := Weight(frame.cost, depth)] else anchors;
          added := AddNode(Machine(known, frames[..|frames| - 1], documentCost), Weight(frame.cost, depth));
        case Other =>
      }
      if added.None? {
        return false;
      }
      anchors, frames, documentCost := added.value.anchors, added.value.frames, added.value.documentCost;
      i := i + 1;
    }
    return true;
  }

  // ---- documents, and what they mean with every alias expanded ----

  datatype Node = ScalarNode(anchor: string) | AliasNode(name: string) | Collection(anchor: string, children: seq<Node>)

  /** A document with no aliases left. */
  datatype Tree = Leaf | Branch(children: seq<Tree>)

  function Events(n: Node): seq<Event> {
    match n
    case ScalarNode(anchor) => [ScalarEvent(anchor)]
    case AliasNode(name) => [AliasEvent(name)]
    case Collection(anchor, children) => [Start(anchor)] + EventsOf(children) + [End]
  }

  function EventsOf(ns: seq<Node>): seq<Event> {
    if ns == [] then [] else Events(ns[0]) + EventsOf(ns[1..])
  }

  type Anchored = map<string, Tree>

  datatype Expansion = Expansion(tree: Tree, known: Anchored)

  datatype Expansions = Expansions(trees: seq<Tree>, known: Anchored)

  function Know(known: Anchored, anchor: string, tree: Tree): Anchored {
    if anchor == "" then known else known[anchor := tree]
  }

  /** Section 7.1 of YAML 1.2.2: an alias stands for the last completed node with that anchor, or is an error. */
  function Expand(n: Node, known: Anchored): Option<Expansion> {
    match n
    case ScalarNode(anchor) => Some(Expansion(Leaf, Know(known, anchor, Leaf)))
    case AliasNode(name) => if name in known then Some(Expansion(known[name], known)) else None
    case Collection(anchor, children) =>
      var r := ExpandAll(children, known);
      if r.None? then None
      else Some(Expansion(Branch(r.value.trees), Know(r.value.known, anchor, Branch(r.value.trees))))
  }

  function ExpandAll(ns: seq<Node>, known: Anchored): Option<Expansions> {
    if ns == [] then Some(Expansions([], known))
    else
      var head := Expand(ns[0], known);
      if head.None? then None
      else
        var tail := ExpandAll(ns[1..], head.value.known);
        if tail.None? then None else Some(Expansions([head.value.tree] + tail.value.trees, tail.value.known))
  }

  function Size(t: Tree): nat {
    match t
    case Leaf => 1
    case Branch(children) => 1 + SizeOf(children)
  }

  function SizeOf(ts: seq<Tree>): nat {
    if ts == [] then 0 else Size(ts[0]) + SizeOf(ts[1..])
  }

  function Depth(t: Tree): nat {
    match t
    case Leaf => 1
    case Branch(children) => 1 + DepthOf(children)
  }

  function DepthOf(ts: seq<Tree>): nat {
    if ts == [] then 0 else Max(Depth(ts[0]), DepthOf(ts[1..]))
  }

  // ---- the machine measures what it does not build ----

  /** Collections open inside one another, before any expansion. */
  function Nesting(n: Node): nat {
    match n
    case ScalarNode(_) => 0
    case AliasNode(_) => 0
    case Collection(_, children) => 1 + NestingOf(children)
  }

  function NestingOf(ns: seq<Node>): nat {
    if ns == [] then 0 else Max(Nesting(ns[0]), NestingOf(ns[1..]))
  }

  function Room(m: Machine): nat
    requires Bounded(m)
  {
    MAX_NODES - if m.frames == [] then m.documentCost else m.frames[|m.frames| - 1].cost
  }

  /** The machine with trees of this size and depth added where it stands. */
  function Added(m: Machine, size: nat, depth: nat): Machine {
    if m.frames == [] then m.(documentCost := m.documentCost + size)
    else
      var n := |m.frames| - 1;
      var f := m.frames[n];
      m.(frames := m.frames[n := f.(cost := f.cost + size, childDepth := Max(f.childDepth, depth))])
  }

  lemma RunConcat(m: Machine, a: seq<Event>, b: seq<Event>)
    requires Bounded(m)
    ensures Run(m, a).Some? ==> Bounded(Run(m, a).value)
    ensures Run(m, a + b) == if Run(m, a).None? then None else Run(Run(m, a).value, b)
    decreases |a|
  {
    if a == [] {
      assert a + b == b;
    } else {
      assert (a + b)[1..] == a[1..] + b;
      var next := Step(m, a[0]);
      if next.Some? { RunConcat(next.value, a[1..], b); }
    }
  }

  /** The anchors of the machine after a node, given what is known after it. */
  function Weights(known: Anchored): map<string, Weight> {
    map a | a in known :: Weight(Size(known[a]), Depth(known[a]))
  }

  /** The machine with trees of this size, depth and nesting added, if the limits allow them. */
  function Fit(m: Machine, size: nat, depth: nat, nesting: nat, anchors: map<string, Weight>): (r: Option<Machine>)
    requires Bounded(m)
    ensures r.Some? ==> Bounded(r.value)
  {
    if size <= Room(m) && depth <= MAX_DEPTH && |m.frames| + nesting <= MAX_DEPTH
    then Some(Added(m, size, depth).(anchors := anchors)) else None
  }

  /** What running the events of a node comes to. */
  function Measured(m: Machine, n: Node, known: Anchored): Option<Machine>
    requires Bounded(m)
  {
    var x := Expand(n, known);
    if x.None? then None
    else Fit(m, Size(x.value.tree), Depth(x.value.tree), Nesting(n), Weights(x.value.known))
  }

  function MeasuredAll(m: Machine, ns: seq<Node>, known: Anchored): Option<Machine>
    requires Bounded(m)
  {
    var x := ExpandAll(ns, known);
    if x.None? then None
    else Fit(m, SizeOf(x.value.trees), DepthOf(x.value.trees), NestingOf(ns), Weights(x.value.known))
  }

  lemma RememberKnow(known: Anchored, anchor: string, t: Tree)
    ensures Remember(Weights(known), anchor, Weight(Size(t), Depth(t))) == Weights(Know(known, anchor, t))
  {}

  lemma {:induction false} RunNode(m: Machine, n: Node, known: Anchored)
    requires Bounded(m) && m.anchors == Weights(known) && |m.frames| <= MAX_DEPTH
    ensures Run(m, Events(n)) == Measured(m, n, known)
    decreases n, 0
  {
    match n
    case ScalarNode(anchor) =>
      RememberKnow(known, anchor, Leaf);
      RunOne(m, ScalarEvent(anchor));
    case AliasNode(name) =>
      RunOne(m, AliasEvent(name));
    case Collection(anchor, children) =>
      RunCollection(m, anchor, children, known);
  }

  lemma RunOne(m: Machine, e: Event)
    requires Bounded(m)
    ensures Run(m, [e]) == Step(m, e)
  {
    var next := Step(m, e);
    assert [e][1..] == [];
    if next.Some? { assert Run(next.value, []) == next; }
  }

  lemma {:induction false} RunCollection(m: Machine, anchor: string, children: seq<Node>, known: Anchored)
    requires Bounded(m) && m.anchors == Weights(known) && |m.frames| <= MAX_DEPTH
    ensures Run(m, [Start(anchor)] + EventsOf(children) + [End]) == Measured(m, Collection(anchor, children), known)
    decreases children, 2
  {
    RunConcat(m, [Start(anchor)] + EventsOf(children), [End]);
    RunConcat(m, [Start(anchor)], EventsOf(children));
    RunOne(m, Start(anchor));
    var inside := Step(m, Start(anchor));
    if inside.Some? {
      RunNodes(inside.value, children, known);
      var body := MeasuredAll(inside.value, children, known);
      if body.Some? {
        RunOne(body.value, End);
        CloseCollection(m, anchor, children, known, body.value);
      }
    }
  }

  lemma CloseCollection(m: Machine, anchor: string, children: seq<Node>, known: Anchored, body: Machine)
    requires Bounded(m) && m.anchors == Weights(known) && |m.frames| < MAX_DEPTH
    requires Bounded(body) && MeasuredAll(m.(frames := m.frames + [Frame(anchor, 1, 0)]), children, known) == Some(body)
    ensures Step(body, End) == Measured(m, Collection(anchor, children), known)
  {
    var x := ExpandAll(children, known).value;
    var t := Branch(x.trees);
    RememberKnow(x.known, anchor, t);
    var f := Frame(anchor, Size(t), DepthOf(x.trees));
    AddedInside(m, Frame(anchor, 1, 0), SizeOf(x.trees), DepthOf(x.trees));
    assert body == Machine(Weights(x.known), m.frames + [f], m.documentCost);
    CloseFrame(m, Weights(x.known), f, Weights(Know(x.known, anchor, t)));
  }

  lemma AddedInside(m: Machine, f: Frame, size: nat, depth: nat)
    ensures Added(m.(frames := m.frames + [f]), size, depth).frames
         == m.frames + [f.(cost := f.cost + size, childDepth := Max(f.childDepth, depth))]
  {}

  lemma CloseFrame(m: Machine, anchors: map<string, Weight>, f: Frame, after: map<string, Weight>)
    requires Bounded(m) && f.cost <= MAX_NODES && after == Remember(anchors, f.anchor, Weight(f.cost, 1 + f.childDepth))
    ensures Bounded(Machine(anchors, m.frames + [f], m.documentCost))
    ensures Step(Machine(anchors, m.frames + [f], m.documentCost), End)
         == if f.cost <= Room(m) && 1 + f.childDepth <= MAX_DEPTH
            then Some(Added(m, f.cost, 1 + f.childDepth).(anchors := after)) else None
  {
    hide Remember;
    assert (m.frames + [f])[..|m.frames + [f]| - 1] == m.frames;
  }

  /** Fitting two trees in is fitting in one, then the other. */
  lemma FitTwice(m: Machine, size: nat, depth: nat, nesting: nat, anchors: map<string, Weight>,
                 size': nat, depth': nat, nesting': nat, anchors': map<string, Weight>)
    requires Bounded(m)
    ensures var first := Fit(m, size, depth, nesting, anchors);
            Fit(m, size + size', Max(depth, depth'), Max(nesting, nesting'), anchors')
            == if first.None? then None else Fit(first.value, size', depth', nesting', anchors')
  {
    var first := Fit(m, size, depth, nesting, anchors);
    if first.Some? {
      assert Added(first.value, size', depth').frames == Added(m, size + size', Max(depth, depth')).frames;
    }
  }

  lemma SizesSplit(t: Tree, ts: seq<Tree>)
    ensures SizeOf([t] + ts) == Size(t) + SizeOf(ts) && DepthOf([t] + ts) == Max(Depth(t), DepthOf(ts))
  {
    assert ([t] + ts)[1..] == ts;
  }

  /** Measuring a list is measuring its first node, then the rest. */
  lemma MeasuredSplit(m: Machine, ns: seq<Node>, known: Anchored, x: Expansion)
    requires Bounded(m) && ns != [] && Expand(ns[0], known) == Some(x)
    ensures var head := Measured(m, ns[0], known);
            if head.None? then MeasuredAll(m, ns, known).None?
            else MeasuredAll(m, ns, known) == MeasuredAll(head.value, ns[1..], x.known)
  {
    var tail := ExpandAll(ns[1..], x.known);
    if tail.Some? {
      var trees, known' := tail.value.trees, tail.value.known;
      SizesSplit(x.tree, trees);
      FitTwice(m, Size(x.tree), Depth(x.tree), Nesting(ns[0]), Weights(x.known),
               SizeOf(trees), DepthOf(trees), NestingOf(ns[1..]), Weights(known'));
    }
  }

  lemma {:induction false} RunNodes(m: Machine, ns: seq<Node>, known: Anchored)
    requires Bounded(m) && m.anchors == Weights(known) && |m.frames| <= MAX_DEPTH
    ensures Run(m, EventsOf(ns)) == MeasuredAll(m, ns, known)
    decreases ns, 1
  {
    if ns == [] {
      assert Added(m, 0, 0) == m;
    } else {
      RunConcat(m, Events(ns[0]), EventsOf(ns[1..]));
      RunNode(m, ns[0], known);
      var x := Expand(ns[0], known);
      if x.Some? {
        MeasuredSplit(m, ns, known, x.value);
        var head := Measured(m, ns[0], known);
        if head.Some? { RunNodes(head.value, ns[1..], x.value.known); }
      }
    }
  }

  lemma {:induction false} NestingExpands(n: Node, known: Anchored)
    requires Expand(n, known).Some?
    ensures Nesting(n) <= Depth(Expand(n, known).value.tree)
    decreases n, 0
  {
    match n
    case Collection(_, children) => NestingExpandsAll(children, known);
    case _ =>
  }

  lemma {:induction false} NestingExpandsAll(ns: seq<Node>, known: Anchored)
    requires ExpandAll(ns, known).Some?
    ensures NestingOf(ns) <= DepthOf(ExpandAll(ns, known).value.trees)
    decreases ns, 1
  {
    if ns != [] {
      NestingExpands(ns[0], known);
      NestingExpandsAll(ns[1..], Expand(ns[0], known).value.known);
    }
  }

  /** The parser's events for a stream that holds these documents. */
  function Stream(docs: seq<Node>): seq<Event> { [Other] + Documents(docs) + [Other] }

  function Documents(docs: seq<Node>): seq<Event> {
    if docs == [] then [] else [Other] + Events(docs[0]) + [Other] + Documents(docs[1..])
  }

  lemma RunOther(m: Machine, events: seq<Event>)
    requires Bounded(m)
    ensures Run(m, [Other] + events + [Other]) == Run(m, events)
  {
    RunConcat(m, [Other] + events, [Other]);
    RunConcat(m, [Other], events);
    RunOne(m, Other);
    if Run(m, events).Some? { RunOne(Run(m, events).value, Other); }
  }

  lemma {:induction false} RunDocuments(m: Machine, docs: seq<Node>)
    requires Bounded(m)
    ensures Run(m, Documents(docs)) == Run(m, EventsOf(docs))
    decreases |docs|
  {
    if docs != [] {
      RunConcat(m, [Other] + Events(docs[0]) + [Other], Documents(docs[1..]));
      RunConcat(m, Events(docs[0]), EventsOf(docs[1..]));
      RunOther(m, Events(docs[0]));
      var head := Run(m, Events(docs[0]));
      if head.Some? { RunDocuments(head.value, docs[1..]); }
    }
  }

  /**
   The one pass accepts a stream exactly when every alias names a node completed
   before it, the fully expanded documents have at most 100,000 nodes together
   and none of them nests deeper than 100.
   */
  lemma AcceptsExactly(docs: seq<Node>)
    ensures Run(START, Stream(docs)).Some? <==>
            var x := ExpandAll(docs, map[]);
            x.Some? && SizeOf(x.value.trees) <= MAX_NODES && DepthOf(x.value.trees) <= MAX_DEPTH
  {
    RunOther(START, Documents(docs));
    RunDocuments(START, docs);
    assert START.anchors == Weights(map[]);
    RunNodes(START, docs, map[]);
    if ExpandAll(docs, map[]).Some? { NestingExpandsAll(docs, map[]); }
  }

  /** The same for the usual single document. */
  lemma AcceptsDocument(doc: Node)
    ensures Run(START, Stream([doc])).Some? <==>
            var x := Expand(doc, map[]);
            x.Some? && Size(x.value.tree) <= MAX_NODES && Depth(x.value.tree) <= MAX_DEPTH
  {
    AcceptsExactly([doc]);
    if Expand(doc, map[]).Some? {
      var x := Expand(doc, map[]).value;
      assert ExpandAll([doc][1..], x.known) == Some(Expansions([], x.known));
      assert [doc][0] == doc && [x.tree] + [] == [x.tree];
      assert ExpandAll([doc], map[]) == Some(Expansions([x.tree], x.known));
    }
  }
}
