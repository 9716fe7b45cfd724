/**
 Ordered deployment fallback: after a failure the request moves to a peer of the
 same order, then to the next higher order, then wraps to the lowest.
 */
module Fallback {
  import opened Wrappers

  /** A deployment; its id is none if it is missing or blank, and the settings are all that is not looked at here. */
  datatype Deployment = Deployment(id: Option<string>, order: Option<real>, settings: string)

  /**
   What the exception says about the failed attempt.  A refused one is answered by no
   other deployment: a terminal prompt or policy error, a request without a known model
   group, or an image tool that no deployment supports.
   */
  datatype Failure = Failed(id: Option<string>, order: Option<real>, noDeployments: bool, refused: bool)

  /** The retry the request is given: an order, what it must avoid and what it may use. */
  datatype Entry = Entry(targetOrder: real, excluded: set<string>, verified: seq<string>)

  predicate Excluded(d: Deployment, excluded: set<string>) { d.id.Some? && d.id.value in excluded }

  /** Deployments that are neither cooling down (nor otherwise unusable) nor excluded. */
  function Available(all: seq<Deployment>, unusable: set<Deployment>, excluded: set<string>): seq<Deployment> {
    if all == [] then []
    else (if all[0] in unusable || Excluded(all[0], excluded) then [] else [all[0]])
         + Available(all[1..], unusable, excluded)
  }

  function OfOrder(ds: seq<Deployment>, order: real): seq<Deployment> {
    if ds == [] then [] else (if ds[0].order == Some(order) then [ds[0]] else []) + OfOrder(ds[1..], order)
  }

  function Ids(ds: seq<Deployment>): seq<string> {
    if ds == [] then []
    else (if ds[0].id.Some? then [ds[0].id.value] else []) + Ids(ds[1..])
  }

  /** The ids of these deployments, as a set. */
  function IdSet(ds: seq<Deployment>): set<string> {
    if ds == [] then {} else (if ds[0].id.Some? then {ds[0].id.value} else {}) + IdSet(ds[1..])
  }

  function WithIds(ds: seq<Deployment>, ids: seq<string>): seq<Deployment> {
    if ds == [] then []
    else (if ds[0].id.Some? && ds[0].id.value in ids then [ds[0]] else []) + WithIds(ds[1..], ids)
  }

  /** Strictly increasing, so without repeats. */
  predicate Sorted(orders: seq<real>) { forall i, j | 0 <= i < j < |orders| :: orders[i] < orders[j] }

  function Insert(x: real, orders: seq<real>): seq<real> {
    if orders == [] || x < orders[0] then [x] + orders
    else if x == orders[0] then orders
    else [orders[0]] + Insert(x, orders[1..])
  }

  /** The distinct orders, ascending. */
  function Orders(ds: seq<Deployment>): seq<real> {
    if ds == [] then []
    else if ds[0].order.Some? then Insert(ds[0].order.value, Orders(ds[1..])) else Orders(ds[1..])
  }

  // ---- what these lists hold ----

  lemma {:induction false} AvailableHas(all: seq<Deployment>, unusable: set<Deployment>, excluded: set<string>, d: Deployment)
    ensures d in Available(all, unusable, excluded) <==> d in all && d !in unusable && !Excluded(d, excluded)
    decreases |all|
  {
    if all != [] { AvailableHas(all[1..], unusable, excluded, d); }
  }

  lemma {:induction false} OfOrderHas(ds: seq<Deployment>, order: real, d: Deployment)
    ensures d in OfOrder(ds, order) <==> d in ds && d.order == Some(order)
    decreases |ds|
  {
    if ds != [] { OfOrderHas(ds[1..], order, d); }
  }

  lemma {:induction false} WithIdsHas(ds: seq<Deployment>, ids: seq<string>, d: Deployment)
    ensures d in WithIds(ds, ids) <==> d in ds && d.id.Some? && d.id.value in ids
    decreases |ds|
  {
    if ds != [] { WithIdsHas(ds[1..], ids, d); }
  }

  lemma {:induction false} IdsHave(ds: seq<Deployment>, x: string)
    ensures x in Ids(ds) <==> exists d :: d in ds && d.id == Some(x)
    decreases |ds|
  {
    if ds != [] {
      IdsHave(ds[1..], x);
      assert forall d :: d in ds <==> d == ds[0] || d in ds[1..];
    }
  }

  lemma {:induction false} IdSetHas(ds: seq<Deployment>, x: string)
    ensures x in IdSet(ds) <==> exists d :: d in ds && d.id == Some(x)
    decreases |ds|
  {
    if ds != [] {
      IdSetHas(ds[1..], x);
      assert forall d :: d in ds <==> d == ds[0] || d in ds[1..];
    }
  }

  lemma {:induction false} IdSetAppend(ds: seq<Deployment>, d: Deployment)
    ensures IdSet(ds + [d]) == IdSet(ds) + if d.id.Some? then {d.id.value} else {}
    decreases |ds|
  {
    if ds == [] {
      assert ds + [d] == [d];
      assert IdSet([d][1..]) == {};
    } else {
      assert (ds + [d])[1..] == ds[1..] + [d];
      IdSetAppend(ds[1..], d);
    }
  }

  lemma {:induction false} InsertHas(x: real, orders: seq<real>)
    requires Sorted(orders)
    ensures Sorted(Insert(x, orders)) && forall y :: y in Insert(x, orders) <==> y == x || y in orders
    decreases |orders|
  {
    if orders != [] {
      var first, rest := orders[0], orders[1..];
      assert orders == [first] + rest;
      if x > first {
        InsertHas(x, rest);
        SortedFirst(first, Insert(x, rest));
      } else if x < first {
        SortedFirst(x, orders);
      }
    }
  }

  lemma SortedFirst(first: real, rest: seq<real>)
    requires Sorted(rest) && forall y | y in rest :: first < y
    ensures Sorted([first] + rest)
  {
    var all := [first] + rest;
    forall i, j | 0 <= i < j < |all| ensures all[i] < all[j] {
      assert all[j] == rest[j - 1] && rest[j - 1] in rest;
    }
  }

  lemma {:induction false} OrdersHave(ds: seq<Deployment>)
    ensures Sorted(Orders(ds)) && forall x :: x in Orders(ds) <==> exists d :: d in ds && d.order == Some(x)
    decreases |ds|
  {
    if ds != [] {
      OrdersHave(ds[1..]);
      assert forall d :: d in ds <==> d == ds[0] || d in ds[1..];
      if ds[0].order.Some? { InsertHas(ds[0].order.value, Orders(ds[1..])); }
    }
  }

  // ---- the next order ----

  /** The least order above the failed one, else the least one below it. */
  ghost predicate IsNext(orders: seq<real>, failed: real, next: Option<real>) {
    match next
    case Some(n) =>
      n in orders && n != failed
      && (n > failed ==> forall o | o in orders && o > failed :: n <= o)
      && (n < failed ==> forall o | o in orders :: o <= failed && n <= o)
    case None => forall o | o in orders :: o == failed
  }

  /** There is at most one next order. */
  lemma NextUnique(orders: seq<real>, failed: real, a: Option<real>, b: Option<real>)
    requires IsNext(orders, failed, a) && IsNext(orders, failed, b)
    ensures a == b
  {
    if a.Some? && b.Some? {
      assert a.value in orders && b.value in orders;
    }
  }

  lemma {:induction false} NextExists(orders: seq<real>, failed: real) returns (next: Option<real>)
    requires Sorted(orders)
    ensures IsNext(orders, failed, next)
    decreases |orders|
  {
    next := None;
    if orders != [] {
      var n := |orders| - 1;
      assert orders == orders[..n] + [orders[n]];
      if orders[n] > failed {
        next := NextExists(orders[..n], failed);
        if next.None? || next.value < failed { next := Some(orders[n]); }
      } else if orders[0] < failed {
        next := Some(orders[0]);
      }
    }
  }

  /** The two loops of the source over the sorted orders. */
  method NextOrder(orders: seq<real>, failed: real) returns (next: Option<real>, wrapped: bool)
    requires Sorted(orders)
    ensures IsNext(orders, failed, next)
    ensures wrapped <==> next.Some? && next.value < failed
  {
    next, wrapped := None, false;
    var i := 0;
    while i < |orders|
      invariant 0 <= i <= |orders| && next.None?
      invariant forall k | 0 <= k < i :: orders[k] <= failed
    {
      if orders[i] > failed {
        next := Some(orders[i]);
        break;
      }
      i := i + 1;
    }
    if next.None? {
      i := 0;
      while i < |orders|
        invariant 0 <= i <= |orders| && next.None? && !wrapped
        invariant forall k | 0 <= k < i :: orders[k] == failed
      {
        if orders[i] < failed {
          next, wrapped := Some(orders[i]), true;
          break;
        }
        i := i + 1;
      }
    }
  }

  // ---- one fallback decision ----

  /** The decision the source promises, as a relation between the failed request and the entry it gets. */
  ghost predicate Decides(all: seq<Deployment>, unusable: set<Deployment>, excluded: set<string>,
                          surfaceDeployment: Option<string>, failed: Failure, entry: Option<Entry>)
    requires failed.order.Some?
  {
    var order := failed.order.value;
    var known := failed.id.Some? || NamesExcluded(excluded, surfaceDeployment, failed);
    var excluded' := if failed.id.Some? then excluded + {failed.id.value} else excluded;
    var available := Available(all, unusable, excluded');
    var constrained := failed.noDeployments
      && exists d :: d in all && d.order == failed.order && Excluded(d, excluded');
    var peers := if known || constrained then OfOrder(available, order) else [];
    if peers != [] then entry == Some(Entry(order, excluded', Ids(peers)))
    else
      match entry
      case Some(e) =>
        IsNext(Orders(available), order, Some(e.targetOrder)) && e.excluded == excluded'
        && e.verified == Ids(OfOrder(available, e.targetOrder))
      case None => IsNext(Orders(available), order, None)
  }

  /** A decision is determined by the failure and by what the request avoids. */
  lemma DecisionUnique(all: seq<Deployment>, unusable: set<Deployment>, excluded: set<string>,
                       surface: Option<string>, failed: Failure, a: Option<Entry>, b: Option<Entry>)
    requires failed.order.Some?
    requires Decides(all, unusable, excluded, surface, failed, a) && Decides(all, unusable, excluded, surface, failed, b)
    ensures a == b
  {
    var excluded' := if failed.id.Some? then excluded + {failed.id.value} else excluded;
    var orders := Orders(Available(all, unusable, excluded'));
    var order := failed.order.value;
    if IsNext(orders, order, if a.Some? then Some(a.value.targetOrder) else None)
       && IsNext(orders, order, if b.Some? then Some(b.value.targetOrder) else None) {
      NextUnique(orders, order, if a.Some? then Some(a.value.targetOrder) else None,
                 if b.Some? then Some(b.value.targetOrder) else None);
    }
  }

  /** A request that ran out of deployments after an excluded one counts as a known failure. */
  predicate NamesExcluded(excluded: set<string>, surfaceDeployment: Option<string>, failed: Failure) {
    failed.id.None? && failed.noDeployments && surfaceDeployment.Some? && surfaceDeployment.value in excluded
  }

  /** The routing state that travels with a request. */
  class FallbackRequest {
    var excluded: set<string>
    var targetOrder: Option<real>
    var surfaceDeployment: Option<string>
    var surfaceTarget: Option<string>
    var verified: seq<string>

    constructor ()
      ensures excluded == {} && targetOrder == None && surfaceDeployment == None && surfaceTarget == None
      ensures verified == []
    {
      excluded, targetOrder, surfaceDeployment, surfaceTarget, verified := {}, None, None, None, [];
    }

    /** The order the failure is charged to: the exception's own, or the target of an exhausted pool. */
    function ChargedOrder(failed: Failure): Option<real>
      reads this
    {
      if failed.order.None? && failed.noDeployments then targetOrder else failed.order
    }

    /** The deployments routing may pick from: what the request demands and no cooldown forbids. */
    function Pool(all: seq<Deployment>, unusable: set<Deployment>): seq<Deployment>
      reads this
    {
      var open := Available(all, unusable, excluded);
      var ofOrder := if targetOrder.Some? then OfOrder(open, targetOrder.value) else open;
      var ofIds := if verified == [] then ofOrder else WithIds(ofOrder, verified);
      if surfaceTarget.Some? then WithIds(ofIds, [surfaceTarget.value]) else ofIds
    }

    /**
     Choose the next attempt and write it into the request.  A protocol switch
     keeps the deployment that failed; otherwise the failed deployment is excluded.
     */
    method Advance(all: seq<Deployment>, unusable: set<Deployment>, failed: Failure, protocolSwitch: Option<string>)
        returns (entry: Option<Entry>)
      modifies this
      ensures var order := old(ChargedOrder(failed));
              if failed.refused || order.None? then entry == None && unchanged(this)
              else if protocolSwitch.Some? then
                entry == Some(Entry(order.value, old(excluded) - {protocolSwitch.value}, []))
                && surfaceTarget == surfaceDeployment == protocolSwitch
              else
                surfaceTarget == None && surfaceDeployment == old(surfaceDeployment)
                && Decides(all, unusable, old(excluded), old(surfaceDeployment), failed.(order := order), entry)
      ensures entry.Some? ==>
                targetOrder == Some(entry.value.targetOrder) && excluded == entry.value.excluded
                && verified == entry.value.verified
      ensures entry.None? ==>
                targetOrder == old(targetOrder) && excluded == old(excluded) && verified == old(verified)
    {
      var order := ChargedOrder(failed);
      if failed.refused || order.None? {
        return None;
      }
      if protocolSwitch.Some? {
        surfaceDeployment, surfaceTarget := protocolSwitch, protocolSwitch;
        excluded := excluded - {protocolSwitch.value};
        targetOrder, verified := order, [];
        return Some(Entry(order.value, excluded, []));
      }
      surfaceTarget := None;
      var known := failed.id.Some? || NamesExcluded(excluded, surfaceDeployment, failed);
      var excluded' := if failed.id.Some? then excluded + {failed.id.value} else excluded;
      var available := Available(all, unusable, excluded');
      var constrained := failed.noDeployments
        && exists i | 0 <= i < |all| :: all[i].order == order && Excluded(all[i], excluded');
      var peers := if known || constrained then OfOrder(available, order.value) else [];
      if peers != [] {
        entry := Some(Entry(order.value, excluded', Ids(peers)));
      } else {
        OrdersHave(available);
        var next, wrapped := NextOrder(Orders(available), order.value);
        if next.None? {
          return None;
        }
        entry := Some(Entry(next.value, excluded', Ids(OfOrder(available, next.value))));
      }
      targetOrder, excluded, verified := Some(entry.value.targetOrder), entry.value.excluded, entry.value.verified;
    }
  }

  // ---- what the router may pick ----

  /** Deployments that pass the target order, the exclusions, the verified ids and the cooldowns. */
  function Candidates(all: seq<Deployment>, unusable: set<Deployment>, e: Entry): seq<Deployment> {
    var open := OfOrder(Available(all, unusable, e.excluded), e.targetOrder);
    if e.verified == [] then open else WithIds(open, e.verified)
  }

  lemma CandidatesHave(all: seq<Deployment>, unusable: set<Deployment>, e: Entry, d: Deployment)
    ensures d in Candidates(all, unusable, e)
       <==> Usable(all, unusable, d) && !Excluded(d, e.excluded) && d.order == Some(e.targetOrder)
            && (e.verified == [] || (d.id.Some? && d.id.value in e.verified))
  {
    var available := Available(all, unusable, e.excluded);
    AvailableHas(all, unusable, e.excluded, d);
    OfOrderHas(available, e.targetOrder, d);
    WithIdsHas(OfOrder(available, e.targetOrder), e.verified, d);
  }

  // ---- whole runs ----

  /** A deployment that a fallback may go to: it has an order and does not cool down. */
  predicate Usable(all: seq<Deployment>, unusable: set<Deployment>, d: Deployment) {
    d in all && d !in unusable && d.order.Some?
  }

  function FailureOf(d: Deployment): Failure { Failed(d.id, d.order, false, false) }

  /** The decision after every deployment of the run has failed in turn. */
  ghost predicate DecidesAfter(all: seq<Deployment>, unusable: set<Deployment>, run: seq<Deployment>, entry: Option<Entry>)
    requires run != [] && run[|run| - 1].order.Some?
  {
    var n := |run| - 1;
    Decides(all, unusable, IdSet(run[..n]), None, FailureOf(run[n]), entry)
  }

  /** d may be tried after the run. */
  ghost predicate Follows(all: seq<Deployment>, unusable: set<Deployment>, run: seq<Deployment>, d: Deployment)
    requires run != [] && run[|run| - 1].order.Some?
  {
    exists e :: DecidesAfter(all, unusable, run, Some(e)) && d in Candidates(all, unusable, e)
  }

  /** A run: any first deployment, then only what the decisions allow. */
  ghost predicate IsRun(all: seq<Deployment>, unusable: set<Deployment>, run: seq<Deployment>) {
    run != [] && (forall d | d in run :: d in all) && (|run| > 1 ==> Ordered(run)) && Chained(all, unusable, run)
  }

  ghost predicate Chained(all: seq<Deployment>, unusable: set<Deployment>, run: seq<Deployment>)
    decreases |run|
  {
    |run| <= 1 ||
    var n := |run| - 1;
    Chained(all, unusable, run[..n]) && run[n - 1].order.Some? && Follows(all, unusable, run[..n], run[n])
  }

  function OrderOf(d: Deployment): real
    requires d.order.Some?
  {
    d.order.value
  }

  predicate NoRepeats(run: seq<Deployment>) { forall i, j | 0 <= i < j < |run| :: run[i] != run[j] }

  predicate Ordered(ds: seq<Deployment>) { forall d | d in ds :: d.order.Some? }

  /** Every usable deployment has been tried. */
  predicate Exhausts(all: seq<Deployment>, unusable: set<Deployment>, run: seq<Deployment>) {
    forall d | d in all && Usable(all, unusable, d) :: d in run
  }

  // ---- one step of a run ----

  /** The decision after a run, with its exclusions spelled out. */
  lemma DecisionAfter(all: seq<Deployment>, unusable: set<Deployment>, run: seq<Deployment>, entry: Option<Entry>)
    requires run != [] && run[|run| - 1].order.Some? && DecidesAfter(all, unusable, run, entry)
    ensures var last, available := run[|run| - 1], Available(all, unusable, IdSet(run));
            var peers := if last.id.Some? then OfOrder(available, OrderOf(last)) else [];
            if peers != [] then entry == Some(Entry(OrderOf(last), IdSet(run), Ids(peers)))
            else
              match entry
              case Some(e) => IsNext(Orders(available), OrderOf(last), Some(e.targetOrder)) && e.excluded == IdSet(run)
                              && e.verified == Ids(OfOrder(available, e.targetOrder))
              case None => IsNext(Orders(available), OrderOf(last), None)
  {
    RunIds(run);
  }

  lemma RunIds(run: seq<Deployment>)
    requires run != []
    ensures var n := |run| - 1;
            IdSet(run) == if run[n].id.Some? then IdSet(run[..n]) + {run[n].id.value} else IdSet(run[..n])
  {
    var n := |run| - 1;
    IdSetAppend(run[..n], run[n]);
    assert run[..n] + [run[n]] == run && IdSet(run[..n]) + {} == IdSet(run[..n]);
  }

  /** After every run there is a decision. */
  lemma DecisionExists(all: seq<Deployment>, unusable: set<Deployment>, run: seq<Deployment>) returns (entry: Option<Entry>)
    requires run != [] && run[|run| - 1].order.Some?
    ensures DecidesAfter(all, unusable, run, entry)
  {
    var last, available := run[|run| - 1], Available(all, unusable, IdSet(run));
    var peers := if last.id.Some? then OfOrder(available, OrderOf(last)) else [];
    RunIds(run);
    if peers != [] {
      entry := Some(Entry(OrderOf(last), IdSet(run), Ids(peers)));
    } else {
      OrdersHave(available);
      var next := NextExists(Orders(available), OrderOf(last));
      entry := if next.None? then None
               else Some(Entry(next.value, IdSet(run), Ids(OfOrder(available, next.value))));
    }
  }

  /** What an entry after a run says; its order is that of the run's end only if the end has an id. */
  lemma EntryAfter(all: seq<Deployment>, unusable: set<Deployment>, run: seq<Deployment>, e: Entry)
    requires run != [] && run[|run| - 1].order.Some? && DecidesAfter(all, unusable, run, Some(e))
    ensures e.excluded == IdSet(run)
    ensures e.verified == Ids(OfOrder(Available(all, unusable, IdSet(run)), e.targetOrder))
    ensures OfOrder(Available(all, unusable, IdSet(run)), e.targetOrder) != []
    ensures run[|run| - 1].order == Some(e.targetOrder) ==> run[|run| - 1].id.Some?
  {
    DecisionAfter(all, unusable, run, Some(e));
    ChosenNotEmpty(Available(all, unusable, IdSet(run)), e.targetOrder);
  }

  lemma ChosenNotEmpty(available: seq<Deployment>, order: real)
    ensures order in Orders(available) <==> OfOrder(available, order) != []
  {
    OrdersHave(available);
    if order in Orders(available) {
      var d :| d in available && d.order == Some(order);
      OfOrderHas(available, order, d);
    }
    if OfOrder(available, order) != [] {
      OfOrderHas(available, order, OfOrder(available, order)[0]);
    }
  }

  /** Whenever there is an entry, there is something to try. */
  lemma SomethingToTry(all: seq<Deployment>, unusable: set<Deployment>, run: seq<Deployment>, e: Entry)
    requires run != [] && run[|run| - 1].order.Some? && DecidesAfter(all, unusable, run, Some(e))
    ensures Candidates(all, unusable, e) != [] && e.excluded == IdSet(run)
    ensures forall d | d in Candidates(all, unusable, e) ::
              Usable(all, unusable, d) && !Excluded(d, IdSet(run)) && Follows(all, unusable, run, d)
  {
    EntryAfter(all, unusable, run, e);
    var chosen := OfOrder(Available(all, unusable, e.excluded), e.targetOrder);
    if e.verified != [] {
      var x := e.verified[0];
      IdsHave(chosen, x);
      var d :| d in chosen && d.id == Some(x);
      WithIdsHas(chosen, e.verified, d);
    }
    forall d | d in Candidates(all, unusable, e)
      ensures Usable(all, unusable, d) && !Excluded(d, IdSet(run)) && Follows(all, unusable, run, d) {
      CandidatesHave(all, unusable, e, d);
    }
  }

  lemma FollowerFits(all: seq<Deployment>, unusable: set<Deployment>, run: seq<Deployment>, d: Deployment) returns (e: Entry)
    requires run != [] && run[|run| - 1].order.Some? && Follows(all, unusable, run, d)
    ensures DecidesAfter(all, unusable, run, Some(e)) && d in Candidates(all, unusable, e)
    ensures Usable(all, unusable, d) && !Excluded(d, IdSet(run)) && d.order == Some(e.targetOrder)
    ensures d.order == run[|run| - 1].order ==> run[|run| - 1].id.Some?
  {
    e :| DecidesAfter(all, unusable, run, Some(e)) && d in Candidates(all, unusable, e);
    EntryAfter(all, unusable, run, e);
    CandidatesHave(all, unusable, e, d);
  }

  lemma ExtendRun(all: seq<Deployment>, unusable: set<Deployment>, run: seq<Deployment>, d: Deployment)
    requires IsRun(all, unusable, run) && run[|run| - 1].order.Some? && Follows(all, unusable, run, d)
    ensures Usable(all, unusable, d) && IsRun(all, unusable, run + [d])
  {
    var e := FollowerFits(all, unusable, run, d);
    assert (run + [d])[..|run|] == run;
    forall x | x in run + [d] ensures x in all && x.order.Some? {
      if |run| == 1 && x in run { assert x == run[0]; }
    }
  }

  lemma RunWithin(all: seq<Deployment>, unusable: set<Deployment>, run: seq<Deployment>)
    requires IsRun(all, unusable, run)
    ensures forall d | d in run :: d in all
    ensures run[0].order.Some? ==> Ordered(run) && run[|run| - 1].order.Some?
    ensures |run| > 1 ==> run[0].order.Some? && run[|run| - 1].order.Some?
  {
    assert run[0] in run && run[|run| - 1] in run;
  }

  lemma RunFront(all: seq<Deployment>, unusable: set<Deployment>, run: seq<Deployment>, front: seq<Deployment>,
                 last: Deployment)
    requires IsRun(all, unusable, run) && |run| > 1 && front == run[..|run| - 1] && last == run[|run| - 1]
    ensures run == front + [last] && Ordered(front) && IsRun(all, unusable, front)
    ensures front[|front| - 1].order.Some? && Follows(all, unusable, front, last)
  {
    FrontWithin(all, run, front);
    ChainedFront(all, unusable, run, front, last, front[|front| - 1]);
  }

  lemma FrontWithin(all: seq<Deployment>, run: seq<Deployment>, front: seq<Deployment>)
    requires Ordered(run) && (forall d | d in run :: d in all) && |run| > 1 && front == run[..|run| - 1]
    ensures Ordered(front) && (forall d | d in front :: d in all) && front[|front| - 1].order.Some?
  {
    forall d | d in front ensures d in all && d.order.Some? { assert d in run; }
    assert front[|front| - 1] in front;
  }

  lemma ChainedFront(all: seq<Deployment>, unusable: set<Deployment>, run: seq<Deployment>, front: seq<Deployment>,
                     last: Deployment, here: Deployment)
    requires Chained(all, unusable, run) && |run| > 1 && front == run[..|run| - 1] && last == run[|run| - 1]
    requires here == front[|front| - 1] && here.order.Some?
    ensures run == front + [last] && Chained(all, unusable, front) && Follows(all, unusable, front, last)
  {
    hide Follows;
  }

  /** All but the first deployment of a run are usable. */
  lemma LastUsable(all: seq<Deployment>, unusable: set<Deployment>, run: seq<Deployment>)
    requires IsRun(all, unusable, run) && |run| > 1
    ensures Usable(all, unusable, run[|run| - 1])
  {
    RunFront(all, unusable, run, run[..|run| - 1], run[|run| - 1]);
    var e := FollowerFits(all, unusable, run[..|run| - 1], run[|run| - 1]);
  }

  // ---- when every usable deployment is tried once ----

  /** No usable deployment has the id of another one with an order. */
  predicate NoneShared(all: seq<Deployment>, unusable: set<Deployment>) {
    forall d, x | d in all && x in all && d.order.Some? && Usable(all, unusable, x) && d != x :: d.id.Some? ==> d.id != x.id
  }

  /**
   A deployment with an order but without an id is the only usable one, or is not
   usable and one that is has another order, or none is.
   */
  predicate NoneStranded(all: seq<Deployment>, unusable: set<Deployment>) {
    forall d, x | d in all && x in all && d.order.Some? && d.id.None? && Usable(all, unusable, x) && d != x ::
      d in unusable && exists y :: y in all && Usable(all, unusable, y) && y.order != d.order
  }

  /** What fallback needs to know of the deployments. */
  predicate Identifies(all: seq<Deployment>, unusable: set<Deployment>) {
    NoneShared(all, unusable) && NoneStranded(all, unusable)
  }

  /** No run repeats a deployment, and none stops before every usable one was tried. */
  ghost predicate TriesAll(all: seq<Deployment>, unusable: set<Deployment>) {
    forall run: seq<Deployment> | IsRun(all, unusable, run) && run[0].order.Some? :: TriedAll(all, unusable, run)
  }

  ghost predicate TriedAll(all: seq<Deployment>, unusable: set<Deployment>, run: seq<Deployment>)
    requires run != []
  {
    && NoRepeats(run)
    && (run[|run| - 1].order.Some? && DecidesAfter(all, unusable, run, None) ==> Exhausts(all, unusable, run))
  }

  lemma FollowerNew(all: seq<Deployment>, unusable: set<Deployment>, run: seq<Deployment>, d: Deployment)
    requires NoneStranded(all, unusable) && IsRun(all, unusable, run) && run[|run| - 1].order.Some?
    requires Follows(all, unusable, run, d)
    ensures d !in run
  {
    var e := FollowerFits(all, unusable, run, d);
    if d in run {
      if d.id.Some? {
        IdSetHas(run, d.id.value);
      } else if |run| > 1 {
        LastUsable(all, unusable, run);
      }
    }
  }

  lemma {:induction false} RunsNew(all: seq<Deployment>, unusable: set<Deployment>, run: seq<Deployment>)
    requires NoneStranded(all, unusable) && IsRun(all, unusable, run)
    ensures NoRepeats(run)
    decreases |run|
  {
    if |run| > 1 {
      var front, last := run[..|run| - 1], run[|run| - 1];
      RunFront(all, unusable, run, front, last);
      RunsNew(all, unusable, front);
      FollowerNew(all, unusable, front, last);
    }
  }

  /** A usable deployment that was not tried is still available. */
  lemma LeftAvailable(all: seq<Deployment>, unusable: set<Deployment>, run: seq<Deployment>, x: Deployment)
    requires NoneShared(all, unusable) && (forall d | d in run :: d in all) && Ordered(run)
    requires Usable(all, unusable, x) && x !in run
    ensures x in Available(all, unusable, IdSet(run))
  {
    AvailableHas(all, unusable, IdSet(run), x);
    if x.id.Some? {
      IdSetHas(run, x.id.value);
    }
  }

  /** A run stops only when every usable deployment has been tried. */
  lemma StopsExhausted(all: seq<Deployment>, unusable: set<Deployment>, run: seq<Deployment>)
    requires Identifies(all, unusable) && IsRun(all, unusable, run) && run[|run| - 1].order.Some?
    requires DecidesAfter(all, unusable, run, None)
    ensures Exhausts(all, unusable, run)
  {
    RunWithin(all, unusable, run);
    forall x | Usable(all, unusable, x) ensures x in run {
      if x !in run { NeverLeft(all, unusable, run, x); }
    }
  }

  lemma NeverLeft(all: seq<Deployment>, unusable: set<Deployment>, run: seq<Deployment>, x: Deployment)
    requires Identifies(all, unusable) && IsRun(all, unusable, run) && run[|run| - 1].order.Some? && Ordered(run)
    requires Usable(all, unusable, x) && x !in run
    ensures !DecidesAfter(all, unusable, run, None)
  {
    if DecidesAfter(all, unusable, run, None) {
      var last := run[|run| - 1];
      LeftAvailable(all, unusable, run, x);
      SameOrderLeft(all, unusable, run, x);
      assert last in run && last in all;
      if |run| > 1 { LastUsable(all, unusable, run); }
      assert run == [last];
      var y :| Usable(all, unusable, y) && y.order != last.order;
      LeftAvailable(all, unusable, run, y);
      SameOrderLeft(all, unusable, run, y);
    }
  }

  /** Where a run stops, what is left available has the order of its end, which has no id. */
  lemma SameOrderLeft(all: seq<Deployment>, unusable: set<Deployment>, run: seq<Deployment>, x: Deployment)
    requires run != [] && run[|run| - 1].order.Some? && DecidesAfter(all, unusable, run, None)
    requires x in Available(all, unusable, IdSet(run)) && x.order.Some?
    ensures x.order == run[|run| - 1].order && run[|run| - 1].id.None?
  {
    var available := Available(all, unusable, IdSet(run));
    DecisionAfter(all, unusable, run, None);
    OrdersHave(available);
    assert OrderOf(x) in Orders(available);
    OfOrderHas(available, OrderOf(x), x);
  }

  // ---- and when not ----

  /** A deployment whose id is avoided is never tried. */
  lemma {:induction false} SharedIdFails(all: seq<Deployment>, unusable: set<Deployment>, run: seq<Deployment>, x: Deployment)
    requires IsRun(all, unusable, run) && run[0].order.Some? && NoRepeats(run) && |run| <= |all|
    requires Usable(all, unusable, x) && x !in run && Excluded(x, IdSet(run))
    ensures !TriesAll(all, unusable)
    decreases |all| - |run|
  {
    RunWithin(all, unusable, run);
    var entry := DecisionExists(all, unusable, run);
    if entry.None? {
      assert !TriedAll(all, unusable, run);
    } else {
      SomethingToTry(all, unusable, run, entry.value);
      var d := Candidates(all, unusable, entry.value)[0];
      GoOn(all, unusable, run, d);
      if d !in run {
        assert x !in run + [d];
        SharedIdFails(all, unusable, run + [d], x);
      }
    }
  }

  /** One deployment more is a run, which repeats or is still no longer than the list of all. */
  lemma GoOn(all: seq<Deployment>, unusable: set<Deployment>, run: seq<Deployment>, d: Deployment)
    requires IsRun(all, unusable, run) && NoRepeats(run) && run[0].order.Some? && run[|run| - 1].order.Some?
    requires Follows(all, unusable, run, d)
    ensures IsRun(all, unusable, run + [d]) && IdSet(run) <= IdSet(run + [d])
    ensures if d in run then !TriesAll(all, unusable) else NoRepeats(run + [d]) && |run + [d]| <= |all|
  {
    hide Follows, Usable, Decides, IdSet, Chained;
    ExtendRun(all, unusable, run, d);
    IdSetAppend(run, d);
    if d in run {
      var i :| 0 <= i < |run| && run[i] == d;
      assert (run + [d])[i] == (run + [d])[|run|];
      assert !TriedAll(all, unusable, run + [d]);
    } else {
      NoMoreThan(run + [d], all);
    }
  }

  /** A usable deployment without an id is tried again, or keeps another one from being tried. */
  lemma {:induction false} IdlessFails(all: seq<Deployment>, unusable: set<Deployment>, run: seq<Deployment>,
                                       d: Deployment, x: Deployment)
    requires IsRun(all, unusable, run) && run[0] == d && NoRepeats(run) && |run| <= |all|
    requires Usable(all, unusable, d) && d.id.None? && Usable(all, unusable, x) && x != d
    requires |run| > 1 && run[|run| - 1].order == d.order ==> run[|run| - 1].id.Some?
    ensures !TriesAll(all, unusable)
    decreases |all| - |run|
  {
    hide Decides, IdSet, Follows, Chained, NoRepeats, Available, Ids, OfOrder;
    RunWithin(all, unusable, run);
    AvailableHas(all, unusable, IdSet(run), d);
    var entry := DecisionExists(all, unusable, run);
    if entry.None? {
      SameOrderLeft(all, unusable, run, d);
      assert !TriedAll(all, unusable, run);
    } else {
      var e := entry.value;
      SomethingToTry(all, unusable, run, e);
      CandidatesHave(all, unusable, e, d);
      var c := if d in Candidates(all, unusable, e) then d else Candidates(all, unusable, e)[0];
      CandidatesHave(all, unusable, e, c);
      GoOn(all, unusable, run, c);
      if c !in run { IdlessFails(all, unusable, run + [c], d, x); }
    }
  }

  /** A deployment without an id keeps its peers from being tried if there is no other order. */
  lemma StrandedFails(all: seq<Deployment>, unusable: set<Deployment>, d: Deployment, x: Deployment)
    requires d in all && d.order.Some? && d.id.None? && Usable(all, unusable, x) && x != d
    requires forall y | Usable(all, unusable, y) :: y.order == d.order
    ensures !TriesAll(all, unusable)
  {
    var run := [d];
    assert run[..0] == [];
    var entry := DecisionExists(all, unusable, run);
    if entry.Some? {
      SomethingToTry(all, unusable, run, entry.value);
      var y := Candidates(all, unusable, entry.value)[0];
      CandidatesHave(all, unusable, entry.value, y);
      EntryAfter(all, unusable, run, entry.value);
    }
    assert IsRun(all, unusable, run) && !TriedAll(all, unusable, run);
  }

  /** Every run tries each usable deployment exactly once, from wherever it starts, exactly when they can be told apart. */
  lemma TriesAllExactly(all: seq<Deployment>, unusable: set<Deployment>)
    ensures TriesAll(all, unusable) <==> Identifies(all, unusable)
  {
    if Identifies(all, unusable) {
      forall run: seq<Deployment> | IsRun(all, unusable, run) && run[0].order.Some? ensures TriedAll(all, unusable, run) {
        RunsNew(all, unusable, run);
        if run[|run| - 1].order.Some? && DecidesAfter(all, unusable, run, None) { StopsExhausted(all, unusable, run); }
      }
    } else if !NoneShared(all, unusable) {
      var d, x :| d in all && d.order.Some? && Usable(all, unusable, x) && d != x && d.id.Some? && d.id == x.id;
      RunStarts(all, unusable, d);
      SharedIdFails(all, unusable, [d], x);
    } else {
      var d, x :| d in all && d.order.Some? && d.id.None? && Usable(all, unusable, x) && d != x
                  && !(d in unusable && exists y :: y in all && Usable(all, unusable, y) && y.order != d.order);
      RunStarts(all, unusable, d);
      if d in unusable { StrandedFails(all, unusable, d, x); } else { IdlessFails(all, unusable, [d], d, x); }
    }
  }

  lemma RunStarts(all: seq<Deployment>, unusable: set<Deployment>, d: Deployment)
    requires d in all
    ensures IsRun(all, unusable, [d]) && 1 <= |all| && IdSet([d][..0]) == {} && (d.id.Some? ==> d.id.value in IdSet([d]))
  {
    if d.id.Some? { IdSetHas([d], d.id.value); }
  }

  lemma RunIsShort(all: seq<Deployment>, unusable: set<Deployment>, run: seq<Deployment>)
    requires NoneStranded(all, unusable) && IsRun(all, unusable, run)
    ensures |run| <= |all|
  {
    RunWithin(all, unusable, run);
    RunsNew(all, unusable, run);
    NoMoreThan(run, all);
  }

  /** A list without repeats is no longer than a list that holds all of it. */
  lemma {:induction false} NoMoreThan(xs: seq<Deployment>, ys: seq<Deployment>)
    requires NoRepeats(xs) && forall x | x in xs :: x in ys
    ensures |xs| <= |ys|
    decreases |xs|
  {
    if xs != [] {
      var n := |xs| - 1;
      assert xs[n] in ys;
      var i :| 0 <= i < |ys| && ys[i] == xs[n];
      var rest := ys[..i] + ys[i + 1..];
      forall x | x in xs[..n] ensures x in rest {
        assert x in xs && x in ys;
        var j :| 0 <= j < |ys| && ys[j] == x;
        assert j != i;
        if j < i { assert rest[j] == x; } else { assert rest[j - 1] == x; }
      }
      NoMoreThan(xs[..n], rest);
    }
  }

  // ---- the order of a run ----

  /** Every deployment with an order has an id, and no usable one shares its id. */
  predicate Proper(all: seq<Deployment>, unusable: set<Deployment>) {
    (forall d | d in all && d.order.Some? :: d.id.Some?) && NoneShared(all, unusable)
  }

  /** In the rotation that starts at origin, a comes strictly before b. */
  predicate Precedes(origin: real, a: real, b: real) {
    if (a >= origin) == (b >= origin) then a < b else a >= origin
  }

  /** The orders of the run follow the rotation that starts at its first order. */
  predicate Rotates(run: seq<Deployment>)
    requires run != [] && Ordered(run)
  {
    forall i, j | 0 <= i < j < |run| :: !Precedes(OrderOf(run[0]), OrderOf(run[j]), OrderOf(run[i]))
  }

  /** Nothing usable of an order before this one in the rotation is left untried. */
  predicate LeavesNone(all: seq<Deployment>, unusable: set<Deployment>, run: seq<Deployment>, origin: real, here: real) {
    forall d | d in all && Usable(all, unusable, d) :: Precedes(origin, OrderOf(d), here) ==> d in run
  }

  /** What every run keeps. */
  predicate RunKeeps(all: seq<Deployment>, unusable: set<Deployment>, run: seq<Deployment>)
    requires run != [] && Ordered(run)
  {
    && NoRepeats(run) && (forall k | 0 < k < |run| :: run[k] !in unusable)
    && Rotates(run) && LeavesNone(all, unusable, run, OrderOf(run[0]), OrderOf(run[|run| - 1]))
  }

  /** After a run, the deployments left are the untried usable ones. */
  lemma AvailableAfter(all: seq<Deployment>, unusable: set<Deployment>, run: seq<Deployment>, d: Deployment)
    requires Proper(all, unusable) && (forall x | x in run :: x in all) && Ordered(run) && d.order.Some?
    ensures d in Available(all, unusable, IdSet(run)) <==> Usable(all, unusable, d) && d !in run
  {
    AvailableHas(all, unusable, IdSet(run), d);
    if Usable(all, unusable, d) {
      if d in run { IdSetHas(run, d.id.value); } else { LeftAvailable(all, unusable, run, d); }
    }
  }

  /**
   One decision after a run: the verified ids are not empty, and what they let
   through is every untried usable deployment of the target order.
   */
  lemma StepVerified(all: seq<Deployment>, unusable: set<Deployment>, run: seq<Deployment>, e: Entry)
    requires Proper(all, unusable) && run != [] && (forall x | x in run :: x in all) && Ordered(run)
    requires run[|run| - 1].order.Some? && DecidesAfter(all, unusable, run, Some(e))
    ensures e.verified != [] && e.excluded == IdSet(run) && Candidates(all, unusable, e) != []
    ensures forall d :: d in Candidates(all, unusable, e)
              <==> Usable(all, unusable, d) && d !in run && d.order == Some(e.targetOrder)
    ensures forall x :: x in e.verified <==> exists d :: d in Candidates(all, unusable, e) && d.id == Some(x)
  {
    EntryAfter(all, unusable, run, e);
    SomethingToTry(all, unusable, run, e);
    var chosen := OfOrder(Available(all, unusable, IdSet(run)), e.targetOrder);
    forall d ensures d in chosen <==> Usable(all, unusable, d) && d !in run && d.order == Some(e.targetOrder) {
      OfOrderHas(Available(all, unusable, IdSet(run)), e.targetOrder, d);
      if d.order.Some? { AvailableAfter(all, unusable, run, d); }
    }
    CandidatesAre(all, unusable, e, chosen);
  }

  /** With proper ids, the verified ids single out exactly the deployments they were taken from. */
  lemma CandidatesAre(all: seq<Deployment>, unusable: set<Deployment>, e: Entry, chosen: seq<Deployment>)
    requires chosen != [] && (forall d | d in chosen :: d.id.Some?)
    requires chosen == OfOrder(Available(all, unusable, e.excluded), e.targetOrder) && e.verified == Ids(chosen)
    ensures e.verified != [] && forall d :: d in Candidates(all, unusable, e) <==> d in chosen
    ensures forall x :: x in e.verified <==> exists d :: d in chosen && d.id == Some(x)
  {
    forall d | d in chosen ensures d.id.value in e.verified { IdsHave(chosen, d.id.value); }
    assert chosen[0] in chosen;
    forall d ensures d in WithIds(chosen, e.verified) <==> d in chosen { WithIdsHas(chosen, e.verified, d); }
    forall x ensures x in e.verified <==> exists d :: d in chosen && d.id == Some(x) { IdsHave(chosen, x); }
  }

  lemma KeepOneMore(all: seq<Deployment>, unusable: set<Deployment>, run: seq<Deployment>, d: Deployment)
    requires run != [] && Ordered(run) && RunKeeps(all, unusable, run)
    requires d.order.Some? && d !in unusable && d !in run
    requires !Precedes(OrderOf(run[0]), OrderOf(d), OrderOf(run[|run| - 1]))
    requires LeavesNone(all, unusable, run, OrderOf(run[0]), OrderOf(d))
    ensures Ordered(run + [d]) && RunKeeps(all, unusable, run + [d])
  {
    RotateOneMore(run, d);
    assert forall x | x in run :: x in run + [d];
    assert LeavesNone(all, unusable, run + [d], OrderOf(run[0]), OrderOf(d));
  }

  /** Every run keeps its promises: no repeats, orders in rotation, and none left behind. */
  lemma {:induction false} RunsKeep(all: seq<Deployment>, unusable: set<Deployment>, run: seq<Deployment>)
    requires Proper(all, unusable) && IsRun(all, unusable, run) && run[0].order.Some?
    ensures Ordered(run) && RunKeeps(all, unusable, run)
    decreases |run|
  {
    RunWithin(all, unusable, run);
    if |run| > 1 {
      var front, last := run[..|run| - 1], run[|run| - 1];
      RunFront(all, unusable, run, front, last);
      RunsKeep(all, unusable, front);
      RunKeepsOn(all, unusable, front, last);
    }
  }

  lemma RunKeepsOn(all: seq<Deployment>, unusable: set<Deployment>, front: seq<Deployment>, last: Deployment)
    requires Proper(all, unusable) && IsRun(all, unusable, front) && Ordered(front)
    requires front[|front| - 1].order.Some? && Follows(all, unusable, front, last) && RunKeeps(all, unusable, front)
    ensures Ordered(front + [last]) && RunKeeps(all, unusable, front + [last])
  {
    RunWithin(all, unusable, front);
    var e := FollowerFits(all, unusable, front, last);
    StepVerified(all, unusable, front, e);
    NextRotates(all, unusable, front, e);
    KeepOneMore(all, unusable, front, last);
  }

  lemma RotateOneMore(run: seq<Deployment>, d: Deployment)
    requires run != [] && Ordered(run) && d.order.Some? && Rotates(run)
    requires !Precedes(OrderOf(run[0]), OrderOf(d), OrderOf(run[|run| - 1]))
    ensures Ordered(run + [d]) && Rotates(run + [d])
  {
    var n := |run| - 1;
    forall i, j | 0 <= i < j < |run + [d]|
      ensures !Precedes(OrderOf(run[0]), OrderOf((run + [d])[j]), OrderOf((run + [d])[i]))
    {
      if j == |run| && i < n { assert !Precedes(OrderOf(run[0]), OrderOf(run[n]), OrderOf(run[i])); }
    }
  }

  /** The target order never steps back in the rotation and leaves nothing usable behind. */
  lemma NextRotates(all: seq<Deployment>, unusable: set<Deployment>, run: seq<Deployment>, e: Entry)
    requires Proper(all, unusable) && run != [] && (forall x | x in run :: x in all) && Ordered(run)
    requires RunKeeps(all, unusable, run) && DecidesAfter(all, unusable, run, Some(e))
    ensures !Precedes(OrderOf(run[0]), e.targetOrder, OrderOf(run[|run| - 1]))
    ensures LeavesNone(all, unusable, run, OrderOf(run[0]), e.targetOrder)
  {
    DecisionAfter(all, unusable, run, Some(e));
    var origin, here, next := OrderOf(run[0]), OrderOf(run[|run| - 1]), e.targetOrder;
    assert run[|run| - 1] in run;
    if next != here {
      var available := Available(all, unusable, IdSet(run));
      var orders := Orders(available);
      OrdersLeft(all, unusable, run);
      ChosenNotEmpty(available, here);
      assert forall o | o in orders :: !Precedes(origin, o, here) && o != here;
      forall x | Usable(all, unusable, x) && x !in run ensures !Precedes(origin, OrderOf(x), next) {
        assert OrderOf(x) in orders;
        NextIsLeast(orders, origin, here, next, OrderOf(x));
      }
    }
  }

  /** The orders still available are those of the untried usable deployments. */
  lemma OrdersLeft(all: seq<Deployment>, unusable: set<Deployment>, run: seq<Deployment>)
    requires Proper(all, unusable) && (forall x | x in run :: x in all) && Ordered(run)
    ensures var orders := Orders(Available(all, unusable, IdSet(run)));
            && (forall x | Usable(all, unusable, x) && x !in run :: OrderOf(x) in orders)
            && (forall o | o in orders :: exists x :: Usable(all, unusable, x) && x !in run && x.order == Some(o))
  {
    OrdersHave(Available(all, unusable, IdSet(run)));
    forall d: Deployment | d.order.Some?
      ensures d in Available(all, unusable, IdSet(run)) <==> Usable(all, unusable, d) && d !in run
    {
      AvailableAfter(all, unusable, run, d);
    }
  }

  /** Among orders not yet passed, the next one comes first in the rotation. */
  lemma NextIsLeast(orders: seq<real>, origin: real, here: real, next: real, o: real)
    requires IsNext(orders, here, Some(next)) && o in orders
    requires forall x | x in orders :: !Precedes(origin, x, here) && x != here
    ensures !Precedes(origin, o, next)
  {}

  // ---- the runs of the code ----

  /** When the failed deployment is known, nothing else about the failure matters. */
  lemma SurfaceIrrelevant(all: seq<Deployment>, unusable: set<Deployment>, run: seq<Deployment>,
                          surface: Option<string>, noDeployments: bool, entry: Option<Entry>)
    requires run != [] && run[|run| - 1].order.Some? && (noDeployments ==> run[|run| - 1].id.Some?)
    requires Decides(all, unusable, IdSet(run[..|run| - 1]), surface,
                     FailureOf(run[|run| - 1]).(noDeployments := noDeployments), entry)
    ensures DecidesAfter(all, unusable, run, entry)
  {}

  /** The deployment tried after the last one of the run failed, if the decision allows any. */
  method NextDeployment(all: seq<Deployment>, unusable: set<Deployment>, request: FallbackRequest, run: seq<Deployment>,
                        noDeployments: bool)
      returns (next: Option<Deployment>)
    requires Identifies(all, unusable) && IsRun(all, unusable, run) && request.excluded == IdSet(run[..|run| - 1])
    requires noDeployments ==> run[|run| - 1].id.Some? || run[|run| - 1].order.None?
    modifies request
    ensures next.None? && run[|run| - 1].order.Some? ==> Exhausts(all, unusable, run)
    ensures next.None? ==> request.excluded == old(request.excluded)
    ensures next.Some? ==> request.excluded == IdSet(run) && IsRun(all, unusable, run + [next.value])
                           && next.value !in unusable && next.value in request.Pool(all, unusable) && |run| < |all|
  {
    hide Decides, Follows, NoneShared, NoneStranded, IdSet, Orders, Exhausts, Chained;
    var last := run[|run| - 1];
    ghost var surface := request.surfaceDeployment;
    var failed := FailureOf(last).(noDeployments := noDeployments);
    if last.order.None? {
      // Without an order to charge the failure to there is no other deployment to go to.
      return None;
    }
    var entry := request.Advance(all, unusable, failed, None);
    SurfaceIrrelevant(all, unusable, run, surface, noDeployments, entry);
    if entry.None? {
      StopsExhausted(all, unusable, run);
      return None;
    }
    SomethingToTry(all, unusable, run, entry.value);
    var candidates := Candidates(all, unusable, entry.value);
    var pick :| 0 <= pick < |candidates|;
    ExtendRun(all, unusable, run, candidates[pick]);
    RunIsShort(all, unusable, run + [candidates[pick]]);
    return Some(candidates[pick]);
  }

  /** Tries every usable deployment once, whatever the router picks among its candidates. */
  method RunFallback(all: seq<Deployment>, unusable: set<Deployment>, first: Deployment) returns (run: seq<Deployment>)
    requires Identifies(all, unusable) && first in all
    ensures IsRun(all, unusable, run) && run[0] == first && NoRepeats(run) && |run| <= |all|
    ensures first.order.Some? ==> Exhausts(all, unusable, run)
    ensures first.order.Some? && Proper(all, unusable) ==> Ordered(run) && RunKeeps(all, unusable, run)
    ensures first.order.None? ==> run == [first]
  {
    var request := new FallbackRequest();
    run := [first];
    RunStarts(all, unusable, first);
    while true
      invariant IsRun(all, unusable, run) && run[0] == first && (first.order.None? ==> run == [first])
      invariant fresh(request) && request.excluded == IdSet(run[..|run| - 1])
      decreases |all| - |run|
    {
      RunWithin(all, unusable, run);
      var next := NextDeployment(all, unusable, request, run, false);
      if next.None? {
        break;
      }
      assert (run + [next.value])[..|run|] == run;
      run := run + [next.value];
      RunWithin(all, unusable, run);
    }
    RunsNew(all, unusable, run);
    RunIsShort(all, unusable, run);
    if first.order.Some? && Proper(all, unusable) { RunsKeep(all, unusable, run); }
  }

  // ---- reports of an empty pool ----

  /**
   A report of an empty pool names no deployment.  After an entry for another peer it
   leads to the same entry again, and whatever it leads to, nothing more is avoided.
   */
  lemma ExhaustedRepeats(all: seq<Deployment>, unusable: set<Deployment>, run: seq<Deployment>, e: Entry,
                         surface: Option<string>, again: Option<Entry>)
    requires IsRun(all, unusable, run) && run[|run| - 1].order.Some?
    requires DecidesAfter(all, unusable, run, Some(e))
    requires Decides(all, unusable, e.excluded, surface, Failed(None, Some(e.targetOrder), true, false), again)
    ensures again.Some? ==> again.value.excluded == e.excluded
    ensures Some(e.targetOrder) == run[|run| - 1].order ==> again == Some(e)
  {
    RunWithin(all, unusable, run);
    var last := run[|run| - 1];
    EntryAfter(all, unusable, run, e);
    if Some(e.targetOrder) == last.order {
      IdSetHas(run, last.id.value);
      assert last in run && Excluded(last, e.excluded);
    }
  }
}
