/**
 The retry loop around one upstream request.  A failure is answered by the first
 of: a retry with browser headers (once), a retry with images described in words
 (once), a retry of the same deployment, a protocol switch on the same
 deployment, the next deployment of the fallback order.
 */
module RetryLoop {
  import opened Wrappers
  import opened Fallback

  /**
   One upstream call, and what the error classifiers say about its exception.  located
   means that it names the deployment that failed, noDeployments that it speaks of an
   empty pool, refused that no other deployment is asked after it.
   */
  datatype Outcome =
    | Answered
    | Failure(headersBlocked: bool, visionUnsupported: bool, visionRouted: bool, retryable: bool,
              surfaceFailover: bool, located: bool, noDeployments: bool, refused: bool)

  /**
   How the loop ends.  Misreported stands for a loop that does not end: routing said
   that no deployment is left when there was one, and would get the same entry again.
   */
  datatype Ending = Answer | GivenUp | Misreported

  /** The other protocol this deployment may be tried with, unless it was already. */
  function NextSurface(attempted: seq<string>, current: string, configured: Option<string>): Option<string> {
    if configured.None? || configured.value in Attempted(attempted, current) then None else configured
  }

  function Attempted(attempted: seq<string>, current: string): seq<string> {
    if current in attempted then attempted else attempted + [current]
  }

  /** After the switch to the other protocol there is none left. */
  lemma SwitchedOnce(attempted: seq<string>, current: string, configured: Option<string>)
    requires NextSurface(attempted, current, configured).Some?
    ensures var other := NextSurface(attempted, current, configured).value;
            NextSurface(Attempted(attempted, current) + [other], other, configured).None?
  {
    var tried := Attempted(attempted, current) + [configured.value];
    assert tried[|tried| - 1] == configured.value;
  }

  /** One upstream call: which deployment, by which protocol, what was done to the request, and how often retried since. */
  datatype Attempt = Attempt(deployment: Deployment, surface: string, headers: bool, described: bool, retry: nat)

  /** The configured protocol of a deployment that no call to it has used yet. */
  predicate IsUnused(log: seq<Attempt>, d: Deployment, configured: Option<string>) {
    configured.Some? && forall k | 0 <= k < |log| :: log[k].deployment == d ==> log[k].surface != configured.value
  }

  /** The failure asks for the deployment's other protocol, and that was not tried yet. */
  predicate Switches(log: seq<Attempt>, d: Deployment, o: Outcome, otherSurface: map<string, string>)
    requires o.Failure?
  {
    Final(o) && o.surfaceFailover && d.order.Some? && IsUnused(log, d, Lookup(otherSurface, IdOf(d)))
  }

  /**
   What the call after these calls is, when the last of them failed like this: the first
   that applies of browser headers, described images, a retry, the deployment's other
   protocol, and a deployment not called before, by the client's protocol.
   */
  predicate Leads(log: seq<Attempt>, o: Outcome, next: Attempt, maxRetries: nat, clientSurface: string,
                  otherSurface: map<string, string>)
    requires log != []
  {
    var last := log[|log| - 1];
    && o.Failure?
    && if o.headersBlocked && !last.headers then next == last.(headers := true, retry := 0)
       else if o.visionUnsupported && o.visionRouted && !last.described then next == last.(described := true, retry := 0)
       else if o.retryable && last.retry < maxRetries then next == last.(retry := last.retry + 1)
       else if Switches(log, last.deployment, o, otherSurface) then
         next == last.(surface := Lookup(otherSurface, IdOf(last.deployment)).value)
       else
         Final(o) && next == last.(deployment := next.deployment, surface := clientSurface)
         && forall k | 0 <= k < |log| :: log[k].deployment != next.deployment
  }

  predicate LeadsAt(log: seq<Attempt>, upstream: nat -> Outcome, c: nat, maxRetries: nat, clientSurface: string,
                    otherSurface: map<string, string>)
    requires 0 < c < |log|
  {
    Leads(log[..c], upstream(c), log[c], maxRetries, clientSurface, otherSurface)
  }

  function Lookup(m: map<string, string>, k: string): Option<string> { if k in m then Some(m[k]) else None }

  /** Internal calls are never retried. */
  function Retries(internal: bool, configured: nat): nat { if internal then 0 else configured }

  function Flag(b: bool): nat { if b then 1 else 0 }

  /**
   For every sequence of outcomes the loop ends, if routing reports an empty pool only
   when nothing is in it.  It makes at most three rounds of same-deployment retries and
   two attempts per deployment, tries deployments as the fallback order promises, and
   gives up on a located failure that is not refused only when every usable deployment
   was tried.
   */
  method GenericHelper(all: seq<Deployment>, unusable: set<Deployment>, first: Deployment, clientSurface: string,
                       otherSurface: map<string, string>, configuredRetries: nat, internal: bool,
                       upstream: nat -> Outcome)
      returns (ending: Ending, calls: nat, run: seq<Deployment>, pool: seq<Deployment>, log: seq<Attempt>)
    requires Proper(all, unusable) && first in all
    ensures Told(all, unusable, run, log, upstream, first, Retries(internal, configuredRetries), internal, clientSurface,
                 otherSurface)
    ensures |log| == calls && 1 <= calls <= 3 * Retries(internal, configuredRetries) + 2 + 2 * |all|
    ensures ending == Answer <==> upstream(calls).Answered?
    ensures internal ==> run == [first] && calls <= 3 && ending != Misreported
    ensures ending == Misreported ==>
              upstream(calls).noDeployments && !upstream(calls).located && (pool != [] || first in unusable)
    ensures ending == GivenUp && !internal && Final(upstream(calls)) && first.order.Some? ==> Exhausts(all, unusable, run)
    ensures ending != Answer ==>
              upstream(calls).Failure?
              && NothingApplies(log, upstream(calls), Retries(internal, configuredRetries), internal, otherSurface)
  {
    hide Ready, Going, Told, Leads, Tried, NothingApplies, Exhausts, Proper, Spent, Once, Recorded, Routed, Picks;
    var request := new FallbackRequest();
    var maxRetries := Retries(internal, configuredRetries);
    var attempt, attempted, switched := Attempt(first, clientSurface, false, false, 0), [], false;
    run, calls, pool, log := [first], 0, [], [];
    StartLog(all, unusable, request.Pool(all, unusable), upstream, first, maxRetries, internal, clientSurface, otherSurface);
    while true
      invariant fresh(request) && |log| == calls && 1 <= |run| <= |all| && attempt.retry <= maxRetries
      invariant Going(all, unusable, request.excluded, request.Pool(all, unusable), run, attempted, switched, attempt, log,
                      upstream, first, maxRetries, internal, clientSurface, otherSurface)
      decreases Once(attempt), maxRetries - attempt.retry, |all| - |run|, 1 - Flag(switched)
    {
      calls := calls + 1;
      pool := request.Pool(all, unusable);
      GoingMeans(all, unusable, request.excluded, pool, run, attempted, switched, attempt, log, upstream, first, maxRetries,
                 internal, clientSurface, otherSurface);
      ghost var before, spent := run, Spent(attempt, maxRetries, |run|, switched);
      log := log + [attempt];
      var outcome := upstream(calls);
      if outcome.Answered? {
        return Answer, calls, run, pool, log;
      }
      var move;
      move, run, attempted, switched, attempt :=
        AfterFailure(all, unusable, request, run, attempted, switched, attempt, outcome, maxRetries, internal, first,
                     clientSurface, otherSurface, log);
      if move != Moved {
        return if move == Stopped then GivenUp else Misreported, calls, run, pool, log;
      }
      GoesOn(all, unusable, request.excluded, request.Pool(all, unusable), run, attempted, switched, attempt, log,
             upstream, first, maxRetries, internal, clientSurface, otherSurface, before, spent);
    }
  }

  /** Of the calls made the first is the client's, and each other one follows from those before it and the last failure. */
  ghost predicate Told(all: seq<Deployment>, unusable: set<Deployment>, run: seq<Deployment>, log: seq<Attempt>,
                       upstream: nat -> Outcome, first: Deployment, maxRetries: nat, internal: bool, clientSurface: string,
                       otherSurface: map<string, string>)
  {
    && IsRun(all, unusable, run) && run[0] == first && log != [] && run[|run| - 1] == log[|log| - 1].deployment
    && log[0] == Attempt(first, clientSurface, false, false, 0) && CallsIn(log, run)
    && (forall c | 0 < c < |log| :: LeadsAt(log, upstream, c, maxRetries, clientSurface, otherSurface))
    && (internal ==> ByClient(log, clientSurface))
  }

  /** The calls so far and the one that comes next. */
  ghost predicate Going(all: seq<Deployment>, unusable: set<Deployment>, excluded: set<string>, pool: seq<Deployment>,
                        run: seq<Deployment>, attempted: seq<string>, switched: bool, next: Attempt, log: seq<Attempt>,
                        upstream: nat -> Outcome, first: Deployment, maxRetries: nat, internal: bool,
                        clientSurface: string, otherSurface: map<string, string>)
  {
    && Ready(all, unusable, excluded, pool, run, attempted, switched, next, maxRetries, internal, first, clientSurface,
             otherSurface)
    && run != [] && |log| <= Spent(next, maxRetries, |run|, switched) && Tried(log, run, attempted, next.surface)
    && Recorded(log, upstream, next, first, maxRetries, clientSurface, otherSurface)
    && (internal ==> ByClient(log, clientSurface))
  }

  lemma GoingMeans(all: seq<Deployment>, unusable: set<Deployment>, excluded: set<string>, pool: seq<Deployment>,
                   run: seq<Deployment>, attempted: seq<string>, switched: bool, next: Attempt, log: seq<Attempt>,
                   upstream: nat -> Outcome, first: Deployment, maxRetries: nat, internal: bool, clientSurface: string,
                   otherSurface: map<string, string>)
    requires Going(all, unusable, excluded, pool, run, attempted, switched, next, log, upstream, first, maxRetries,
                   internal, clientSurface, otherSurface)
    ensures Told(all, unusable, run, log + [next], upstream, first, maxRetries, internal, clientSurface, otherSurface)
    ensures Ready(all, unusable, excluded, pool, run, attempted, switched, next, maxRetries, internal, first, clientSurface,
                  otherSurface)
    ensures |log| + 1 <= 3 * maxRetries + 2 + 2 * |all| && |log| <= Spent(next, maxRetries, |run|, switched)
    ensures internal ==> run == [first] && |log| + 1 <= 3
    ensures run != [] && Tried(log + [next], run, attempted, next.surface)
    ensures Tried(log + [next], run, Attempted(attempted, next.surface), next.surface)
    ensures pool != [] || first in unusable
  {
    hide Tried, LeadsAt, Recorded, IsRun, Routed, Proper, Spent, CallsIn, Ready;
    ReadyMeans(all, unusable, excluded, pool, run, attempted, switched, next, maxRetries, internal, first, clientSurface,
               otherSurface);
    Record(log, upstream, next, run, attempted, first, maxRetries, clientSurface, otherSurface);
    SpentBound(next, maxRetries, |run|, switched, |all|);
  }

  /** Behind a call that led on, the loop goes on. */
  lemma GoesOn(all: seq<Deployment>, unusable: set<Deployment>, excluded: set<string>, pool: seq<Deployment>,
               run: seq<Deployment>, attempted: seq<string>, switched: bool, next: Attempt, log: seq<Attempt>,
               upstream: nat -> Outcome, first: Deployment, maxRetries: nat, internal: bool, clientSurface: string,
               otherSurface: map<string, string>, before: seq<Deployment>, spent: nat)
    requires Ready(all, unusable, excluded, pool, run, attempted, switched, next, maxRetries, internal, first, clientSurface,
                   otherSurface)
    requires log != [] && Leads(log, upstream(|log|), next, maxRetries, clientSurface, otherSurface)
    requires run != [] && Tried(log, run, attempted, next.surface)
    requires |log| <= spent + 1 <= Spent(next, maxRetries, |run|, switched)
    requires Told(all, unusable, before, log, upstream, first, maxRetries, internal, clientSurface, otherSurface)
    ensures Going(all, unusable, excluded, pool, run, attempted, switched, next, log, upstream, first, maxRetries, internal,
                  clientSurface, otherSurface)
    ensures 1 <= |run| <= |all| && next.retry <= maxRetries
  {
    hide Tried, LeadsAt, Leads, Recorded, IsRun, Routed, Proper, Spent, CallsIn, Ready;
    ReadyMeans(all, unusable, excluded, pool, run, attempted, switched, next, maxRetries, internal, first, clientSurface,
               otherSurface);
    Recording(log, upstream, next, first, maxRetries, clientSurface, otherSurface);
  }

  /** After this failure the request is not called again on the same deployment in any way. */
  predicate NothingApplies(log: seq<Attempt>, o: Outcome, maxRetries: nat, internal: bool, otherSurface: map<string, string>)
    requires log != [] && o.Failure?
  {
    var last := log[|log| - 1];
    && !(o.headersBlocked && !last.headers) && !(o.visionUnsupported && o.visionRouted && !last.described)
    && !(o.retryable && last.retry < maxRetries)
    && !(!internal && Switches(log, last.deployment, o, otherSurface))
  }

  predicate ByClient(log: seq<Attempt>, clientSurface: string) { forall k | 0 <= k < |log| :: log[k].surface == clientSurface }

  /** The loop's state fits together, and the next call is one that may be made. */
  ghost predicate Ready(all: seq<Deployment>, unusable: set<Deployment>, excluded: set<string>, pool: seq<Deployment>,
                        run: seq<Deployment>, attempted: seq<string>, switched: bool, next: Attempt, maxRetries: nat,
                        internal: bool, first: Deployment, clientSurface: string, otherSurface: map<string, string>)
  {
    && Routed(all, unusable, excluded, run, attempted, next.surface, otherSurface, switched) && Picks(all, unusable, pool, run)
    && run[0] == first && next.deployment == run[|run| - 1] && next.retry <= maxRetries
    && (internal ==> run == [first] && !switched && maxRetries == 0 && next.surface == clientSurface)
  }

  lemma ReadyMeans(all: seq<Deployment>, unusable: set<Deployment>, excluded: set<string>, pool: seq<Deployment>,
                   run: seq<Deployment>, attempted: seq<string>, switched: bool, next: Attempt, maxRetries: nat,
                   internal: bool, first: Deployment, clientSurface: string, otherSurface: map<string, string>)
    requires Ready(all, unusable, excluded, pool, run, attempted, switched, next, maxRetries, internal, first,
                   clientSurface, otherSurface)
    ensures IsRun(all, unusable, run) && 1 <= |run| <= |all| && run[0] == first && next.deployment == run[|run| - 1]
    ensures internal ==> run == [first] && !switched && maxRetries == 0 && next.surface == clientSurface
    ensures Picks(all, unusable, pool, run) && next.retry <= maxRetries
    ensures Routed(all, unusable, excluded, run, attempted, next.surface, otherSurface, switched)
  {
  }

  /** Where rerouting leads, the state fits together again and the loop has come further. */
  lemma ReadyAgain(all: seq<Deployment>, unusable: set<Deployment>, excluded: set<string>, pool: seq<Deployment>,
                   run: seq<Deployment>, run': seq<Deployment>, attempted': seq<string>, switched: bool, switched': bool,
                   last: Attempt, next: Attempt, maxRetries: nat, first: Deployment, clientSurface: string,
                   otherSurface: map<string, string>)
    requires Routed(all, unusable, excluded, run', attempted', next.surface, otherSurface, switched')
    requires Picks(all, unusable, pool, run') && run'[0] == first && next.deployment == run'[|run'| - 1]
    requires next == last.(deployment := next.deployment, surface := next.surface) && last.retry <= maxRetries
    requires (run' == run && !switched && switched') || (|run'| == |run| + 1 && !switched')
    ensures Ready(all, unusable, excluded, pool, run', attempted', switched', next, maxRetries, false, first,
                  clientSurface, otherSurface)
    ensures Less(last, |run|, switched, next, |run'|, switched', maxRetries)
  {
  }

  /** The same deployment is called again by the same protocol: the state fits together as before. */
  lemma ReadySame(all: seq<Deployment>, unusable: set<Deployment>, excluded: set<string>, pool: seq<Deployment>,
                  run: seq<Deployment>, attempted: seq<string>, switched: bool, last: Attempt, next: Attempt,
                  maxRetries: nat, internal: bool, first: Deployment, clientSurface: string,
                  otherSurface: map<string, string>)
    requires Ready(all, unusable, excluded, pool, run, attempted, switched, last, maxRetries, internal, first,
                   clientSurface, otherSurface)
    requires next == last.(headers := next.headers, described := next.described, retry := next.retry)
    requires Once(next) <= Once(last) && next.retry <= maxRetries && last.retry <= maxRetries
    requires Once(next) == Once(last) ==> next.retry == last.retry + 1
    requires Once(next) < Once(last) ==> Once(next) == Once(last) - 1 && next.retry == 0
    ensures Ready(all, unusable, excluded, pool, run, attempted, switched, next, maxRetries, internal, first,
                  clientSurface, otherSurface)
    ensures Less(last, |run|, switched, next, |run|, switched, maxRetries)
  {
  }

  /** A failed call: called again, moved on, or ended. */
  method AfterFailure(all: seq<Deployment>, unusable: set<Deployment>, request: FallbackRequest, run: seq<Deployment>,
                      attempted: seq<string>, switched: bool, last: Attempt, outcome: Outcome, maxRetries: nat,
                      internal: bool, ghost first: Deployment, clientSurface: string, otherSurface: map<string, string>,
                      ghost log: seq<Attempt>)
      returns (move: Move, run': seq<Deployment>, attempted': seq<string>, switched': bool, next: Attempt)
    requires Proper(all, unusable) && outcome.Failure? && log != [] && log[|log| - 1] == last
    requires Ready(all, unusable, request.excluded, request.Pool(all, unusable), run, attempted, switched, last, maxRetries,
                   internal, first, clientSurface, otherSurface)
    requires run != [] && Tried(log, run, attempted, last.surface)
    requires Tried(log, run, Attempted(attempted, last.surface), last.surface)
    modifies request
    ensures move == Moved ==>
              && Ready(all, unusable, request.excluded, request.Pool(all, unusable), run', attempted', switched', next,
                       maxRetries, internal, first, clientSurface, otherSurface)
              && Leads(log, outcome, next, maxRetries, clientSurface, otherSurface)
              && run' != [] && next.deployment == run'[|run'| - 1] && Tried(log, run', attempted', next.surface)
              && Less(last, |run|, switched, next, |run'|, switched', maxRetries)
    ensures move != Moved ==>
              run' == run && NothingApplies(log, outcome, maxRetries, internal, otherSurface)
    ensures move == Stuck ==> !internal && outcome.noDeployments && !outcome.located && !outcome.refused
    ensures move == Stopped && !internal && Final(outcome) && first.order.Some? ==> Exhausts(all, unusable, run)
  {
    hide Ready, Less, Once, Leads, Tried, Switches, Exhausts, IsRun, Proper, Routed, Picks, NextSurface, IdSet, Lookup;
    hide Final, Attempted;
    move, run', attempted', switched' := Moved, run, attempted, switched;
    ReadyMeans(all, unusable, request.excluded, request.Pool(all, unusable), run, attempted, switched, last, maxRetries,
               internal, first, clientSurface, otherSurface);
    var again;
    again, next := RetrySame(outcome, last, maxRetries);
    if again {
      SameLeads(log, outcome, next, maxRetries, clientSurface, otherSurface);
      ReadySame(all, unusable, request.excluded, request.Pool(all, unusable), run, attempted, switched, last, next,
                maxRetries, internal, first, clientSurface, otherSurface);
      return;
    }
    if internal {
      return Stopped, run, attempted, switched, last;
    }
    move, run', attempted', switched', next :=
      Elsewhere(all, unusable, request, run, attempted, switched, last, outcome, maxRetries, first, clientSurface,
                otherSurface, log);
  }

  /** A failed call that is not made again in the same way: by another protocol or to another deployment, or nowhere. */
  method Elsewhere(all: seq<Deployment>, unusable: set<Deployment>, request: FallbackRequest, run: seq<Deployment>,
                   attempted: seq<string>, switched: bool, last: Attempt, outcome: Outcome, ghost maxRetries: nat,
                   ghost first: Deployment, clientSurface: string, otherSurface: map<string, string>,
                   ghost log: seq<Attempt>)
      returns (move: Move, run': seq<Deployment>, attempted': seq<string>, switched': bool, next: Attempt)
    requires Proper(all, unusable) && outcome.Failure? && log != [] && log[|log| - 1] == last
    requires Ready(all, unusable, request.excluded, request.Pool(all, unusable), run, attempted, switched, last, maxRetries,
                   false, first, clientSurface, otherSurface)
    requires run != [] && Tried(log, run, attempted, last.surface)
    requires Tried(log, run, Attempted(attempted, last.surface), last.surface)
    requires !(outcome.headersBlocked && !last.headers)
    requires !(outcome.visionUnsupported && outcome.visionRouted && !last.described)
    requires !(outcome.retryable && last.retry < maxRetries)
    modifies request
    ensures move == Moved ==>
              && Ready(all, unusable, request.excluded, request.Pool(all, unusable), run', attempted', switched', next,
                       maxRetries, false, first, clientSurface, otherSurface)
              && Leads(log, outcome, next, maxRetries, clientSurface, otherSurface)
              && run' != [] && next.deployment == run'[|run'| - 1] && Tried(log, run', attempted', next.surface)
              && Less(last, |run|, switched, next, |run'|, switched', maxRetries)
    ensures move != Moved ==> run' == run && !Switches(log, last.deployment, outcome, otherSurface)
    ensures move == Stuck ==> outcome.noDeployments && !outcome.located && !outcome.refused
    ensures move == Stopped && Final(outcome) && first.order.Some? ==> Exhausts(all, unusable, run)
  {
    hide Ready, Routed, Picks, Less, Leads, Tried, Switches, Exhausts, IsRun, Proper, NextSurface, Other, AnotherOne, IdSet;
    ReadyMeans(all, unusable, request.excluded, request.Pool(all, unusable), run, attempted, switched, last, maxRetries,
               false, first, clientSurface, otherSurface);
    var surface;
    move, run', surface, attempted', switched' :=
      Reroute(all, unusable, request, run, clientSurface, otherSurface, last.surface, attempted, switched, outcome);
    next := last.(deployment := run'[|run'| - 1], surface := surface);
    if move == Moved {
      Rerouted(log, run, run', attempted, attempted', outcome, last, next, maxRetries, clientSurface, otherSurface);
      ReadyAgain(all, unusable, request.excluded, request.Pool(all, unusable), run, run', attempted', switched, switched',
                 last, next, maxRetries, first, clientSurface, otherSurface);
    } else {
      NoneUnused(log, run, attempted, outcome, otherSurface);
    }
  }

  /** The measure of the loop falls, and the bound on the calls grows by at least one. */
  predicate Less(last: Attempt, n: nat, switched: bool, next: Attempt, m: nat, switched': bool, maxRetries: nat) {
    && last.retry <= maxRetries && next.retry <= maxRetries
    && (Once(next) < Once(last) || (Once(next) == Once(last) &&
        (last.retry < next.retry || (last.retry == next.retry && (n < m || (n == m && !switched && switched'))))))
    && Spent(next, maxRetries, m, switched') >= Spent(last, maxRetries, n, switched) + 1
  }

  /** Whether the same deployment is called once more in the same way, but for what the failure asks. */
  method RetrySame(o: Outcome, last: Attempt, maxRetries: nat) returns (again: bool, next: Attempt)
    requires o.Failure? && last.retry <= maxRetries
    ensures again <==> (o.headersBlocked && !last.headers) || (o.visionUnsupported && o.visionRouted && !last.described)
                       || (o.retryable && last.retry < maxRetries)
    ensures again ==>
              if o.headersBlocked && !last.headers then next == last.(headers := true, retry := 0)
              else if o.visionUnsupported && o.visionRouted && !last.described then
                next == last.(described := true, retry := 0)
              else next == last.(retry := last.retry + 1)
    ensures again ==>
              && Once(next) <= Once(last) && next.retry <= maxRetries
              && (Once(next) == Once(last) ==> next.retry == last.retry + 1)
              && (Once(next) < Once(last) ==> Once(next) == Once(last) - 1 && next.retry == 0)
  {
    next := last;
    if o.headersBlocked && !last.headers {
      return true, last.(headers := true, retry := 0);
    }
    if o.visionUnsupported && !last.described && o.visionRouted {
      return true, last.(described := true, retry := 0);
    }
    if last.retry < maxRetries && o.retryable {
      return true, last.(retry := last.retry + 1);
    }
    again := false;
  }

  /** What can be done to the request once is still to be done. */
  function Once(a: Attempt): nat { 2 - Flag(a.headers) - Flag(a.described) }

  /** The calls so far are as they have to be, and so is the one that comes next. */
  ghost predicate Recorded(log: seq<Attempt>, upstream: nat -> Outcome, next: Attempt, first: Deployment, maxRetries: nat,
                           clientSurface: string, otherSurface: map<string, string>)
  {
    && (forall c | 0 < c < |log| :: LeadsAt(log, upstream, c, maxRetries, clientSurface, otherSurface))
    && if log == [] then next == Attempt(first, clientSurface, false, false, 0)
       else
         && log[0] == Attempt(first, clientSurface, false, false, 0)
         && Leads(log, upstream(|log|), next, maxRetries, clientSurface, otherSurface)
  }

  predicate CallsIn(log: seq<Attempt>, run: seq<Deployment>) { forall k | 0 <= k < |log| :: log[k].deployment in run }

  /** The calls went to the run's deployments; those to its last one used the protocols attempted. */
  ghost predicate Tried(log: seq<Attempt>, run: seq<Deployment>, attempted: seq<string>, surface: string)
    requires run != []
  {
    var last := run[|run| - 1];
    && CallsIn(log, run)
    && (forall k | 0 <= k < |log| && log[k].deployment == last :: log[k].surface == surface || log[k].surface in attempted)
    && forall s | s in attempted && s != surface :: exists k :: 0 <= k < |log| && log[k].deployment == last && log[k].surface == s
  }

  lemma StartLog(all: seq<Deployment>, unusable: set<Deployment>, pool: seq<Deployment>, upstream: nat -> Outcome,
                 first: Deployment, maxRetries: nat, internal: bool, clientSurface: string,
                 otherSurface: map<string, string>)
    requires Proper(all, unusable) && first in all && pool == Available(all, unusable, {}) && (internal ==> maxRetries == 0)
    ensures Going(all, unusable, {}, pool, [first], [], false, Attempt(first, clientSurface, false, false, 0), [], upstream,
                  first, maxRetries, internal, clientSurface, otherSurface)
    ensures 1 <= |all|
  {
    StartRun(all, unusable, first);
  }

  lemma SameLeads(log: seq<Attempt>, o: Outcome, next: Attempt, maxRetries: nat, clientSurface: string,
                  otherSurface: map<string, string>)
    requires log != [] && o.Failure?
    requires var last := log[|log| - 1];
             if o.headersBlocked && !last.headers then next == last.(headers := true, retry := 0)
             else if o.visionUnsupported && o.visionRouted && !last.described then
               next == last.(described := true, retry := 0)
             else o.retryable && last.retry < maxRetries && next == last.(retry := last.retry + 1)
    ensures Leads(log, o, next, maxRetries, clientSurface, otherSurface)
  {
  }

  lemma Recording(log: seq<Attempt>, upstream: nat -> Outcome, next: Attempt, first: Deployment, maxRetries: nat,
                  clientSurface: string, otherSurface: map<string, string>)
    requires log != [] && log[0] == Attempt(first, clientSurface, false, false, 0)
    requires forall c | 0 < c < |log| :: LeadsAt(log, upstream, c, maxRetries, clientSurface, otherSurface)
    requires Leads(log, upstream(|log|), next, maxRetries, clientSurface, otherSurface)
    ensures Recorded(log, upstream, next, first, maxRetries, clientSurface, otherSurface)
  {
  }

  lemma Record(log: seq<Attempt>, upstream: nat -> Outcome, next: Attempt, run: seq<Deployment>, attempted: seq<string>,
               first: Deployment, maxRetries: nat, clientSurface: string, otherSurface: map<string, string>)
    requires Recorded(log, upstream, next, first, maxRetries, clientSurface, otherSurface)
    requires run != [] && next.deployment == run[|run| - 1] && Tried(log, run, attempted, next.surface)
    ensures var all := log + [next];
            && (forall c | 0 < c < |all| :: LeadsAt(all, upstream, c, maxRetries, clientSurface, otherSurface))
            && Tried(all, run, Attempted(attempted, next.surface), next.surface) && Tried(all, run, attempted, next.surface)
            && all[0] == Attempt(first, clientSurface, false, false, 0) && CallsIn(all, run)
  {
    hide Leads;
    var all := log + [next];
    forall c | 0 < c < |all| ensures LeadsAt(all, upstream, c, maxRetries, clientSurface, otherSurface) {
      assert all[..c] == log[..c];
      if c == |log| {
        assert log[..c] == log;
      } else {
        assert LeadsAt(log, upstream, c, maxRetries, clientSurface, otherSurface);
      }
    }
    RecordTried(log, next, run, attempted);
  }

  lemma RecordTried(log: seq<Attempt>, next: Attempt, run: seq<Deployment>, attempted: seq<string>)
    requires run != [] && next.deployment == run[|run| - 1] && Tried(log, run, attempted, next.surface)
    ensures Tried(log + [next], run, Attempted(attempted, next.surface), next.surface)
    ensures Tried(log + [next], run, attempted, next.surface)
  {
    var all := log + [next];
    forall s | s in Attempted(attempted, next.surface)
      ensures exists k :: 0 <= k < |all| && all[k].deployment == run[|run| - 1] && all[k].surface == s {
      if s in attempted && s != next.surface {
        var k :| 0 <= k < |log| && log[k].deployment == run[|run| - 1] && log[k].surface == s;
        assert all[k] == log[k];
      } else {
        assert all[|log|] == next;
      }
    }
    assert forall s | s in attempted :: s in Attempted(attempted, next.surface);
  }

  /** A failure that names its deployment and may be answered by another one. */
  predicate Final(o: Outcome) { o.Failure? && o.located && !o.refused }

  /** What a failure leads to: another attempt, the end, or an attempt that nothing has changed for. */
  datatype Move = Moved | Stopped | Stuck

  /** Routing has picked the run's last deployment, so the pool is not empty unless it started with an unusable one. */
  ghost predicate Picks(all: seq<Deployment>, unusable: set<Deployment>, pool: seq<Deployment>, run: seq<Deployment>)
    requires run != []
  {
    var last := run[|run| - 1];
    if last in unusable then |run| == 1 else last in pool
  }

  /** The routing half of the loop's state fits together. */
  ghost predicate Routed(all: seq<Deployment>, unusable: set<Deployment>, excluded: set<string>, run: seq<Deployment>,
                         attempted: seq<string>, surface: string, otherSurface: map<string, string>, switched: bool)
  {
    && IsRun(all, unusable, run) && 1 <= |run| <= |all| && excluded == IdSet(run[..|run| - 1])
    && (switched ==> NextSurface(attempted, surface, Lookup(otherSurface, IdOf(run[|run| - 1]))).None?)
  }

  lemma StartRun(all: seq<Deployment>, unusable: set<Deployment>, first: Deployment)
    requires Proper(all, unusable) && first in all
    ensures IsRun(all, unusable, [first]) && 1 <= |all| && IdSet([first][..0]) == {}
    ensures first !in unusable ==> first in Available(all, unusable, {})
  {
    AvailableHas(all, unusable, {}, first);
  }

  /** The other protocol that a failure asks for. */
  function Other(attempted: seq<string>, surface: string, d: Deployment, o: Outcome, otherSurface: map<string, string>):
      Option<string>
    requires o.Failure?
  {
    if Final(o) && o.surfaceFailover && d.order.Some? then NextSurface(attempted, surface, Lookup(otherSurface, IdOf(d)))
    else None
  }

  /** A run that goes on with a deployment not tried before. */
  predicate AnotherOne(run: seq<Deployment>, more: seq<Deployment>) {
    |more| == |run| + 1 && more[..|run|] == run && more[|run|] !in run
  }

  /** Another protocol is left exactly if no call to the deployment used it. */
  lemma UnusedLeft(log: seq<Attempt>, run: seq<Deployment>, attempted: seq<string>, surface: string, configured: Option<string>)
    requires run != [] && log != [] && Tried(log, run, attempted, surface)
    requires log[|log| - 1].deployment == run[|run| - 1] && log[|log| - 1].surface == surface
    ensures NextSurface(attempted, surface, configured)
            == if IsUnused(log, run[|run| - 1], configured) then configured else None
  {
    if configured.Some? && configured.value in Attempted(attempted, surface) {
      if configured.value == surface {
        assert !IsUnused(log, run[|run| - 1], configured);
      } else {
        var k :| 0 <= k < |log| && log[k].deployment == run[|run| - 1] && log[k].surface == configured.value;
        assert !IsUnused(log, run[|run| - 1], configured);
      }
    }
  }

  lemma NoneUnused(log: seq<Attempt>, run: seq<Deployment>, attempted: seq<string>, o: Outcome,
                   otherSurface: map<string, string>)
    requires run != [] && log != [] && log[|log| - 1].deployment == run[|run| - 1] && o.Failure?
    requires Tried(log, run, attempted, log[|log| - 1].surface)
    requires Other(attempted, log[|log| - 1].surface, run[|run| - 1], o, otherSurface).None?
    ensures !Switches(log, run[|run| - 1], o, otherSurface)
  {
    UnusedLeft(log, run, attempted, log[|log| - 1].surface, Lookup(otherSurface, IdOf(run[|run| - 1])));
  }

  /** Where rerouting leads, the next call is the one that has to come, and the calls so far stay accounted for. */
  lemma Rerouted(log: seq<Attempt>, run: seq<Deployment>, run': seq<Deployment>, attempted: seq<string>,
                 attempted': seq<string>, o: Outcome, last: Attempt, next: Attempt, maxRetries: nat, clientSurface: string,
                 otherSurface: map<string, string>)
    requires log != [] && last == log[|log| - 1] && run != [] && last.deployment == run[|run| - 1] && o.Failure?
    requires Tried(log, run, attempted, last.surface) && Tried(log, run, Attempted(attempted, last.surface), last.surface)
    requires !(o.headersBlocked && !last.headers) && !(o.visionUnsupported && o.visionRouted && !last.described)
    requires !(o.retryable && last.retry < maxRetries) && run' != [] && next.deployment == run'[|run'| - 1]
    requires next == last.(deployment := next.deployment, surface := next.surface)
    requires var other := Other(attempted, last.surface, last.deployment, o, otherSurface);
             if other.Some? then run' == run && next.surface == other.value
                                 && attempted' == Attempted(attempted, last.surface) + [other.value]
             else Final(o) && AnotherOne(run, run') && next.surface == clientSurface && attempted' == []
    ensures Leads(log, o, next, maxRetries, clientSurface, otherSurface) && Tried(log, run', attempted', next.surface)
    ensures CallsIn(log, run')
  {
    UnusedLeft(log, run, attempted, last.surface, Lookup(otherSurface, IdOf(last.deployment)));
    if Other(attempted, last.surface, last.deployment, o, otherSurface).None? {
      assert run' == run + [run'[|run|]];
    }
  }

  /** Find another protocol for the deployment that failed, or another deployment. */
  method Reroute(all: seq<Deployment>, unusable: set<Deployment>, request: FallbackRequest, run: seq<Deployment>,
                 clientSurface: string, otherSurface: map<string, string>,
                 surface: string, attempted: seq<string>, switched: bool, outcome: Outcome)
      returns (move: Move, run': seq<Deployment>, surface': string, attempted': seq<string>, switched': bool)
    requires Proper(all, unusable) && outcome.Failure?
    requires Routed(all, unusable, request.excluded, run, attempted, surface, otherSurface, switched)
    requires Picks(all, unusable, request.Pool(all, unusable), run)
    modifies request
    ensures move == Moved ==>
              && Routed(all, unusable, request.excluded, run', attempted', surface', otherSurface, switched')
              && Picks(all, unusable, request.Pool(all, unusable), run')
              && ((run' == run && !switched && switched') || (|run'| == |run| + 1 && !switched'))
    ensures run' != [] && run'[0] == run[0] && (move != Moved ==> run' == run)
    ensures var other := Other(attempted, surface, run[|run| - 1], outcome, otherSurface);
            && (other.Some? ==> move == Moved && run' == run && surface' == other.value
                                && attempted' == Attempted(attempted, surface) + [other.value])
            && (other.None? && move == Moved ==> Final(outcome) && AnotherOne(run, run') && surface' == clientSurface
                                                 && attempted' == [])
    ensures move == Stuck ==> outcome.noDeployments && !outcome.located && !outcome.refused
    ensures move == Stopped && Final(outcome) && run[0].order.Some? ==> Exhausts(all, unusable, run)
  {
    move, run', surface', attempted', switched' := Stopped, run, surface, attempted, switched;
    var last := run[|run| - 1];
    RunWithin(all, unusable, run);
    if outcome.refused || !outcome.located {
      move := Unlocated(all, unusable, request, outcome.noDeployments, outcome.refused);
      return;
    }
    var other := Other(attempted, surface, last, outcome, otherSurface);
    if other.Some? {
      // The same deployment once more, with its other protocol.
      SwitchProtocol(all, unusable, request, run);
      SwitchedOnce(attempted, surface, Lookup(otherSurface, IdOf(last)));
      attempted' := Attempted(attempted, surface) + [other.value];
      move, surface', switched' := Moved, other.value, true;
      return;
    }
    var moved;
    moved, run' := MoveOn(all, unusable, request, run, outcome.noDeployments);
    if moved {
      move, surface', attempted', switched' := Moved, clientSurface, [], false;
    }
  }

  /** No deployment to avoid: at most an order that is said to be exhausted. */
  method Unlocated(all: seq<Deployment>, unusable: set<Deployment>, request: FallbackRequest, noDeployments: bool,
                   refused: bool) returns (move: Move)
    modifies request
    ensures move != Moved && (move == Stuck ==> noDeployments && !refused)
  {
    var entry := request.Advance(all, unusable, Failed(None, None, noDeployments, refused), None);
    move := if entry.Some? then Stuck else Stopped;
  }

  /** Another deployment, to be tried with the client's own protocol. */
  method MoveOn(all: seq<Deployment>, unusable: set<Deployment>, request: FallbackRequest, run: seq<Deployment>,
                noDeployments: bool) returns (moved: bool, run': seq<Deployment>)
    requires Proper(all, unusable) && IsRun(all, unusable, run) && request.excluded == IdSet(run[..|run| - 1])
    modifies request
    ensures moved ==>
              && IsRun(all, unusable, run') && |run'| <= |all| && request.excluded == IdSet(run'[..|run'| - 1])
              && AnotherOne(run, run') && run'[0] == run[0]
              && Picks(all, unusable, request.Pool(all, unusable), run')
    ensures !moved ==> run' == run && (run[0].order.Some? ==> Exhausts(all, unusable, run))
  {
    RunWithin(all, unusable, run);
    var next := NextDeployment(all, unusable, request, run, noDeployments);
    if next.None? {
      return false, run;
    }
    run' := run + [next.value];
    assert run'[..|run|] == run;
    RunsNew(all, unusable, run');
    assert next.value !in run by { assert forall k | 0 <= k < |run| :: run'[k] == run[k] != run'[|run|]; }
    RunWithin(all, unusable, run');
    moved := true;
  }

  /** The request stays on the deployment that failed; what it avoids does not change. */
  method SwitchProtocol(all: seq<Deployment>, unusable: set<Deployment>, request: FallbackRequest, run: seq<Deployment>)
    requires Proper(all, unusable) && IsRun(all, unusable, run) && request.excluded == IdSet(run[..|run| - 1])
    requires run[|run| - 1].order.Some? && (run[|run| - 1] in unusable ==> |run| == 1)
    modifies request
    ensures request.excluded == old(request.excluded) && request.surfaceTarget == run[|run| - 1].id
    ensures Picks(all, unusable, request.Pool(all, unusable), run)
  {
    var last := run[|run| - 1];
    NotExcludedYet(all, unusable, run);
    var entry := request.Advance(all, unusable, FailureOf(last), Some(IdOf(last)));
    assert request.excluded == old(request.excluded) - {IdOf(last)};
    RunWithin(all, unusable, run);
    if last !in unusable { StillThere(all, unusable, request.excluded, last); }
  }

  /** A deployment that is not avoided is in the pool that is limited to it. */
  lemma StillThere(all: seq<Deployment>, unusable: set<Deployment>, excluded: set<string>, d: Deployment)
    requires d in all && d !in unusable && !Excluded(d, excluded) && d.id.Some? && d.order.Some?
    ensures d in WithIds(OfOrder(Available(all, unusable, excluded), d.order.value), [d.id.value])
  {
    AvailableHas(all, unusable, excluded, d);
    OfOrderHas(Available(all, unusable, excluded), d.order.value, d);
    WithIdsHas(OfOrder(Available(all, unusable, excluded), d.order.value), [d.id.value], d);
  }

  /** Calls made so far, at most, at the head of the loop. */
  function Spent(next: Attempt, maxRetries: nat, tried: nat, switched: bool): int {
    (if next.headers then maxRetries + 1 else 0) + (if next.described then maxRetries + 1 else 0)
    + next.retry + 2 * (tried - 1) + Flag(switched)
  }

  lemma SpentBound(next: Attempt, maxRetries: nat, tried: nat, switched: bool, n: nat)
    requires next.retry <= maxRetries && 1 <= tried <= n
    ensures Spent(next, maxRetries, tried, switched) + 1 <= 3 * maxRetries + 2 + 2 * n
    ensures tried == 1 && !switched && maxRetries == 0 ==> Spent(next, maxRetries, tried, switched) + 1 <= 3
  {
  }

  function IdOf(d: Deployment): string { if d.id.Some? then d.id.value else "" }

  /** The deployment a run ends with is not among those the request already avoids. */
  lemma NotExcludedYet(all: seq<Deployment>, unusable: set<Deployment>, run: seq<Deployment>)
    requires IsRun(all, unusable, run)
    ensures !Excluded(run[|run| - 1], IdSet(run[..|run| - 1]))
  {
    var n := |run| - 1;
    if n > 0 {
      RunFront(all, unusable, run, run[..n], run[n]);
      var e := FollowerFits(all, unusable, run[..n], run[n]);
    }
  }
}
