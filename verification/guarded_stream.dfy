/**
 A response stream that may be replaced by one retry, but only while nothing of it
 was delivered.  Early events are held back so that a context error can still
 switch the whole answer to the retry.
 */
module GuardedStream {
  import opened Wrappers

  /** An event, with what the chunk classifiers say about it. */
  datatype Chunk = Chunk(
    payload: string,
    response: Option<string>,
    visible: bool,
    completed: bool,
    incomplete: bool,
    emptyCompleted: bool,
    contextError: bool)

  /** What a source does next: deliver a chunk or raise an exception, about context size or not. */
  datatype Event = Item(chunk: Chunk) | Broken(context: bool)

  /** What a retry comes to: not possible, failing, one response, or a stream of its own. */
  datatype Retry = NoRetry | FailingRetry | Single(chunk: Chunk) | Streamed(events: seq<Event>)

  /** Whether the exception built from the held-back chunks is about context size. */
  datatype Classifier = Classifier(terminal: seq<Chunk> -> bool, empty: seq<Chunk> -> bool)

  const HELD_BACK: nat := 20

  predicate Terminal(c: Chunk) { c.completed || c.incomplete }

  predicate AnyVisible(cs: seq<Chunk>) { exists i | 0 <= i < |cs| :: cs[i].visible }

  predicate AnyTerminal(cs: seq<Chunk>) { exists i | 0 <= i < |cs| :: Terminal(cs[i]) }

  // ---- what may be delivered ----

  /** A source's chunks from index i, up to its first terminal one, its first exception or its end. */
  function UpToTerminal(events: seq<Event>, i: nat): seq<Chunk>
    decreases |events| - i
  {
    if i >= |events| || events[i].Broken? then []
    else [events[i].chunk] + if Terminal(events[i].chunk) then [] else UpToTerminal(events, i + 1)
  }

  /** The source breaks before a terminal chunk. */
  predicate Breaks(events: seq<Event>, i: nat)
    decreases |events| - i
  {
    i < |events| && (events[i].Broken? || (!Terminal(events[i].chunk) && Breaks(events, i + 1)))
  }

  /** The retry stream is cut off before a completion that has shown nothing. */
  function RetryChunks(events: seq<Event>, i: nat, shown: bool): seq<Chunk>
    decreases |events| - i
  {
    if i >= |events| || events[i].Broken? then []
    else
      var c := events[i].chunk;
      if c.emptyCompleted && !(shown || c.visible) then []
      else [c] + if Terminal(c) then [] else RetryChunks(events, i + 1, shown || c.visible)
  }

  predicate RetryEndsWell(events: seq<Event>, i: nat, shown: bool)
    decreases |events| - i
  {
    i >= |events| ||
    (events[i].Item? &&
     var c := events[i].chunk;
     !(c.emptyCompleted && !(shown || c.visible)) && (Terminal(c) || RetryEndsWell(events, i + 1, shown || c.visible)))
  }

  function RetryDelivers(r: Retry): seq<Chunk> {
    match r
    case Single(c) => [c]
    case Streamed(events) => RetryChunks(events, 0, false)
    case _ => []
  }

  predicate RetrySucceeds(r: Retry) {
    match r
    case Single(_) => true
    case Streamed(events) => RetryEndsWell(events, 0, false)
    case _ => false
  }

  // ---- when the retry is made ----

  /** The first k events, as chunks. */
  function Chunks(events: seq<Event>, k: nat): seq<Chunk>
    requires k <= |events| && forall i | 0 <= i < k :: events[i].Item?
  {
    if k == 0 then [] else Chunks(events, k - 1) + [events[k - 1].chunk]
  }

  /** The first k events are chunks that are held back. */
  predicate Quiet(source: seq<Event>, k: nat) {
    k <= |source| && k < HELD_BACK
    && forall i | 0 <= i < k ::
         source[i].Item? && !source[i].chunk.contextError && !source[i].chunk.visible && !Terminal(source[i].chunk)
         && !source[i].chunk.emptyCompleted
  }

  /** Event k reveals a context error, the k chunks before it being held back. */
  predicate FailsByContext(source: seq<Event>, k: nat, classify: Classifier)
    requires Quiet(source, k)
  {
    k < |source| &&
    match source[k]
    case Broken(context) => context
    case Item(c) =>
      var held := Chunks(source, k) + [c];
      c.contextError
      || if c.emptyCompleted && !c.visible then classify.empty(held)
         else c.incomplete && classify.terminal(held)
  }

  ghost predicate WantsRetry(source: seq<Event>, classify: Classifier) {
    exists k: nat :: Quiet(source, k) && FailsByContext(source, k, classify)
  }

  /** The source breaks, or completes without having shown anything, while all before it is held back. */
  predicate FailsHeld(source: seq<Event>, k: nat) {
    Quiet(source, k) && k < |source|
    && (source[k].Broken? || (source[k].chunk.emptyCompleted && !source[k].chunk.visible))
  }

  ghost predicate NothingShown(source: seq<Event>) { exists k: nat :: FailsHeld(source, k) }

  lemma NothingShownAt(source: seq<Event>, i: nat)
    requires Quiet(source, i) && !Quiet(source, i + 1)
    ensures NothingShown(source) <==> FailsHeld(source, i)
  {
    forall k: nat | FailsHeld(source, k) ensures k == i {
      if k > i { assert Quiet(source, i + 1); }
      if k < i { assert Quiet(source, k + 1); }
    }
  }

  // ---- the generator ----

  method Replay(r: Retry) returns (delivered: seq<Chunk>, ok: bool)
    ensures delivered == RetryDelivers(r) && ok == RetrySucceeds(r)
  {
    match r {
      case NoRetry => return [], false;
      case FailingRetry => return [], false;
      case Single(c) => return [c], true;
      case Streamed(events) =>
        delivered, ok := ReplayStream(events);
    }
  }

  method ReplayStream(events: seq<Event>) returns (delivered: seq<Chunk>, ok: bool)
    ensures delivered == RetryChunks(events, 0, false) && ok == RetryEndsWell(events, 0, false)
  {
    hide Terminal;
    delivered := [];
    var shown, i := false, 0;
    while i < |events|
      invariant 0 <= i <= |events|
      invariant RetryChunks(events, 0, false) == delivered + RetryChunks(events, i, shown)
      invariant RetryEndsWell(events, 0, false) == RetryEndsWell(events, i, shown)
    {
      if events[i].Broken? {
        return delivered, false;
      }
      var c := events[i].chunk;
      RetryOne(events, i, shown, delivered);
      shown := shown || c.visible;
      if c.emptyCompleted && !shown {
        return delivered, false;
      }
      delivered := delivered + [c];
      if Terminal(c) {
        return delivered, true;
      }
      i := i + 1;
    }
    return delivered, true;
  }

  lemma RetryOne(events: seq<Event>, i: nat, shown: bool, before: seq<Chunk>)
    requires i < |events| && events[i].Item?
    ensures var c := events[i].chunk;
            var rest := RetryChunks(events, i + 1, shown || c.visible);
            before + RetryChunks(events, i, shown)
            == if c.emptyCompleted && !(shown || c.visible) then before
               else if Terminal(c) then before + [c] else (before + [c]) + rest
  {
    var c := events[i].chunk;
    if !Terminal(c) { Regroup(before, c, RetryChunks(events, i + 1, shown || c.visible)); }
  }

  /** The part of the generator that runs once delivery of the source has started. */
  method PassThrough(source: seq<Event>, from: nat, before: seq<Chunk>) returns (delivered: seq<Chunk>, ok: bool)
    requires from <= |source|
    ensures delivered == before + UpToTerminal(source, from) && ok == !Breaks(source, from)
  {
    hide UpToTerminal, Breaks, Terminal;
    delivered := before;
    var i := from;
    while i < |source|
      invariant from <= i <= |source|
      invariant before + UpToTerminal(source, from) == delivered + UpToTerminal(source, i)
      invariant Breaks(source, from) == Breaks(source, i)
    {
      UpToNone(source, i);
      if source[i].Broken? {
        return delivered, false;
      }
      UpToOne(source, i);
      Regroup(delivered, source[i].chunk, UpToTerminal(source, i + 1));
      delivered := delivered + [source[i].chunk];
      if Terminal(source[i].chunk) {
        return delivered, true;
      }
      i := i + 1;
    }
    UpToNone(source, i);
    return delivered, true;
  }

  /**
   What reaches the client is the source up to its first terminal event, or the
   retry alone, or nothing.  The retry is made at most once, exactly when a
   context error shows up among the first events while all before it were held.
   */
  method Guarded(source: seq<Event>, retry: Retry, classify: Classifier)
      returns (delivered: seq<Chunk>, ok: bool, retries: nat, held: nat)
    ensures retries == (if WantsRetry(source, classify) then 1 else 0)
    ensures retries == 1 ==> delivered == RetryDelivers(retry) && ok == RetrySucceeds(retry)
    ensures retries == 0 ==> if NothingShown(source) then delivered == [] && !ok
                             else delivered == UpToTerminal(source, 0) && ok == !Breaks(source, 0)
    ensures held <= HELD_BACK
  {
    var buffered: seq<Chunk> := [];
    var i := 0;
    retries, held := 0, 0;
    while i < |source|
      invariant 0 <= i <= |source| && Quiet(source, i) && buffered == Chunks(source, i)
      invariant forall k | 0 <= k < i :: !FailsByContext(source, k, classify)
      invariant retries == 0 && held <= i
    {
      if source[i].Broken? {
        if source[i].context {
          assert FailsByContext(source, i, classify);
          delivered, ok := Replay(retry);
          return delivered, ok, 1, held;
        }
        NoRetryFrom(source, i, classify);
        NothingShownAt(source, i);
        return [], false, 0, held;
      }
      var chunk := source[i].chunk;
      var verdict := Judge(buffered, chunk, classify, source, i);
      if !chunk.contextError {
        buffered := buffered + [chunk];
        held := i + 1;
      }
      match verdict {
        case Switch =>
          delivered, ok := Replay(retry);
          return delivered, ok, 1, held;
        case Fail =>
          NoRetryFrom(source, i, classify);
          NothingShownAt(source, i);
          return [], false, 0, held;
        case Deliver =>
          NoRetryFrom(source, i, classify);
          NothingShownAt(source, i);
          delivered, ok := Flush(source, i, buffered);
          return delivered, ok, 0, held;
        case Hold =>
          i := i + 1;
      }
    }
    NoRetryFrom(source, i, classify);
    NothingShownAt(source, i);
    QuietSplit(source, i);
    return buffered, true, 0, held;
  }

  /** Deliver what was held back, then the rest of the source, up to a terminal chunk. */
  method Flush(source: seq<Event>, i: nat, buffered: seq<Chunk>) returns (delivered: seq<Chunk>, ok: bool)
    requires i < |source| && Quiet(source, i) && source[i].Item?
    requires buffered == Chunks(source, i) + [source[i].chunk]
    ensures delivered == UpToTerminal(source, 0) && ok == !Breaks(source, 0)
  {
    FlushSplit(source, i, buffered);
    if AnyTerminal(buffered) {
      return buffered, true;
    }
    delivered, ok := PassThrough(source, i + 1, buffered);
  }

  lemma FlushSplit(source: seq<Event>, i: nat, buffered: seq<Chunk>)
    requires i < |source| && Quiet(source, i) && source[i].Item?
    requires buffered == Chunks(source, i) + [source[i].chunk]
    ensures AnyTerminal(buffered) ==> UpToTerminal(source, 0) == buffered && !Breaks(source, 0)
    ensures !AnyTerminal(buffered) ==> UpToTerminal(source, 0) == buffered + UpToTerminal(source, i + 1)
    ensures !AnyTerminal(buffered) ==> Breaks(source, 0) == Breaks(source, i + 1)
  {
    var c := source[i].chunk;
    HeldQuiet(source, i);
    AppendHeld(Chunks(source, i), c);
    QuietSplit(source, i);
    UpToOne(source, i);
    Regroup(Chunks(source, i), c, UpToTerminal(source, i + 1));
  }

  lemma UpToNone(source: seq<Event>, i: nat)
    ensures i >= |source| || source[i].Broken? ==> UpToTerminal(source, i) == []
    ensures i >= |source| || source[i].Broken? ==> (Breaks(source, i) <==> i < |source|)
  {
  }

  lemma UpToOne(source: seq<Event>, i: nat)
    requires i < |source| && source[i].Item?
    ensures Terminal(source[i].chunk) ==> UpToTerminal(source, i) == [source[i].chunk] && !Breaks(source, i)
    ensures !Terminal(source[i].chunk) ==> UpToTerminal(source, i) == [source[i].chunk] + UpToTerminal(source, i + 1)
    ensures !Terminal(source[i].chunk) ==> Breaks(source, i) == Breaks(source, i + 1)
  {
  }

  lemma Regroup(held: seq<Chunk>, c: Chunk, rest: seq<Chunk>)
    ensures held + ([c] + rest) == (held + [c]) + rest
  {
  }

  /** Chunks that are not terminal are delivered first, whatever comes behind them. */
  lemma {:induction false} QuietSplit(source: seq<Event>, k: nat)
    requires k <= |source| && forall i | 0 <= i < k :: source[i].Item? && !Terminal(source[i].chunk)
    ensures UpToTerminal(source, 0) == Chunks(source, k) + UpToTerminal(source, k)
    ensures Breaks(source, 0) == Breaks(source, k)
    decreases k
  {
    hide UpToTerminal, Breaks, Terminal;
    if k > 0 {
      QuietSplit(source, k - 1);
      QuietStep(source, k - 1);
      Regrouped(Chunks(source, k - 1), [source[k - 1].chunk], UpToTerminal(source, k));
    } else {
      assert [] + UpToTerminal(source, 0) == UpToTerminal(source, 0);
    }
  }

  lemma QuietStep(source: seq<Event>, i: nat)
    requires i < |source| && source[i].Item? && !Terminal(source[i].chunk)
    ensures UpToTerminal(source, i) == [source[i].chunk] + UpToTerminal(source, i + 1)
    ensures Breaks(source, i) == Breaks(source, i + 1)
  {
  }

  /** What the loop body does with one chunk. */
  datatype Verdict = Switch | Fail | Deliver | Hold

  method Judge(buffered: seq<Chunk>, chunk: Chunk, classify: Classifier, ghost source: seq<Event>, ghost i: nat)
      returns (v: Verdict)
    requires i < |source| && Quiet(source, i) && buffered == Chunks(source, i) && source[i] == Item(chunk)
    ensures v == Switch <==> FailsByContext(source, i, classify)
    ensures v == Fail <==> v != Switch && FailsHeld(source, i)
    ensures v == Hold ==> Quiet(source, i + 1)
    ensures v == Fail || v == Deliver ==> !Quiet(source, i + 1)
  {
    HeldQuiet(source, i);
    AppendHeld(buffered, chunk);
    if chunk.contextError {
      return Switch;
    }
    var buffered := buffered + [chunk];
    if chunk.emptyCompleted && !AnyVisible(buffered) {
      return if classify.empty(buffered) then Switch else Fail;
    }
    if chunk.incomplete && classify.terminal(buffered) {
      return Switch;
    }
    if chunk.visible || Terminal(chunk) || |buffered| >= HELD_BACK {
      return Deliver;
    }
    return Hold;
  }

  lemma {:induction false} HeldQuiet(source: seq<Event>, i: nat)
    requires Quiet(source, i)
    ensures !AnyVisible(Chunks(source, i)) && !AnyTerminal(Chunks(source, i)) && |Chunks(source, i)| == i
  {
    if i > 0 {
      HeldQuiet(source, i - 1);
      AppendHeld(Chunks(source, i - 1), source[i - 1].chunk);
    }
  }

  lemma AppendHeld(cs: seq<Chunk>, c: Chunk)
    ensures AnyVisible(cs + [c]) <==> AnyVisible(cs) || c.visible
    ensures AnyTerminal(cs + [c]) <==> AnyTerminal(cs) || Terminal(c)
  {
    var all := cs + [c];
    assert all[|cs|] == c;
    if AnyVisible(cs) { var i :| 0 <= i < |cs| && cs[i].visible; assert all[i].visible; }
    if AnyTerminal(cs) { var i :| 0 <= i < |cs| && Terminal(cs[i]); assert Terminal(all[i]); }
  }

  /** The chunks from i to n. */
  function Between(events: seq<Event>, i: nat, n: nat): seq<Chunk>
    requires i <= n <= |events| && forall k | i <= k < n :: events[k].Item?
    decreases n - i
  {
    if i == n then [] else [events[i].chunk] + Between(events, i + 1, n)
  }

  /** Chunks are delivered from the first one on, up to a terminal one, an exception or the end. */
  lemma {:induction false} DeliversUpTo(events: seq<Event>, i: nat) returns (n: nat)
    requires i <= |events|
    ensures i <= n <= |events| && (forall k | i <= k < n :: events[k].Item?)
    ensures UpToTerminal(events, i) == Between(events, i, n) && forall k | i <= k < n - 1 :: !Terminal(events[k].chunk)
    ensures n == |events| || events[n].Broken? || (n > i && Terminal(events[n - 1].chunk))
    ensures Breaks(events, i) <==> n < |events| && events[n].Broken? && (n == i || !Terminal(events[n - 1].chunk))
    decreases |events| - i
  {
    hide Terminal, UpToTerminal, Breaks;
    n := i;
    UpToNone(events, i);
    if i < |events| && events[i].Item? {
      UpToOne(events, i);
      n := i + 1;
      if !Terminal(events[i].chunk) { n := DeliversUpTo(events, i + 1); }
    }
  }

  /** Something visible is in the events from i to k, or was before. */
  predicate Shows(events: seq<Event>, i: nat, k: nat, shown: bool) {
    shown || exists j :: i <= j < k && j < |events| && events[j].Item? && events[j].chunk.visible
  }

  lemma ShowsStep(events: seq<Event>, i: nat, k: nat, shown: bool)
    requires i < k <= |events| && events[i].Item?
    ensures Shows(events, i, k, shown) <==> Shows(events, i + 1, k, shown || events[i].chunk.visible)
  {
  }

  /** So is a retry's stream, but it is cut off in front of the first completion that has shown nothing. */
  ghost predicate RetryStopsAt(events: seq<Event>, i: nat, shown: bool, n: nat) {
    && i <= n <= |events| && (forall k | i <= k < n :: events[k].Item?)
    && (forall k | i <= k < n - 1 :: !Terminal(events[k].chunk))
    && (forall k: nat | i <= k < n :: events[k].chunk.emptyCompleted ==> Shows(events, i, k + 1, shown))
    && (n == |events| || (n > i && Terminal(events[n - 1].chunk)) || events[n].Broken?
        || (events[n].chunk.emptyCompleted && !Shows(events, i, n + 1, shown)))
  }

  lemma {:induction false} RetryDeliversUpTo(events: seq<Event>, i: nat, shown: bool) returns (n: nat)
    requires i <= |events|
    ensures RetryStopsAt(events, i, shown, n) && i <= n <= |events|
    ensures (forall k | i <= k < n :: events[k].Item?) && RetryChunks(events, i, shown) == Between(events, i, n)
    ensures RetryEndsWell(events, i, shown) <==> n == |events| || (n > i && Terminal(events[n - 1].chunk))
    decreases |events| - i
  {
    hide RetryStopsAt, Shows, Terminal;
    n := i;
    if i < |events| && events[i].Item? {
      var c := events[i].chunk;
      if !(c.emptyCompleted && !(shown || c.visible)) {
        if Terminal(c) {
          n := i + 1;
        } else {
          n := RetryDeliversUpTo(events, i + 1, shown || c.visible);
        }
        RetryGoesOn(events, i, shown, n);
      } else {
        RetryEnds(events, i, shown);
      }
    } else {
      RetryEnds(events, i, shown);
    }
  }

  lemma RetryEnds(events: seq<Event>, i: nat, shown: bool)
    requires i <= |events|
    requires i < |events| && events[i].Item? ==>
               events[i].chunk.emptyCompleted && !(shown || events[i].chunk.visible)
    ensures RetryStopsAt(events, i, shown, i)
  {
  }

  lemma RetryGoesOn(events: seq<Event>, i: nat, shown: bool, n: nat)
    requires i < |events| && events[i].Item? && i < n <= |events|
    requires !(events[i].chunk.emptyCompleted && !(shown || events[i].chunk.visible))
    requires if Terminal(events[i].chunk) then n == i + 1
             else RetryStopsAt(events, i + 1, shown || events[i].chunk.visible, n)
    ensures RetryStopsAt(events, i, shown, n)
  {
    hide Shows;
    forall k: nat | i <= k < n ensures events[k].chunk.emptyCompleted ==> Shows(events, i, k + 1, shown) {
      ShowsStep(events, i, k + 1, shown);
      if k == i { ShowsAtOnce(events, i, shown); }
    }
    if n < |events| { ShowsStep(events, i, n + 1, shown); }
  }

  lemma ShowsAtOnce(events: seq<Event>, i: nat, shown: bool)
    requires i < |events| && events[i].Item?
    ensures Shows(events, i, i + 1, shown) <==> shown || events[i].chunk.visible
  {
  }

  /** Once delivery starts, or the source ends or fails otherwise, no later event can ask for the retry. */
  lemma NoRetryFrom(source: seq<Event>, i: nat, classify: Classifier)
    requires i <= |source| && Quiet(source, i)
    requires forall k | 0 <= k <= i :: !FailsByContext(source, k, classify)
    requires !Quiet(source, i + 1)
    ensures !WantsRetry(source, classify)
  {
    forall k: nat ensures !(Quiet(source, k) && FailsByContext(source, k, classify)) {
      if Quiet(source, k) && k > i { assert Quiet(source, i + 1); }
    }
  }

  // ---- after the generator ----

  /** The delivered chunks hold nothing behind a terminal one. */
  predicate EndsAtTerminal(cs: seq<Chunk>) { forall i | 0 <= i < |cs| - 1 :: !Terminal(cs[i]) }

  lemma {:induction false} SourceEndsAtTerminal(events: seq<Event>, i: nat)
    ensures EndsAtTerminal(UpToTerminal(events, i))
    decreases |events| - i
  {
    if i < |events| && events[i].Item? { SourceEndsAtTerminal(events, i + 1); }
  }

  lemma {:induction false} RetryEndsAtTerminal(events: seq<Event>, i: nat, shown: bool)
    ensures EndsAtTerminal(RetryChunks(events, i, shown))
    decreases |events| - i
  {
    if i < |events| && events[i].Item? { RetryEndsAtTerminal(events, i + 1, shown || events[i].chunk.visible); }
  }

  /** Whatever the guarded stream delivers, a terminal event is the last one. */
  lemma DeliveryEndsAtTerminal(source: seq<Event>, retry: Retry, delivered: seq<Chunk>)
    requires delivered in {[], UpToTerminal(source, 0), RetryDelivers(retry)}
    ensures EndsAtTerminal(delivered)
  {
    SourceEndsAtTerminal(source, 0);
    if retry.Streamed? { RetryEndsAtTerminal(retry.events, 0, false); }
  }

  /** One read of the client. */
  datatype Read = Next(chunk: Chunk) | Stop | Raise

  /** The wrapper the client reads from; its stream is what the generator still has to deliver. */
  class ContextTruncationStream {
    var pending: seq<Chunk>
    const endsWell: bool
    const sourceCompleted: Option<string>
    var closed: bool
    var completedResponse: Option<string>

    constructor (pending: seq<Chunk>, endsWell: bool, sourceCompleted: Option<string>)
      ensures this.pending == pending && this.endsWell == endsWell && this.sourceCompleted == sourceCompleted
      ensures !closed && completedResponse == sourceCompleted
    {
      this.pending, this.endsWell, this.sourceCompleted := pending, endsWell, sourceCompleted;
      closed, completedResponse := false, sourceCompleted;
    }

    method RememberCompletion(chunk: Option<Chunk>)
      modifies this`completedResponse
      ensures completedResponse ==
              if chunk.Some? && Terminal(chunk.value) then Some(chunk.value.response.GetOr(chunk.value.payload))
              else if sourceCompleted.Some? then sourceCompleted else old(completedResponse)
    {
      if chunk.Some? && Terminal(chunk.value) {
        completedResponse := Some(chunk.value.response.GetOr(chunk.value.payload));
        return;
      }
      if sourceCompleted.Some? {
        completedResponse := sourceCompleted;
      }
    }

    /** A terminal chunk closes the stream at once; a closed stream delivers nothing more. */
    method Read() returns (r: Read)
      modifies this
      ensures old(closed) ==> r == Stop && unchanged(this)
      ensures !old(closed) && old(pending) != [] ==>
                r == Next(old(pending)[0]) && pending == old(pending)[1..] && closed == Terminal(old(pending)[0])
      ensures !old(closed) && old(pending) == [] ==> closed && r == if endsWell then Stop else Raise
      ensures r.Next? && Terminal(r.chunk) ==>
                completedResponse == Some(r.chunk.response.GetOr(r.chunk.payload))
      ensures !(r.Next? && Terminal(r.chunk)) ==>
                completedResponse == old(completedResponse) || (sourceCompleted.Some? && completedResponse == sourceCompleted)
    {
      if closed {
        return Stop;
      }
      if pending == [] {
        if endsWell {
          RememberCompletion(None);
        }
        closed := true;
        return if endsWell then Stop else Raise;
      }
      var chunk := pending[0];
      pending := pending[1..];
      RememberCompletion(Some(chunk));
      if Terminal(chunk) {
        closed := true;
      }
      return Next(chunk);
    }
  }

  /**
   Reading until the stream stops yields exactly what the generator delivers, and
   the remembered response is that of the terminal chunk the client saw last.
   */
  method ReadAll(delivered: seq<Chunk>, endsWell: bool, sourceCompleted: Option<string>)
      returns (seen: seq<Chunk>, last: Read, completed: Option<string>)
    requires EndsAtTerminal(delivered)
    ensures seen == delivered && !last.Next?
    ensures delivered != [] && Terminal(delivered[|delivered| - 1]) ==>
              last == Stop
              && completed == Some(delivered[|delivered| - 1].response.GetOr(delivered[|delivered| - 1].payload))
    ensures (delivered == [] || !Terminal(delivered[|delivered| - 1])) ==>
              last == (if endsWell then Stop else Raise) && completed == sourceCompleted
  {
    var stream := new ContextTruncationStream(delivered, endsWell, sourceCompleted);
    seen, last := [], Stop;
    while true
      invariant stream.sourceCompleted == sourceCompleted && (!stream.closed ==> stream.completedResponse == sourceCompleted)
      invariant fresh(stream) && stream.endsWell == endsWell && delivered == seen + stream.pending
      invariant stream.closed <==> seen != [] && Terminal(seen[|seen| - 1])
      invariant stream.closed ==> stream.pending == []
      invariant stream.closed ==>
                  stream.completedResponse == Some(seen[|seen| - 1].response.GetOr(seen[|seen| - 1].payload))
      decreases |stream.pending|
    {
      last := stream.Read();
      if !last.Next? {
        break;
      }
      seen := seen + [last.chunk];
      if Terminal(last.chunk) {
        assert delivered[|seen| - 1] == last.chunk;
      }
    }
    completed := stream.completedResponse;
  }
}
