/**
 The span export queue: spans wait in a bounded buffer, the oldest are evicted when it overflows, and the export
 thread takes them away in batches. Every critical section under the queue's mutex is one event.
 */
module SpanLaws {

  const BATCH: nat := 64
  const MAX_BUFFERED: nat := 4096
  const MIN_BACKOFF: nat := 200
  const MAX_BACKOFF: nat := 5000

  /** What became of a span that is no longer buffered. */
  datatype Fate = Evicted | Taken

  datatype Batch<S> = Batch(spans: seq<S>, fromLoop: bool)

  /** `enqueued`, `fates` and `batches` are history; `enabled` tells whether an endpoint is configured. */
  datatype Exporter<S> = Exporter(
    buffer: seq<S>,
    stop: bool,
    backoff: nat,
    enabled: bool,
    enqueued: seq<S>,
    fates: seq<Fate>,
    batches: seq<Batch<S>>)

  function Fresh<S>(enabled: bool): Exporter<S> {
    Exporter([], false, MIN_BACKOFF, enabled, [], [], [])
  }

  /** `ok` is what the network answers for a batch that is not empty. */
  datatype Event<S> =
    | Enqueue(span: S)
    | TakeBatch(ok: bool)
    | Stop
    | TakeAll

  function Same(n: nat, f: Fate): (fs: seq<Fate>)
    ensures |fs| == n
  {
    seq(n, _ => f)
  }

  function Min(x: nat, y: nat): nat {
    if x < y then x else y
  }

  function Push<S>(x: Exporter<S>, span: S): Exporter<S> {
    var pushed := x.buffer + [span];
    var excess := if |pushed| > MAX_BUFFERED then |pushed| - MAX_BUFFERED else 0;
    x.(buffer := pushed[excess..], enqueued := x.enqueued + [span], fates := x.fates + Same(excess, Evicted))
  }

  function Take<S>(x: Exporter<S>, n: nat, fromLoop: bool): Exporter<S>
    requires n <= |x.buffer|
  {
    x.(buffer := x.buffer[n..],
       fates := x.fates + Same(n, Taken),
       batches := x.batches + [Batch(x.buffer[..n], fromLoop)])
  }

  /** An export of nothing succeeds, and a disabled exporter leaves the wait alone. */
  function NextBackoff<S>(x: Exporter<S>, batch: seq<S>, ok: bool): nat {
    if !x.enabled then x.backoff
    else if ok || batch == [] then MIN_BACKOFF
    else Min(x.backoff * 2, MAX_BACKOFF)
  }

  /** One turn of the export loop, which has ended once the exporter is stopped and the buffer empty. */
  function LoopTurn<S>(x: Exporter<S>, ok: bool): Exporter<S> {
    if x.stop && x.buffer == [] then
      x
    else
      var n := Min(BATCH, |x.buffer|);
      Take(x, n, true).(backoff := NextBackoff(x, x.buffer[..n], ok))
  }

  function Step<S>(x: Exporter<S>, e: Event<S>): Exporter<S> {
    match e
    case Enqueue(span) => Push(x, span)
    case TakeBatch(ok) => LoopTurn(x, ok)
    case Stop => x.(stop := true)
    case TakeAll => Take(x, |x.buffer|, false)
  }

  function Run<S>(x: Exporter<S>, events: seq<Event<S>>): Exporter<S>
    decreases |events|
  {
    if events == [] then x else Run(Step(x, events[0]), events[1..])
  }

  // ----- What left, and in which order

  /** The spans that were taken, in the order they were enqueued. */
  function Survivors<S>(spans: seq<S>, fates: seq<Fate>): seq<S>
    requires |spans| == |fates|
    decreases |spans|
  {
    if spans == [] then
      []
    else
      var n := |spans| - 1;
      Survivors(spans[..n], fates[..n]) + (if fates[n].Taken? then [spans[n]] else [])
  }

  function Count(fates: seq<Fate>, f: Fate): nat {
    if fates == [] then 0 else Count(fates[..|fates| - 1], f) + (if fates[|fates| - 1] == f then 1 else 0)
  }

  function Exported<S>(batches: seq<Batch<S>>): seq<S> {
    if batches == [] then [] else Exported(batches[..|batches| - 1]) + batches[|batches| - 1].spans
  }

  ghost predicate Inv<S>(x: Exporter<S>) {
    && |x.buffer| <= MAX_BUFFERED
    && |x.fates| <= |x.enqueued| && x.buffer == x.enqueued[|x.fates|..]
    && Exported(x.batches) == Survivors(x.enqueued[..|x.fates|], x.fates)
    && (forall b :: b in x.batches ==> |b.spans| <= (if b.fromLoop then BATCH else MAX_BUFFERED))
    && MIN_BACKOFF <= x.backoff <= MAX_BACKOFF
  }

  lemma SurvivorsSnoc<S>(spans: seq<S>, fates: seq<Fate>, span: S, f: Fate)
    requires |spans| == |fates|
    ensures Survivors(spans + [span], fates + [f]) == Survivors(spans, fates) + (if f.Taken? then [span] else [])
  {
    assert (spans + [span])[..|spans|] == spans && (fates + [f])[..|fates|] == fates;
  }

  lemma {:induction false} SurvivorsAppend<S>(spans: seq<S>, fates: seq<Fate>, more: seq<S>, f: Fate)
    requires |spans| == |fates|
    ensures Survivors(spans + more, fates + Same(|more|, f)) ==
            Survivors(spans, fates) + (if f.Taken? then more else [])
    decreases |more|
  {
    if more == [] {
      assert spans + more == spans && fates + Same(0, f) == fates;
    } else {
      var n := |more| - 1;
      var most, fs := spans + more[..n], fates + Same(n, f);
      SurvivorsAppend(spans, fates, more[..n], f);
      SurvivorsSnoc(most, fs, more[n], f);
      assert spans + more == most + [more[n]] && fates + Same(|more|, f) == fs + [f];
      assert more == more[..n] + [more[n]];
    }
  }

  lemma ExportedAppend<S>(batches: seq<Batch<S>>, b: Batch<S>)
    ensures Exported(batches + [b]) == Exported(batches) + b.spans
  {
    assert (batches + [b])[..|batches|] == batches;
  }

  lemma {:induction false} EveryFateCounted(fates: seq<Fate>)
    ensures Count(fates, Evicted) + Count(fates, Taken) == |fates|
    decreases |fates|
  {
    if fates != [] {
      EveryFateCounted(fates[..|fates| - 1]);
    }
  }

  lemma {:induction false} SurvivorsCount<S>(spans: seq<S>, fates: seq<Fate>)
    requires |spans| == |fates|
    ensures |Survivors(spans, fates)| == Count(fates, Taken)
    decreases |spans|
  {
    if spans != [] {
      SurvivorsCount(spans[..|spans| - 1], fates[..|fates| - 1]);
    }
  }

  // ----- Every critical section keeps the invariant

  lemma PushInv<S>(x: Exporter<S>, span: S)
    requires Inv(x)
    ensures Inv(Push(x, span))
  {
    var x' := Push(x, span);
    var k, k' := |x.fates|, |x'.fates|;
    var excess := k' - k;
    var gone := x'.enqueued[k..k'];
    assert x'.enqueued[k..] == x.buffer + [span];
    assert x'.enqueued[k'..] == x'.enqueued[k..][excess..];
    assert x'.enqueued[..k'] == x.enqueued[..k] + gone;
    SurvivorsAppend(x.enqueued[..k], x.fates, gone, Evicted);
  }

  /** Nothing is evicted before the buffer is full, and then only the oldest span. */
  lemma EvictsOnlyWhenFull<S>(x: Exporter<S>, span: S)
    requires Inv(x)
    ensures |Push(x, span).buffer| == Min(|x.buffer| + 1, 4096)
    ensures Push(x, span).fates == if |x.buffer| == 4096 then x.fates + [Evicted] else x.fates
  {
    assert Same(1, Evicted) == [Evicted] && x.fates + Same(0, Evicted) == x.fates;
  }

  lemma TakeInv<S>(x: Exporter<S>, n: nat, fromLoop: bool)
    requires Inv(x) && n <= |x.buffer| && (fromLoop ==> n <= BATCH)
    ensures Inv(Take(x, n, fromLoop))
  {
    var k := |x.fates|;
    var x' := Take(x, n, fromLoop);
    assert x.enqueued[..k + n] == x.enqueued[..k] + x.buffer[..n];
    assert x.enqueued[k + n..] == x.buffer[n..];
    SurvivorsAppend(x.enqueued[..k], x.fates, x.buffer[..n], Taken);
    ExportedAppend(x.batches, Batch(x.buffer[..n], fromLoop));
  }

  lemma StepInv<S>(x: Exporter<S>, e: Event<S>)
    requires Inv(x)
    ensures Inv(Step(x, e))
  {
    match e
    case Enqueue(span) => PushInv(x, span);
    case TakeBatch(ok) =>
      if !(x.stop && x.buffer == []) {
        TakeInv(x, Min(BATCH, |x.buffer|), true);
      }
    case Stop =>
    case TakeAll => TakeInv(x, |x.buffer|, false);
  }

  lemma {:induction false} RunInv<S>(x: Exporter<S>, events: seq<Event<S>>)
    requires Inv(x)
    ensures Inv(Run(x, events))
    decreases |events|
  {
    if events != [] {
      StepInv(x, events[0]);
      RunInv(Step(x, events[0]), events[1..]);
    }
  }

  /**
   After every interleaving of producers and the export thread: the buffer is the newest part of what was enqueued;
   every other span was either evicted or taken, never both; and what was taken left in order, in batches of at most
   64 from the loop.
   */
  lemma QueueTheorem<S>(enabled: bool, events: seq<Event<S>>)
    ensures var x := Run(Fresh<S>(enabled), events);
            && |x.buffer| <= 4096
            && |x.fates| + |x.buffer| == |x.enqueued|
            && x.buffer == x.enqueued[|x.fates|..]
            && Exported(x.batches) == Survivors(x.enqueued[..|x.fates|], x.fates)
            && |x.enqueued| == Count(x.fates, Evicted) + |Exported(x.batches)| + |x.buffer|
            && (forall b :: b in x.batches && b.fromLoop ==> |b.spans| <= 64)
            && 200 <= x.backoff <= 5000
  {
    RunInv(Fresh<S>(enabled), events);
    var x := Run(Fresh<S>(enabled), events);
    EveryFateCounted(x.fates);
    SurvivorsCount(x.enqueued[..|x.fates|], x.fates);
  }

  /** The span is the newest in the buffer; of a full one the oldest is gone; nothing was taken or stopped. */
  ghost predicate TookIn<S>(x: Exporter<S>, y: Exporter<S>, span: S) {
    && y.enqueued == x.enqueued + [span] && y.batches == x.batches && y.stop == x.stop
    && y.buffer == if |x.buffer| < 4096 then x.buffer + [span] else x.buffer[1..] + [span]
  }

  lemma PushTakesIn<S>(x: Exporter<S>, span: S)
    requires Inv(x)
    ensures TookIn(x, Push(x, span), span)
  {
  }

  // ----- A turn of the loop

  /** The oldest spans, 64 or all if there are fewer, have left as a batch; nothing was enqueued or stopped. */
  ghost predicate TookBatch<S>(x: Exporter<S>, y: Exporter<S>) {
    var n := if |x.buffer| < 64 then |x.buffer| else 64;
    && y.buffer == x.buffer[n..] && y.batches == x.batches + [Batch(x.buffer[..n], true)]
    && y.enqueued == x.enqueued && y.stop == x.stop
  }

  lemma LoopTurnTakes<S>(x: Exporter<S>, ok: bool)
    requires !(x.stop && x.buffer == [])
    ensures TookBatch(x, LoopTurn(x, ok))
  {
  }

  // ----- Shutdown

  /** What has been taken and what is still buffered, in order. */
  function Ahead<S>(x: Exporter<S>): seq<S> {
    Exported(x.batches) + x.buffer
  }

  /** Taking a batch loses nothing and changes no order. */
  lemma TakeKeepsOrder<S>(x: Exporter<S>, n: nat, fromLoop: bool)
    requires n <= |x.buffer|
    ensures Ahead(Take(x, n, fromLoop)) == Ahead(x)
  {
    ExportedAppend(x.batches, Batch(x.buffer[..n], fromLoop));
    assert x.buffer == x.buffer[..n] + x.buffer[n..];
  }

  /** Turns of the loop, whatever the network answers. */
  function Drain<S>(x: Exporter<S>, answers: seq<bool>): Exporter<S>
    decreases |answers|
  {
    if answers == [] then x else Drain(LoopTurn(x, answers[0]), answers[1..])
  }

  /** A turn of the stopped loop over a buffer that is not empty takes one batch off it. */
  lemma TurnTakesBatch<S>(x: Exporter<S>, ok: bool)
    requires x.stop && x.buffer != []
    ensures var y := LoopTurn(x, ok);
            && y.stop && y.enqueued == x.enqueued && Ahead(y) == Ahead(x)
            && |y.buffer| == |x.buffer| - Min(BATCH, |x.buffer|)
  {
    TakeKeepsOrder(x, Min(BATCH, |x.buffer|), true);
  }

  /**
   Once stopped, with nothing more coming in, a turn for each batch of 64 empties the buffer: every span that was
   still buffered is taken, once and in order.
   */
  lemma {:induction false} DrainTheorem<S>(x: Exporter<S>, answers: seq<bool>)
    requires x.stop && |answers| * BATCH >= |x.buffer|
    ensures var x' := Drain(x, answers);
            x'.buffer == [] && x'.stop && x'.enqueued == x.enqueued && Exported(x'.batches) == Ahead(x)
    decreases |answers|
  {
    if answers == [] || x.buffer == [] {
      Idle(x, answers);
      assert Ahead(x) == Exported(x.batches);
    } else {
      TurnTakesBatch(x, answers[0]);
      var y := LoopTurn(x, answers[0]);
      DrainTheorem(y, answers[1..]);
    }
  }

  lemma {:induction false} Idle<S>(x: Exporter<S>, answers: seq<bool>)
    requires x.stop && x.buffer == []
    ensures Drain(x, answers) == x
    decreases |answers|
  {
    if answers != [] {
      Idle(x, answers[1..]);
    }
  }

  // ----- The wait between turns

  function DoubledTimes(n: nat): nat {
    if n == 0 then 200 else 2 * DoubledTimes(n - 1)
  }

  /** The failed exports in a row after one more event: an export of nothing counts as a success. */
  function StillFailing<S>(x: Exporter<S>, e: Event<S>, n: nat): nat {
    if !e.TakeBatch? || (x.stop && x.buffer == []) then n
    else if e.ok || x.buffer == [] then 0
    else n + 1
  }

  function FailuresInARow<S>(x: Exporter<S>, events: seq<Event<S>>, n: nat): nat
    decreases |events|
  {
    if events == [] then n else FailuresInARow(Step(x, events[0]), events[1..], StillFailing(x, events[0], n))
  }

  lemma {:induction false} BackoffFollows<S>(x: Exporter<S>, events: seq<Event<S>>, n: nat)
    requires x.enabled && x.backoff == Min(DoubledTimes(n), MAX_BACKOFF)
    ensures Run(x, events).backoff == Min(DoubledTimes(FailuresInARow(x, events, n)), MAX_BACKOFF)
    decreases |events|
  {
    if events != [] {
      BackoffFollows(Step(x, events[0]), events[1..], StillFailing(x, events[0], n));
    }
  }

  /**
   After every interleaving of producers and the export thread, the wait is 200 milliseconds doubled for each failed
   export since the last success, up to five seconds.
   */
  lemma BackoffTheorem<S>(events: seq<Event<S>>)
    ensures Run(Fresh<S>(true), events).backoff ==
            Min(DoubledTimes(FailuresInARow(Fresh<S>(true), events, 0)), 5000)
  {
    BackoffFollows(Fresh<S>(true), events, 0);
  }
}
