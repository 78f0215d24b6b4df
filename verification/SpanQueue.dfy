/**
 The queue object of the span exporter. Its methods are the critical sections of the source, updating the buffer in
 place; each does what the event of `SpanLaws` says.
 */
module SpanQueues {
  import opened SpanLaws

  class SpanQueue<S> {
    const enabled: bool
    var buffer: seq<S>
    var stop: bool
    var backoff: nat

    ghost var enqueued: seq<S>
    ghost var fates: seq<Fate>
    ghost var batches: seq<Batch<S>>

    ghost function View(): Exporter<S>
      reads this
    {
      Exporter(buffer, stop, backoff, enabled, enqueued, fates, batches)
    }

    ghost predicate Valid()
      reads this
    {
      Inv(View())
    }

    constructor (enabled: bool)
      ensures Valid() && View() == Fresh<S>(enabled)
    {
      this.enabled := enabled;
      buffer, stop, backoff := [], false, MIN_BACKOFF;
      enqueued, fates, batches := [], [], [];
    }

    /** Adds a span, evicting the oldest beyond the bound; tells whether the export thread should be woken. */
    method Enqueue(span: S) returns (wake: bool)
      requires Valid()
      modifies this
      ensures Valid() && View() == Step(old(View()), SpanLaws.Enqueue(span))
      ensures TookIn(old(View()), View(), span)
      ensures wake <==> |buffer| >= 64
    {
      PushInv(View(), span);
      PushTakesIn(View(), span);
      PushBack(span);
      wake := |buffer| >= BATCH;
    }

    method PushBack(span: S)
      modifies this
      ensures View() == Push(old(View()), span)
    {
      buffer := buffer + [span];
      var excess := 0;
      if |buffer| > MAX_BUFFERED {
        excess := |buffer| - MAX_BUFFERED;
        buffer := buffer[excess..];
      }
      enqueued, fates := enqueued + [span], fates + Same(excess, Evicted);
    }

    method RequestStop()
      requires Valid()
      modifies this`stop
      ensures Valid() && View() == Step(old(View()), Stop)
      ensures stop
    {
      stop := true;
    }

    /** Takes the oldest `n` spans away. */
    method TakeFront(n: nat, fromLoop: bool) returns (batch: seq<S>)
      requires n <= |buffer|
      modifies this`buffer, this`fates, this`batches
      ensures View() == Take(old(View()), n, fromLoop) && batch == old(buffer)[..n]
    {
      batch := buffer[..n];
      buffer := buffer[n..];
      fates, batches := fates + Same(n, Taken), batches + [Batch(batch, fromLoop)];
    }

    /** Takes at most one batch; the loop of the export thread has ended when it returns `done`. */
    method ExportTurn(ok: bool) returns (done: bool)
      requires Valid()
      modifies this
      ensures Valid() && View() == Step(old(View()), TakeBatch(ok))
      ensures done <==> old(stop && buffer == [])
      ensures done ==> View() == old(View())
      ensures !done ==> TookBatch(old(View()), View())
    {
      StepInv(View(), TakeBatch(ok));
      done := stop && buffer == [];
      if !done {
        LoopTurnTakes(View(), ok);
        TakeAndAdapt(ok);
      }
    }

    method TakeAndAdapt(ok: bool)
      requires !(stop && buffer == [])
      modifies this
      ensures View() == LoopTurn(old(View()), ok)
    {
      var batch := TakeFront(Min(BATCH, |buffer|), true);
      if enabled {
        if ok || batch == [] {
          backoff := MIN_BACKOFF;
        } else {
          backoff := Min(backoff * 2, MAX_BACKOFF);
        }
      }
    }

    /** Swaps the whole buffer out: the drain after the loop, and the destructor's safety net. */
    method Flush() returns (remaining: seq<S>)
      requires Valid()
      modifies this
      ensures Valid() && View() == Step(old(View()), TakeAll) && remaining == old(buffer) && buffer == []
    {
      TakeInv(View(), |buffer|, false);
      remaining := TakeFront(|buffer|, false);
    }

    /** The export thread after `stop`, nothing more coming in: it ends, and leaves no span behind. */
    method DrainAndFlush(answers: nat -> bool)
      requires Valid() && stop
      modifies this
      ensures Valid() && buffer == [] && enqueued == old(enqueued)
      ensures Ahead(View()) == Ahead(old(View()))
    {
      var turn := 0;
      var done := false;
      while !done
        invariant Valid() && stop && enqueued == old(enqueued)
        invariant Ahead(View()) == Ahead(old(View()))
        invariant done ==> buffer == []
        decreases !done, |buffer|
      {
        TakeKeepsOrder(View(), Min(BATCH, |buffer|), true);
        done := ExportTurn(answers(turn));
        turn := turn + 1;
      }
      TakeKeepsOrder(View(), |buffer|, false);
      var remaining := Flush();
    }
  }
}
