/**
 How a worker of a stage paces itself: absolute time slots one period apart, with a phase offset, and the shared token
 bucket behind them. Times are nanoseconds of the steady clock.
 */
module Pacing {

  import opened Registers
  import opened TokenBuckets

  const MILLISECONDS: int := 1_000_000
  const MAX_PERIOD: int := 1_000_000_000_000_000_000
  const MAX_WORKERS: int := 100_000
  const INT64_END: int := WORD / 2

  // ----- Period and phase offset

  function Clamped(x: real, low: real, high: real): real {
    if x < low then low else if x > high then high else x
  }

  /** Workers over rate, in nanoseconds; the rate is never below one. */
  function Period(workers: nat, rps: nat): int {
    var rate := if rps == 0 then 1 else rps;
    Clamped(workers as real / rate as real * 1_000_000_000.0, 1.0, MAX_PERIOD as real).Floor
  }

  lemma TimesMonotone(a: int, b: int, d: int)
    requires a <= b && 0 <= d
    ensures a * d <= b * d
  {
    assert (b - a) * d >= 0;
  }

  /** `x / d` is the only number with this property. */
  lemma QuotientIs(q: int, x: int, d: int)
    requires 0 < d && q * d <= x < (q + 1) * d
    ensures x / d == q
  {
    var r := x / d;
    assert r * d <= x < (r + 1) * d;
    if r < q {
      TimesMonotone(r + 1, q, d);
      assert false;
    }
    if q < r {
      TimesMonotone(q + 1, r, d);
      assert false;
    }
  }

  lemma RealTimes(a: int, n: nat)
    ensures (a * n) as real == a as real * n as real
  {
  }

  lemma TimesReal(x: real, y: real, n: real)
    requires x <= y && n > 0.0
    ensures x * n <= y * n
    ensures x < y ==> x * n < y * n
  {
    assert (y - x) * n >= 0.0;
    if x < y {
      assert (y - x) * n > 0.0;
    }
  }

  lemma FloorBelow(x: real, f: int, total: nat, n: nat)
    requires n >= 1 && x * n as real == total as real && f as real <= x
    ensures f * n <= total
  {
    TimesReal(f as real, x, n as real);
    RealTimes(f, n);
    assert (f * n) as real <= total as real;
  }

  lemma FloorAbove(x: real, f: int, total: nat, n: nat)
    requires n >= 1 && x * n as real == total as real && x < f as real
    ensures total < f * n
  {
    TimesReal(x, f as real, n as real);
    RealTimes(f, n);
    assert total as real < (f * n) as real;
  }

  lemma FloorIsQuotient(x: real, total: nat, n: nat)
    requires n >= 1 && x * n as real == total as real
    ensures x.Floor == total / n
  {
    FloorBelow(x, x.Floor, total, n);
    FloorAbove(x, x.Floor + 1, total, n);
    QuotientIs(x.Floor, total, n);
  }

  lemma Share(workers: nat, rps: nat) returns (x: real)
    requires rps >= 1
    ensures x == workers as real / rps as real * 1_000_000_000.0
    ensures x * rps as real == (workers * 1_000_000_000) as real
  {
    var y := workers as real / rps as real;
    assert y * rps as real == workers as real;
    x := y * 1_000_000_000.0;
    assert x * rps as real == y * rps as real * 1_000_000_000.0;
  }

  /** The slots are as long as the rate allows, to the nanosecond, and never shorter than one. */
  lemma PeriodMeetsRate(workers: nat, rps: nat)
    requires 1 <= workers <= MAX_WORKERS
    ensures Period(workers, 0) == Period(workers, 1)
    ensures rps >= 1 ==>
              var fit := workers * 1_000_000_000 / rps;
              Period(workers, rps) == if fit >= 1 then fit else 1
  {
    if rps >= 1 {
      var x := Share(workers, rps);
      FloorIsQuotient(x, workers * 1_000_000_000, rps);
      assert workers * 1_000_000_000 / rps <= workers * 1_000_000_000;
    }
  }

  /** Division that truncates toward zero. */
  function Truncated(x: int, d: int): int
    requires d > 0
  {
    if x >= 0 then x / d else -(-x / d)
  }

  function Offset(period: int, w: nat, workers: nat): int
    requires workers > 0
  {
    Truncated(Signed(period * w), workers)
  }

  lemma WrapOverflows(x: int)
    requires x >= INT64_END
    ensures Signed(x) <= x - WORD
  {
    assert x == x / WORD * WORD + x % WORD;
    if x / WORD <= 0 {
      assert x % WORD >= INT64_END;
    }
  }

  lemma DivideApart(x: int, y: int, d: int)
    requires 0 < d && 0 <= y && y + d <= x
    ensures y / d < x / d
  {
    var q, r := y / d, x / d;
    assert q * d <= y && x < (r + 1) * d;
    if r <= q {
      TimesMonotone(r + 1, q + 1, d);
      assert false;
    }
  }

  lemma DivideBelow(p: int, w: int, d: int)
    requires 0 <= w < d && 1 <= p
    ensures 0 <= p * w / d < p
  {
    TimesMonotone(0, p, w);
    TimesMonotone(w + 1, d, p);
    var q := p * w / d;
    assert q * d <= p * w < d * p;
    if q >= p {
      TimesMonotone(p, q, d);
      assert false;
    }
  }

  lemma OverflowedIsApart(x: int, d: int)
    requires x >= INT64_END && 0 < d <= MAX_WORKERS
    ensures Truncated(Signed(x), d) < x / d
  {
    WrapOverflows(x);
    var v := Signed(x);
    if v >= 0 {
      DivideApart(x, v, d);
    } else {
      DivideApart(x, 0, d);
    }
  }

  /** The phase offset is the intended share of the period, and inside it, exactly when the product fits 64 bits. */
  lemma OffsetExact(period: int, w: nat, workers: nat)
    requires 1 <= period <= MAX_PERIOD && w < workers <= MAX_WORKERS
    ensures 0 <= period * w / workers < period
    ensures Offset(period, w, workers) == period * w / workers <==> period * w < INT64_END
  {
    DivideBelow(period, w, workers);
    TimesMonotone(0, period, w);
    if period * w >= INT64_END {
      OverflowedIsApart(period * w, workers);
    }
  }

  /** The product can overflow with a stage that the configuration allows: 100000 users at one request a second. */
  lemma OffsetOverflows()
    ensures Period(100_000, 1) == 100_000_000_000_000
    ensures Offset(Period(100_000, 1), 99_999, 100_000) < 0
  {
    assert Signed(100_000_000_000_000 * 99_999) == 100_000_000_000_000 * 99_999 - WORD;
  }

  // ----- The worker loop

  /** What a worker sees, one after another: the clock, and the engine's stop flag. */
  datatype Sight = Sight(now: int, stopped: bool)

  /** The clock does not go back, and while the workers of a stage live a stop is not taken back. */
  ghost predicate Monotone(sights: seq<Sight>) {
    forall i, j :: 0 <= i <= j < |sights| ==>
      sights[i].now <= sights[j].now && (sights[i].stopped ==> sights[j].stopped)
  }

  /**
   A poll of the bucket: the time the loop went by, the time of the poll, the stop flag then, and the number of the
   sight at which it came.
   */
  datatype Attempt = Attempt(now: int, polled: int, stopped: bool, at: nat)

  /** Where a wait for a time ends: after the first look that shows the time reached or a stop. */
  function Awaited(sights: seq<Sight>, i: nat, until: int): (j: nat)
    requires i <= |sights|
    ensures i <= j <= |sights| && (i < |sights| ==> i < j)
    decreases |sights| - i
  {
    if i + 2 > |sights| then |sights|
    else if sights[i].now < until && !sights[i + 1].stopped then Awaited(sights, i + 2, until)
    else i + 2
  }

  /** The wait ends neither before its time nor, by more than the looks it takes, after it, unless stopped. */
  lemma {:induction false} AwaitedOnTime(sights: seq<Sight>, i: nat, until: int)
    requires Monotone(sights) && i <= |sights| && Awaited(sights, i, until) < |sights|
    ensures var j := Awaited(sights, i, until);
            && (sights[j].now >= until || sights[j].stopped)
            && (forall m :: i <= m < j - 3 ==> sights[m].now < until && !sights[m].stopped)
    decreases |sights| - i
  {
    if i + 2 <= |sights| && sights[i].now < until && !sights[i + 1].stopped {
      AwaitedOnTime(sights, i + 2, until);
    }
  }

  method Await(sights: seq<Sight>, i: nat, until: int) returns (j: nat)
    requires i <= |sights|
    ensures j == Awaited(sights, i, until)
  {
    j := i;
    while j + 2 <= |sights| && sights[j].now < until && !sights[j + 1].stopped
      invariant i <= j <= |sights| && Awaited(sights, j, until) == Awaited(sights, i, until)
    {
      j := j + 2;
    }
    j := if j + 2 <= |sights| then j + 2 else |sights|;
  }

  /** No attempt before its slot unless the engine was stopped, and all but the last while it was not. */
  ghost predicate Paced(attempts: seq<Attempt>, base: int, period: int) {
    && (forall k :: 1 <= k < |attempts| && !attempts[k].stopped ==> attempts[k].now >= base + k * period)
    && (forall k :: 0 <= k < |attempts| ==> attempts[k].polled >= attempts[k].now)
    && (forall k :: 0 <= k < |attempts| - 1 ==> !attempts[k].stopped)
  }

  ghost predicate Before(attempts: seq<Attempt>, end: int) {
    forall k :: 0 <= k < |attempts| ==> attempts[k].now < end
  }

  /** The attempts of a worker from the `i`-th sight on: none at the end of the stage or when stopped. */
  function Attempts(sights: seq<Sight>, i: nat, slot: int, first: bool, period: int, end: int): seq<Attempt>
    requires i <= |sights|
    decreases |sights| - i, 1
  {
    if i + 1 >= |sights| || sights[i].stopped || sights[i + 1].now >= end then []
    else
      var now := sights[i + 1].now;
      if first then Polls(sights, i + 2, now, slot, period, end)
      else if now >= slot + period then Polls(sights, i + 2, now, slot + period, period, end)
      else
        var j := SlotReached(sights, i + 2, now, slot + period);
        if j == |sights| || sights[j].now >= end then []
        else Polls(sights, j + 1, sights[j].now, slot + period, period, end)
  }

  /** The bulk of the wait, and the last two milliseconds. */
  function SlotReached(sights: seq<Sight>, i: nat, now: int, slot: int): (j: nat)
    requires i <= |sights|
    ensures i <= j <= |sights|
  {
    var k := if slot - now > 2 * MILLISECONDS then Awaited(sights, i, slot - 2 * MILLISECONDS) else i;
    Awaited(sights, k, slot)
  }

  function Polls(sights: seq<Sight>, i: nat, now: int, slot: int, period: int, end: int): seq<Attempt>
    requires i <= |sights|
    decreases |sights| - i, 0
  {
    if i == |sights| then []
    else [Attempt(now, sights[i].now, sights[i].stopped, i)] + Attempts(sights, i + 1, slot, false, period, end)
  }

  /** What holds of all attempts still to come, when `k` have been made. */
  ghost predicate PacedFrom(attempts: seq<Attempt>, k: nat, base: int, period: int, end: int) {
    && Before(attempts, end)
    && (forall m :: 0 <= m < |attempts| && 1 <= k + m && !attempts[m].stopped ==>
          attempts[m].now >= base + (k + m) * period)
    && (forall m :: 0 <= m < |attempts| ==> attempts[m].polled >= attempts[m].now)
    && (forall m :: 0 <= m < |attempts| - 1 ==> !attempts[m].stopped)
  }

  lemma PacedCons(a: Attempt, rest: seq<Attempt>, k: nat, base: int, period: int, end: int)
    requires PacedFrom(rest, k + 1, base, period, end)
    requires a.now < end && a.polled >= a.now && (k >= 1 && !a.stopped ==> a.now >= base + k * period)
    requires a.stopped ==> rest == []
    ensures PacedFrom([a] + rest, k, base, period, end)
  {
    var all := [a] + rest;
    forall m | 0 <= m < |all| && 1 <= k + m && !all[m].stopped
      ensures all[m].now >= base + (k + m) * period
    {
      if m > 0 {
        assert all[m] == rest[m - 1] && k + m == (k + 1) + (m - 1);
      }
    }
  }

  lemma {:induction false} PollsPaced(
    sights: seq<Sight>, i: nat, now: int, slot: int, k: nat, base: int, period: int, end: int)
    requires Monotone(sights) && i <= |sights| && slot == base + k * period && now < end
    requires i < |sights| ==> now <= sights[i].now && (k >= 1 ==> now >= slot || sights[i].stopped)
    ensures PacedFrom(Polls(sights, i, now, slot, period, end), k, base, period, end)
    decreases |sights| - i, 0
  {
    if i < |sights| {
      AttemptsPaced(sights, i + 1, slot, k + 1, base, period, end);
      var a := Attempt(now, sights[i].now, sights[i].stopped, i);
      PacedCons(a, Attempts(sights, i + 1, slot, false, period, end), k, base, period, end);
    }
  }

  lemma SlotReachedOnTime(sights: seq<Sight>, i: nat, now: int, slot: int)
    requires Monotone(sights) && i <= |sights|
    ensures var j := SlotReached(sights, i, now, slot);
            j < |sights| ==> sights[j].now >= slot || sights[j].stopped
  {
    var k := if slot - now > 2 * MILLISECONDS then Awaited(sights, i, slot - 2 * MILLISECONDS) else i;
    if Awaited(sights, k, slot) < |sights| {
      AwaitedOnTime(sights, k, slot);
    }
  }

  /** After `k` attempts, the first of them at slot `base`, the loop goes on as it should. */
  lemma {:induction false} AttemptsPaced(
    sights: seq<Sight>, i: nat, slot: int, k: nat, base: int, period: int, end: int)
    requires Monotone(sights) && i <= |sights|
    requires if k == 0 then slot == base else slot == base + (k - 1) * period
    ensures PacedFrom(Attempts(sights, i, slot, k == 0, period, end), k, base, period, end)
    decreases |sights| - i, 1
  {
    if i + 1 < |sights| && !sights[i].stopped && sights[i + 1].now < end {
      var now := sights[i + 1].now;
      if k == 0 {
        PollsPaced(sights, i + 2, now, slot, 0, base, period, end);
      } else {
        var next := slot + period;
        assert next == base + k * period;
        if now >= next {
          PollsPaced(sights, i + 2, now, next, k, base, period, end);
        } else {
          var j := SlotReached(sights, i + 2, now, next);
          SlotReachedOnTime(sights, i + 2, now, next);
          if j < |sights| && sights[j].now < end {
            PollsPaced(sights, j + 1, sights[j].now, next, k, base, period, end);
          }
        }
      }
    }
  }

  /** A turn of the loop starts after the poll before it. */
  ghost predicate Chained(attempts: seq<Attempt>, since: int) {
    && (attempts != [] ==> since <= attempts[0].now)
    && (forall m :: 0 <= m < |attempts| - 1 ==> attempts[m].polled <= attempts[m + 1].now)
  }

  lemma ChainedCons(a: Attempt, rest: seq<Attempt>, since: int)
    requires Chained(rest, a.polled) && since <= a.now
    ensures Chained([a] + rest, since)
  {
    var all := [a] + rest;
    forall m | 0 <= m < |all| - 1
      ensures all[m].polled <= all[m + 1].now
    {
      assert all[m + 1] == rest[m];
      if m > 0 {
        assert all[m] == rest[m - 1];
      }
    }
  }

  lemma {:induction false} PollsChained(
    sights: seq<Sight>, i: nat, now: int, slot: int, period: int, end: int, since: int)
    requires Monotone(sights) && i <= |sights| && since <= now
    ensures Chained(Polls(sights, i, now, slot, period, end), since)
    decreases |sights| - i, 0
  {
    if i < |sights| {
      AttemptsChained(sights, i + 1, slot, false, period, end, sights[i].now);
      var a := Attempt(now, sights[i].now, sights[i].stopped, i);
      ChainedCons(a, Attempts(sights, i + 1, slot, false, period, end), since);
    }
  }

  lemma {:induction false} AttemptsChained(
    sights: seq<Sight>, i: nat, slot: int, first: bool, period: int, end: int, since: int)
    requires Monotone(sights) && i <= |sights| && (i < |sights| ==> since <= sights[i].now)
    ensures Chained(Attempts(sights, i, slot, first, period, end), since)
    decreases |sights| - i, 1
  {
    if i + 1 < |sights| && !sights[i].stopped && sights[i + 1].now < end {
      var now := sights[i + 1].now;
      if first {
        PollsChained(sights, i + 2, now, slot, period, end, since);
        assert Attempts(sights, i, slot, first, period, end) == Polls(sights, i + 2, now, slot, period, end);
      } else if now >= slot + period {
        PollsChained(sights, i + 2, now, slot + period, period, end, since);
        assert Attempts(sights, i, slot, first, period, end) == Polls(sights, i + 2, now, slot + period, period, end);
      } else {
        var j := SlotReached(sights, i + 2, now, slot + period);
        if j < |sights| && sights[j].now < end {
          PollsChained(sights, j + 1, sights[j].now, slot + period, period, end, since);
        }
      }
    }
  }

  /** A worker's first attempt comes at once, before its first slot if need be. */
  lemma FirstAttemptIsImmediate(sights: seq<Sight>, base: int, period: int, end: int)
    requires |sights| >= 3 && !sights[0].stopped && sights[1].now < end
    ensures var attempts := Attempts(sights, 0, base, true, period, end);
            attempts != [] && attempts[0] == Attempt(sights[1].now, sights[2].now, sights[2].stopped, 2)
  {
  }

  // ----- The loop goes on

  /** The sights from `i` to `j` are there, and show neither a stop nor the end of the stage. */
  ghost predicate Clear(sights: seq<Sight>, i: nat, j: nat, end: int) {
    j < |sights| && forall x :: i <= x <= j ==> !sights[x].stopped && sights[x].now < end
  }

  /**
   After the poll of attempt k, a further attempt comes at the latest six sights after sight `m`, which shows its slot
   reached, as long as what is seen by then shows neither a stop nor the end of the stage.
   */
  ghost predicate Follows(
    sights: seq<Sight>, attempts: seq<Attempt>, k: nat, m: nat, base: int, period: int, end: int)
    requires k < |attempts|
  {
    && attempts[k].at + 2 <= m && Clear(sights, attempts[k].at + 1, m + 6, end)
    && sights[m].now >= base + (k + 1) * period ==>
      k + 1 < |attempts| && attempts[k + 1].at <= m + 6
  }

  /** An attempt shows what was seen: the time at the look before the poll, and time and stop flag at the poll. */
  ghost predicate Seen(sights: seq<Sight>, a: Attempt) {
    && 1 <= a.at < |sights|
    && a.now == sights[a.at - 1].now && a.polled == sights[a.at].now && a.stopped == sights[a.at].stopped
  }

  /** If the worker is late for that slot already, the attempt comes at its first look. */
  ghost predicate FollowsAtOnce(
    sights: seq<Sight>, attempts: seq<Attempt>, k: nat, base: int, period: int, end: int)
    requires k < |attempts|
  {
    var i := attempts[k].at;
    Clear(sights, i + 1, i + 3, end) && sights[i + 2].now >= base + (k + 1) * period ==>
      k + 1 < |attempts| && attempts[k + 1].at == i + 3
  }

  /** The worker leaves the loop only for a reason: the end of the stage, a stop, or nothing more to see. */
  ghost predicate Persists(sights: seq<Sight>, attempts: seq<Attempt>, base: int, period: int, end: int) {
    && (forall k :: 0 <= k < |attempts| ==> Seen(sights, attempts[k]))
    && (forall k, m: nat :: 0 <= k < |attempts| ==> Follows(sights, attempts, k, m, base, period, end))
    && (forall k :: 0 <= k < |attempts| ==> FollowsAtOnce(sights, attempts, k, base, period, end))
  }

  lemma {:induction false} AwaitedSoon(sights: seq<Sight>, i: nat, until: int, m: nat)
    requires Monotone(sights) && i <= m + 1 && m + 3 <= |sights| && sights[m].now >= until
    ensures Awaited(sights, i, until) <= m + 3
    decreases |sights| - i
  {
    if i + 2 <= |sights| && sights[i].now < until && !sights[i + 1].stopped {
      AwaitedSoon(sights, i + 2, until, m);
    }
  }

  lemma SlotReachedSoon(sights: seq<Sight>, i: nat, now: int, slot: int, m: nat)
    requires Monotone(sights) && i <= m + 1 && m + 5 <= |sights| && sights[m].now >= slot
    ensures SlotReached(sights, i, now, slot) <= m + 5
  {
    var k := i;
    if slot - now > 2 * MILLISECONDS {
      AwaitedSoon(sights, i, slot - 2 * MILLISECONDS, m);
      k := Awaited(sights, i, slot - 2 * MILLISECONDS);
    }
    AwaitedSoon(sights, k, slot, m + 2);
  }

  lemma NextComes(sights: seq<Sight>, i: nat, slot: int, period: int, end: int, m: nat)
    requires Monotone(sights) && i < m && Clear(sights, i, m + 6, end) && sights[m].now >= slot + period
    ensures var rest := Attempts(sights, i, slot, false, period, end);
            && rest != [] && rest[0].at <= m + 6
            && (sights[i + 1].now >= slot + period ==> rest[0].at == i + 2)
  {
    if sights[i + 1].now < slot + period {
      SlotReachedSoon(sights, i + 2, sights[i + 1].now, slot + period, m);
    }
  }

  lemma LateComes(sights: seq<Sight>, i: nat, slot: int, period: int, end: int)
    requires Clear(sights, i, i + 2, end) && sights[i + 1].now >= slot + period
    ensures var rest := Attempts(sights, i, slot, false, period, end); rest != [] && rest[0].at == i + 2
  {
  }

  /** The slot `k` periods on. */
  function SlotAfter(slot: int, period: int, k: nat): int
    decreases k
  {
    if k == 0 then slot else SlotAfter(slot + period, period, k - 1)
  }

  lemma {:induction false} SlotAfterIs(slot: int, period: int, k: nat)
    ensures SlotAfter(slot, period, k) == slot + k * period
    decreases k
  {
    if k > 0 {
      SlotAfterIs(slot + period, period, k - 1);
      assert slot + period + (k - 1) * period == slot + k * period;
    }
  }

  lemma FirstOf(sights: seq<Sight>, i: nat, slot: int, first: bool, period: int, end: int)
    requires i <= |sights| && Attempts(sights, i, slot, first, period, end) != []
    ensures var all := Attempts(sights, i, slot, first, period, end);
            && i < all[0].at < |sights| && Seen(sights, all[0])
            && all == [all[0]] +
                 Attempts(sights, all[0].at + 1, if first then slot else slot + period, false, period, end)
  {
  }

  /** Where an attempt is made, the loop goes on from there; `slot` is that of the first attempt. */
  lemma {:induction false} GoesOn(
    sights: seq<Sight>, all: seq<Attempt>, i: nat, before: int, slot: int, first: bool, period: int, end: int, k: nat)
    requires i <= |sights| && all == Attempts(sights, i, before, first, period, end) && k < |all|
    requires slot == if first then before else before + period
    ensures i < all[k].at < |sights| && Seen(sights, all[k])
    ensures all[k + 1..] == Attempts(sights, all[k].at + 1, SlotAfter(slot, period, k), false, period, end)
    decreases k
  {
    FirstOf(sights, i, before, first, period, end);
    var j := all[0].at;
    var rest := Attempts(sights, j + 1, slot, false, period, end);
    assert all[1..] == rest;
    if k > 0 {
      GoesOn(sights, rest, j + 1, slot, slot + period, false, period, end, k - 1);
      assert all[k] == rest[k - 1] && all[k + 1..] == rest[k..];
    }
  }

  lemma FollowsFrom(sights: seq<Sight>, all: seq<Attempt>, i: nat, last: int, period: int, end: int, k: nat, m: nat)
    requires Monotone(sights) && k < |all| && i == all[k].at + 1 <= |sights|
    requires all[k + 1..] == Attempts(sights, i, last, false, period, end)
    ensures i < m && Clear(sights, i, m + 6, end) && sights[m].now >= last + period ==>
              k + 1 < |all| && all[k + 1].at <= m + 6
    ensures Clear(sights, i, i + 2, end) && sights[i + 1].now >= last + period ==>
              k + 1 < |all| && all[k + 1].at == i + 2
  {
    var rest := Attempts(sights, i, last, false, period, end);
    assert rest != [] ==> all[k + 1] == rest[0];
    if i < m && Clear(sights, i, m + 6, end) && sights[m].now >= last + period {
      NextComes(sights, i, last, period, end, m);
    }
    if Clear(sights, i, i + 2, end) && sights[i + 1].now >= last + period {
      LateComes(sights, i, last, period, end);
    }
  }

  lemma SlotsInOrder(base: int, period: int, k: nat)
    ensures SlotAfter(base, period, k) + period == base + (k + 1) * period
  {
    SlotAfterIs(base, period, k);
    assert (k + 1) * period == k * period + period;
  }

  lemma FollowsAt(sights: seq<Sight>, all: seq<Attempt>, base: int, period: int, end: int, k: nat, m: nat)
    requires Monotone(sights) && all == Attempts(sights, 0, base, true, period, end) && k < |all|
    ensures Seen(sights, all[k])
    ensures Follows(sights, all, k, m, base, period, end) && FollowsAtOnce(sights, all, k, base, period, end)
  {
    GoesOn(sights, all, 0, base, base, true, period, end, k);
    SlotsInOrder(base, period, k);
    FollowsFrom(sights, all, all[k].at + 1, SlotAfter(base, period, k), period, end, k, m);
  }

  lemma AttemptsPersist(sights: seq<Sight>, base: int, period: int, end: int)
    requires Monotone(sights)
    ensures Persists(sights, Attempts(sights, 0, base, true, period, end), base, period, end)
  {
    var all := Attempts(sights, 0, base, true, period, end);
    forall k, m: nat | 0 <= k < |all|
      ensures Follows(sights, all, k, m, base, period, end)
    {
      FollowsAt(sights, all, base, period, end, k, m);
    }
    forall k | 0 <= k < |all|
      ensures Seen(sights, all[k]) && FollowsAtOnce(sights, all, k, base, period, end)
    {
      FollowsAt(sights, all, base, period, end, k, 0);
    }
  }

  /** A turn of the loop up to its poll, at sight `j`; or the exit from the loop, or the last sight. */
  method Turn(sights: seq<Sight>, i: nat, slot: int, first: bool, period: int, end: int)
    returns (polls: bool, j: nat, now: int, next: int)
    requires i <= |sights|
    ensures polls ==> i < j < |sights|
    ensures Attempts(sights, i, slot, first, period, end) ==
            if !polls then []
            else
              [Attempt(now, sights[j].now, sights[j].stopped, j)] + Attempts(sights, j + 1, next, false, period, end)
  {
    polls, j, now, next := false, i, 0, slot;
    if i + 1 >= |sights| || sights[i].stopped {
      return;
    }
    now := sights[i + 1].now;
    if now >= end {
      return;
    }
    j := i + 2;
    if !first {
      next := slot + period;
      if now < next {
        if next - now > 2 * MILLISECONDS {
          j := Await(sights, j, next - 2 * MILLISECONDS);
        }
        j := Await(sights, j, next);
        if j == |sights| || sights[j].now >= end {
          return;
        }
        now := sights[j].now;
        j := j + 1;
      }
    }
    polls := j < |sights|;
  }

  lemma AttemptsArePaced(sights: seq<Sight>, base: int, period: int, end: int)
    requires Monotone(sights)
    ensures var attempts := Attempts(sights, 0, base, true, period, end);
            Paced(attempts, base, period) && Before(attempts, end)
  {
    AttemptsPaced(sights, 0, base, 0, base, period, end);
    var attempts := Attempts(sights, 0, base, true, period, end);
    forall k | 1 <= k < |attempts| && !attempts[k].stopped
      ensures attempts[k].now >= base + k * period
    {
      assert 1 <= 0 + k;
    }
  }

  method Loop(sights: seq<Sight>, base: int, period: int, end: int) returns (attempts: seq<Attempt>)
    ensures attempts == Attempts(sights, 0, base, true, period, end)
  {
    attempts := [];
    ghost var rest := Attempts(sights, 0, base, true, period, end);
    ghost var all := rest;
    var i, slot, first := 0, base, true;
    while true
      invariant i <= |sights| && all == attempts + rest
      invariant rest == Attempts(sights, i, slot, first, period, end)
      decreases |sights| - i
    {
      var polls, j, now, next := Turn(sights, i, slot, first, period, end);
      if !polls {
        break;
      }
      var poll := Attempt(now, sights[j].now, sights[j].stopped, j);
      rest := Attempts(sights, j + 1, next, false, period, end);
      assert attempts + ([poll] + rest) == attempts + [poll] + rest;
      attempts := attempts + [poll];
      i, slot, first := j + 1, next, false;
    }
  }

  /**
   The request loop of a worker over all that it sees, up to its exit or the last sight. What it does between an
   attempt and the next turn of the loop shows only in what it sees later. No attempt comes too early, and none is
   left out.
   */
  method Work(sights: seq<Sight>, base: int, period: int, end: int) returns (attempts: seq<Attempt>)
    requires Monotone(sights)
    ensures attempts == Attempts(sights, 0, base, true, period, end)
    ensures Paced(attempts, base, period) && Before(attempts, end)
    ensures Persists(sights, attempts, base, period, end)
    ensures Clear(sights, 0, 2, end) ==> attempts != [] && attempts[0].at == 2
  {
    AttemptsArePaced(sights, base, period, end);
    AttemptsPersist(sights, base, period, end);
    if Clear(sights, 0, 2, end) {
      FirstAttemptIsImmediate(sights, base, period, end);
    }
    attempts := Loop(sights, base, period, end);
  }

  // ----- How many attempts a worker makes

  /** The attempts made while the engine was not stopped. */
  function Unstopped(attempts: seq<Attempt>): nat {
    if attempts != [] && attempts[|attempts| - 1].stopped then |attempts| - 1 else |attempts|
  }

  /** However late a worker ran, it makes no more attempts than it has slots, and at most one after a stop. */
  lemma WorkerBound(attempts: seq<Attempt>, base: int, period: int, start: int, end: int)
    requires Paced(attempts, base, period) && Before(attempts, end)
    requires 1 <= period && start <= base && start <= end
    ensures Unstopped(attempts) <= 1 + (end - start) / period
    ensures |attempts| <= Unstopped(attempts) + 1
  {
    var k := Unstopped(attempts) - 1;
    if k >= 1 {
      assert !attempts[k].stopped;
      assert k * period < end - start;
      var q := (end - start) / period;
      assert end - start < (q + 1) * period;
      if q + 1 <= k {
        TimesMonotone(q + 1, k, period);
        assert false;
      }
    }
  }

  /** The engine's rate: a hundred a second where none is given, and a burst of a second's worth, or a hundred. */
  method SetTargetRps(bucket: TokenBucket, rps: nat, now: int, later: int) returns (target: nat)
    requires bucket.Valid() && now <= later
    modifies bucket
    ensures bucket.Valid() && target >= 1 && (rps > 0 ==> target == rps)
    ensures bucket.rate == target as real
    ensures bucket.burst >= 100.0 && bucket.burst >= bucket.rate
    ensures bucket.burst == 100.0 || bucket.burst == bucket.rate
    ensures bucket.View() ==
            Step(Step(old(bucket.View()), ChangeRate(now, bucket.rate)), ChangeBurst(later, bucket.burst))
  {
    target := if rps > 0 then rps else 100;
    var rate := target as real;
    var _ := bucket.SetRate(rate, now);
    var _ := bucket.SetBurst(if rate > 100.0 then rate else 100.0, later);
  }
}
