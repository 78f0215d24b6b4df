/**
 The token bucket that paces the load. Clock readings are nanoseconds and become parameters; token counts and rates
 are exact reals.

 Every public operation of the source is one or more critical sections under the bucket's mutex. A poll for a token,
 whether from `try_consume`, from either half of `try_consume_for` or from one turn of the loop in `consume`, is the
 same critical section: refill, then take a token if there is one.
 */
module TokenBuckets {

  datatype Bucket = Bucket(rate: real, burst: real, tokens: real, last: int) {
    ghost predicate Valid() {
      0.0 < rate && 0.0 < burst && 0.0 <= tokens <= burst
    }
  }

  /** Seconds between two clock readings. */
  function Elapsed(from: int, until: int): real {
    (until - from) as real / 1_000_000_000.0
  }

  /** Tokens minted between two clock readings: the time times the rate. */
  function Mint(rate: real, from: int, until: int): real {
    Elapsed(from, until) * rate
  }

  lemma MintAdds(rate: real, a: int, b: int, c: int)
    ensures Mint(rate, a, b) + Mint(rate, b, c) == Mint(rate, a, c)
  {
    assert Elapsed(a, b) + Elapsed(b, c) == Elapsed(a, c);
  }

  lemma MintGrows(rate: real, from: int, until: int)
    requires rate > 0.0 && from <= until
    ensures Mint(rate, from, until) >= 0.0
    ensures from == until ==> Mint(rate, from, until) == 0.0
  {
    assert Elapsed(from, until) >= 0.0;
  }

  function Min(x: real, y: real): real {
    if x > y then y else x
  }

  /** Refills only when the clock has moved on. */
  function Refilled(b: Bucket, now: int): Bucket {
    if now > b.last then
      b.(tokens := Min(b.tokens + Mint(b.rate, b.last, now), b.burst), last := now)
    else
      b
  }

  /** The critical section of every poll. */
  function Take(b: Bucket, now: int): (Bucket, bool) {
    var r := Refilled(b, now);
    if r.tokens < 1.0 then (r, false) else (r.(tokens := r.tokens - 1.0), true)
  }

  function WithRate(b: Bucket, rate: real, now: int): Bucket {
    Refilled(b, now).(rate := rate)
  }

  function WithBurst(b: Bucket, burst: real, now: int): Bucket {
    var r := Refilled(b, now);
    r.(burst := burst, tokens := Min(r.tokens, burst))
  }

  // ----- Refilling lazily

  lemma RefillValid(b: Bucket, now: int)
    requires b.Valid()
    ensures Refilled(b, now).Valid()
    ensures Refilled(b, now).rate == b.rate && Refilled(b, now).burst == b.burst
    ensures b.last <= now ==>
              Refilled(b, now) == b.(tokens := Min(b.tokens + Mint(b.rate, b.last, now), b.burst), last := now)
  {
    if b.last <= now {
      MintGrows(b.rate, b.last, now);
    }
  }

  /** Refilling on the way makes no difference. */
  lemma RefillPathIndependent(b: Bucket, middle: int, end: int)
    requires b.Valid() && b.last <= middle <= end
    ensures Refilled(Refilled(b, middle), end) == Refilled(b, end)
  {
    MintGrows(b.rate, b.last, middle);
    MintGrows(b.rate, middle, end);
    MintAdds(b.rate, b.last, middle, end);
  }

  // ----- Runs

  datatype Event =
    | Poll(now: int)
    | ChangeRate(now: int, rate: real)
    | ChangeBurst(now: int, burst: real)
  {
    /** The source throws before it touches the bucket. */
    predicate Rejected() {
      (ChangeRate? && rate <= 0.0) || (ChangeBurst? && burst <= 0.0)
    }
  }

  function Step(b: Bucket, e: Event): Bucket {
    if e.Rejected() then
      b
    else
      match e
      case Poll(now) => Take(b, now).0
      case ChangeRate(now, rate) => WithRate(b, rate, now)
      case ChangeBurst(now, burst) => WithBurst(b, burst, now)
  }

  predicate Granted(b: Bucket, e: Event) {
    e.Poll? && Take(b, e.now).1
  }

  function Final(b: Bucket, run: seq<Event>): Bucket
    decreases |run|
  {
    if run == [] then b else Final(Step(b, run[0]), run[1..])
  }

  function Grants(b: Bucket, run: seq<Event>): nat
    decreases |run|
  {
    if run == [] then 0 else (if Granted(b, run[0]) then 1 else 0) + Grants(Step(b, run[0]), run[1..])
  }

  /** The tokens that were handed out: one a grant. */
  function TokensGranted(b: Bucket, run: seq<Event>): real
    decreases |run|
  {
    if run == [] then 0.0 else (if Granted(b, run[0]) then 1.0 else 0.0) + TokensGranted(Step(b, run[0]), run[1..])
  }

  lemma {:induction false} OneTokenEach(b: Bucket, run: seq<Event>)
    ensures TokensGranted(b, run) == Grants(b, run) as real
    decreases |run|
  {
    if run != [] {
      OneTokenEach(Step(b, run[0]), run[1..]);
    }
  }

  /** The clock does not run backwards: no reading is older than the one before it. */
  predicate Timed(from: int, run: seq<Event>)
    decreases |run|
  {
    run == [] ||
    if run[0].Rejected() then Timed(from, run[1..]) else from <= run[0].now && Timed(run[0].now, run[1..])
  }

  /** The integral of the rate in force from `from` to the last clock reading; it knows nothing of the bucket. */
  function Integral(rate: real, from: int, run: seq<Event>): real
    decreases |run|
  {
    if run == [] then
      0.0
    else if run[0].Rejected() then
      Integral(rate, from, run[1..])
    else
      Mint(rate, from, run[0].now) +
      Integral(if run[0].ChangeRate? then run[0].rate else rate, run[0].now, run[1..])
  }

  function Excess(x: real, limit: real): (e: real)
    ensures e >= 0.0
  {
    if x > limit then x - limit else 0.0
  }

  /** What one event lets overflow: tokens beyond the burst, and tokens beyond a burst that shrinks. */
  function Overflow(b: Bucket, e: Event): (spill: real)
    ensures spill >= 0.0
  {
    if e.Rejected() then
      0.0
    else
      Excess(b.tokens + Mint(b.rate, b.last, e.now), b.burst) +
      (if e.ChangeBurst? then Excess(Refilled(b, e.now).tokens, e.burst) else 0.0)
  }

  function Spill(b: Bucket, run: seq<Event>): (spill: real)
    ensures spill >= 0.0
    decreases |run|
  {
    if run == [] then 0.0 else Overflow(b, run[0]) + Spill(Step(b, run[0]), run[1..])
  }

  lemma StepConserves(b: Bucket, e: Event)
    requires b.Valid() && (e.Rejected() || b.last <= e.now)
    ensures Step(b, e).Valid()
    ensures !e.Rejected() ==>
              Step(b, e).last == e.now && Step(b, e).rate == (if e.ChangeRate? then e.rate else b.rate)
    ensures e.Rejected() ==> Step(b, e) == b
    ensures !e.Rejected() ==>
              Step(b, e).tokens + (if Granted(b, e) then 1.0 else 0.0) + Overflow(b, e) ==
              b.tokens + Mint(b.rate, b.last, e.now)
  {
    if !e.Rejected() {
      RefillValid(b, e.now);
    }
  }

  /** Tokens are conserved over every run: what is left, was granted or spilled is what was there or was minted. */
  lemma {:induction false} Conservation(b: Bucket, run: seq<Event>)
    requires b.Valid() && Timed(b.last, run)
    ensures Final(b, run).Valid()
    ensures Final(b, run).tokens + TokensGranted(b, run) + Spill(b, run) ==
            b.tokens + Integral(b.rate, b.last, run)
    decreases |run|
  {
    if run != [] {
      var e, rest := run[0], run[1..];
      var b' := Step(b, e);
      StepConserves(b, e);
      Conservation(b', rest);
    }
  }

  predicate OnlyPolls(run: seq<Event>) {
    forall i :: 0 <= i < |run| ==> run[i].Poll?
  }

  function LastReading(from: int, run: seq<Event>): int {
    if run == [] then from else run[|run| - 1].now
  }

  lemma {:induction false} ConstantRate(rate: real, from: int, run: seq<Event>)
    requires OnlyPolls(run) && Timed(from, run)
    ensures from <= LastReading(from, run)
    ensures Integral(rate, from, run) == Mint(rate, from, LastReading(from, run))
    decreases |run|
  {
    if run != [] {
      ConstantRate(rate, run[0].now, run[1..]);
      MintAdds(rate, from, run[0].now, LastReading(from, run));
    }
  }

  /** In a window of constant rate and burst, at most the burst and the rate times the time are granted. */
  lemma WindowBound(b: Bucket, run: seq<Event>)
    requires b.Valid() && Timed(b.last, run) && OnlyPolls(run)
    ensures b.last <= LastReading(b.last, run)
    ensures Grants(b, run) as real <= b.burst + Mint(b.rate, b.last, LastReading(b.last, run))
  {
    Conservation(b, run);
    ConstantRate(b.rate, b.last, run);
    OneTokenEach(b, run);
  }

  // ----- Runs one after the other

  lemma {:induction false} FinalJoin(b: Bucket, x: seq<Event>, y: seq<Event>)
    ensures Final(b, x + y) == Final(Final(b, x), y)
    ensures Grants(b, x + y) == Grants(b, x) + Grants(Final(b, x), y)
    decreases |x|
  {
    if x == [] {
      assert x + y == y;
    } else {
      assert (x + y)[1..] == x[1..] + y;
      FinalJoin(Step(b, x[0]), x[1..], y);
    }
  }

  /** A run and one event more. */
  lemma FinalSnoc(b: Bucket, x: seq<Event>, e: Event)
    ensures Final(b, x + [e]) == Step(Final(b, x), e)
    ensures Grants(b, x + [e]) == Grants(b, x) + if Granted(Final(b, x), e) then 1 else 0
  {
    FinalJoin(b, x, [e]);
    var c := Final(b, x);
    assert [e][1..] == [];
    assert Final(Step(c, e), []) == Step(c, e) && Grants(Step(c, e), []) == 0;
  }

  // ----- Failed polls

  /** The run without the polls that found no token. */
  function WithoutFailures(b: Bucket, run: seq<Event>): seq<Event>
    decreases |run|
  {
    if run == [] then
      []
    else
      var rest := WithoutFailures(Step(b, run[0]), run[1..]);
      if run[0].Poll? && !Granted(b, run[0]) then rest else [run[0]] + rest
  }

  /** Two buckets that a refill at `now` makes equal are equal after every refill from then on. */
  lemma StaysEqual(b: Bucket, c: Bucket, now: int, later: int)
    requires b.Valid() && c.Valid() && b.last <= now && c.last <= now <= later && Refilled(b, now) == Refilled(c, now)
    ensures Refilled(b, later) == Refilled(c, later)
  {
    RefillPathIndependent(b, now, later);
    RefillPathIndependent(c, now, later);
  }

  /** Failed polls change no later grant and leave no trace in the bucket. */
  lemma {:induction false} FailedPollsDoNotMatter(b: Bucket, c: Bucket, now: int, run: seq<Event>, end: int)
    requires b.Valid() && c.Valid() && b.last <= now && c.last <= now && Refilled(b, now) == Refilled(c, now)
    requires Timed(now, run) && forall i :: 0 <= i < |run| && !run[i].Rejected() ==> run[i].now <= end
    requires now <= end
    ensures Grants(c, WithoutFailures(b, run)) == Grants(b, run)
    ensures Refilled(Final(c, WithoutFailures(b, run)), end) == Refilled(Final(b, run), end)
    decreases |run|
  {
    if run == [] {
      StaysEqual(b, c, now, end);
    } else {
      var e := run[0];
      var b' := Step(b, e);
      var rest := WithoutFailures(b', run[1..]);
      if e.Rejected() {
        FailedPollsDoNotMatter(b, c, now, run[1..], end);
        assert ([e] + rest)[1..] == rest;
      } else {
        StaysEqual(b, c, now, e.now);
        StepConserves(b, e);
        StepConserves(c, e);
        if e.Poll? && !Granted(b, e) {
          RefillPathIndependent(b, e.now, e.now);
          FailedPollsDoNotMatter(b', c, e.now, run[1..], end);
        } else {
          FailedPollsDoNotMatter(b', Step(c, e), e.now, run[1..], end);
          assert ([e] + rest)[1..] == rest;
        }
      }
    }
  }

  // ----- When a wait ends

  /** With room for less than one token, no run of polls is ever granted one. */
  lemma {:induction false} NoGrantBelowOne(b: Bucket, run: seq<Event>)
    requires b.Valid() && Timed(b.last, run) && OnlyPolls(run) && b.burst < 1.0
    ensures Grants(b, run) == 0
    decreases |run|
  {
    if run != [] {
      RefillValid(b, run[0].now);
      StepConserves(b, run[0]);
      NoGrantBelowOne(Step(b, run[0]), run[1..]);
    }
  }

  /** Seconds until a bucket that is short of a token holds one. */
  function Wait(b: Bucket): real
    requires b.rate > 0.0
  {
    (1.0 - b.tokens) / b.rate
  }

  lemma MintCoversDeficit(rate: real, deficit: real, from: int, until: int)
    requires rate > 0.0 && from <= until
    ensures Mint(rate, from, until) >= deficit <==> Elapsed(from, until) >= deficit / rate
  {
    ScaleIff(Elapsed(from, until), deficit / rate, rate);
  }

  lemma ScaleIff(x: real, y: real, k: real)
    requires k > 0.0
    ensures x >= y <==> x * k >= y * k
  {
    if x >= y {
      assert (x - y) * k >= 0.0;
    } else {
      assert (y - x) * k > 0.0;
    }
  }

  /** A poll that found too little is followed by a granted one exactly when the whole wait has passed. */
  lemma GrantedAfterWait(b: Bucket, now: int)
    requires b.Valid() && b.tokens < 1.0 && b.last <= now
    ensures Take(b, now).1 <==> b.burst >= 1.0 && Elapsed(b.last, now) >= Wait(b)
  {
    RefillValid(b, now);
    MintCoversDeficit(b.rate, 1.0 - b.tokens, b.last, now);
  }

  /** The nanoseconds that the source waits: the fraction of a nanosecond is cut off. */
  function WaitNanos(b: Bucket): int
    requires b.rate > 0.0
  {
    (Wait(b) * 1_000_000_000.0).Floor
  }

  /**
   A waiter that is woken exactly after its computed wait finds a token exactly when that wait was a whole number of
   nanoseconds; otherwise the cut-off fraction leaves it short.
   */
  lemma WokenOnTime(b: Bucket)
    requires b.Valid() && b.tokens < 1.0 && b.burst >= 1.0
    ensures WaitNanos(b) >= 0
    ensures Take(b, b.last + WaitNanos(b)).1 <==> WaitNanos(b) as real == Wait(b) * 1_000_000_000.0
  {
    WaitIsPositive(b);
    GrantedAfterWait(b, b.last + WaitNanos(b));
  }

  lemma WaitIsPositive(b: Bucket)
    requires b.Valid() && b.tokens < 1.0
    ensures Wait(b) > 0.0
  {
    assert Wait(b) * b.rate == 1.0 - b.tokens;
  }

  /** Three tokens a second: the wait of a third of a second is cut to 333333333 ns, and the poll then fails. */
  lemma WokenTooEarly()
    ensures var b := Bucket(3.0, 5.0, 0.0, 0);
            b.Valid() && WaitNanos(b) == 333_333_333 && !Take(b, WaitNanos(b)).1
  {
    var b := Bucket(3.0, 5.0, 0.0, 0);
    assert Wait(b) == 1.0 / 3.0;
    WokenOnTime(b);
  }

  // ----- Waiting polls as runs

  lemma OnePoll(b: Bucket, now: int)
    ensures Final(b, [Poll(now)]) == Take(b, now).0
    ensures Grants(b, [Poll(now)]) == if Take(b, now).1 then 1 else 0
  {
    FinalSnoc(b, [], Poll(now));
    assert [] + [Poll(now)] == [Poll(now)];
  }

  /** The first poll of `try_consume_for` failed, and the wait fits the timeout. */
  predicate WaitsFor(b: Bucket, timeout: real, now: int)
    requires b.rate > 0.0
  {
    !Take(b, now).1 && Wait(Take(b, now).0) <= timeout
  }

  /** One wait of `consume`: what the others do meanwhile, and the clock reading after it. */
  datatype Round = Round(others: seq<Event>, now: int)

  /** All that happens to the bucket from the call of `consume` to its last poll. */
  function Trace(first: int, rounds: seq<Round>): seq<Event> {
    if rounds == [] then [Poll(first)]
    else
      var n := |rounds| - 1;
      Trace(first, rounds[..n]) + rounds[n].others + [Poll(rounds[n].now)]
  }

  /** The bucket as the last poll finds it, and the clock reading then. */
  function Reached(b: Bucket, first: int, rounds: seq<Round>): Bucket {
    if rounds == [] then b
    else
      var n := |rounds| - 1;
      Final(Final(b, Trace(first, rounds[..n])), rounds[n].others)
  }

  function Reading(first: int, rounds: seq<Round>): int {
    if rounds == [] then first else rounds[|rounds| - 1].now
  }

  /** The last poll is granted. */
  predicate Served(b: Bucket, first: int, rounds: seq<Round>) {
    Take(Reached(b, first, rounds), Reading(first, rounds)).1
  }

  lemma PolledAs(b: Bucket, first: int, rounds: seq<Round>)
    ensures Final(b, Trace(first, rounds)) == Take(Reached(b, first, rounds), Reading(first, rounds)).0
  {
    if rounds == [] {
      OnePoll(b, first);
    } else {
      var n := |rounds| - 1;
      var before := Trace(first, rounds[..n]);
      FinalJoin(b, before, rounds[n].others);
      FinalSnoc(b, before + rounds[n].others, Poll(rounds[n].now));
    }
  }

  lemma ReachedNext(b: Bucket, first: int, rounds: seq<Round>, n: nat)
    requires n < |rounds|
    ensures Reached(b, first, rounds[..n + 1]) == Final(Final(b, Trace(first, rounds[..n])), rounds[n].others)
    ensures Reading(first, rounds[..n + 1]) == rounds[n].now
  {
    assert rounds[..n + 1][..n] == rounds[..n];
  }

  /** Nobody else uses the bucket, and each wait takes at least a nanosecond. */
  ghost predicate Undisturbed(first: int, rounds: seq<Round>) {
    && (forall i :: 0 <= i < |rounds| ==> rounds[i].others == [])
    && (forall i :: 0 <= i < |rounds| ==> Reading(first, rounds[..i]) < rounds[i].now)
  }

  /** As long as it has not been served, the waiting call leaves no trace: the bucket is merely refilled. */
  lemma {:induction false} WaitsUnnoticed(b: Bucket, first: int, rounds: seq<Round>, n: nat)
    requires b.Valid() && b.last <= first && Undisturbed(first, rounds) && n <= |rounds|
    requires forall m :: 0 <= m < n ==> !Served(b, first, rounds[..m])
    ensures b.last <= Reading(first, rounds[..n])
    ensures Refilled(Reached(b, first, rounds[..n]), Reading(first, rounds[..n])) ==
            Refilled(b, Reading(first, rounds[..n]))
    decreases n
  {
    if n > 0 {
      WaitsUnnoticed(b, first, rounds, n - 1);
      PolledAs(b, first, rounds[..n - 1]);
      ReachedNext(b, first, rounds, n - 1);
      var x, y := Reading(first, rounds[..n - 1]), rounds[n - 1].now;
      assert x < y;
      var c := Final(b, Trace(first, rounds[..n - 1]));
      assert c == Refilled(b, x);
      assert Final(c, []) == c;
      RefillPathIndependent(b, x, y);
    }
  }

  /** Left alone, the call is served at the first reading at which a single poll of the bucket would have been. */
  lemma ServedAtFirst(b: Bucket, first: int, rounds: seq<Round>, n: nat)
    requires b.Valid() && b.last <= first && Undisturbed(first, rounds) && n <= |rounds|
    requires forall m :: 0 <= m < n ==> !Served(b, first, rounds[..m])
    ensures Served(b, first, rounds[..n]) <==> Take(b, Reading(first, rounds[..n])).1
  {
    WaitsUnnoticed(b, first, rounds, n);
  }

  lemma {:induction false} ReadingsAdvance(first: int, rounds: seq<Round>, n: nat)
    requires Undisturbed(first, rounds) && n <= |rounds|
    ensures Reading(first, rounds[..n]) >= first + n
    decreases n
  {
    if n > 0 {
      ReadingsAdvance(first, rounds, n - 1);
      assert rounds[..n][n - 1] == rounds[n - 1];
    }
  }

  /** A poll after the whole wait is granted, however the bucket stood before. */
  lemma GrantedInTheEnd(b: Bucket, first: int, n: nat, now: int)
    requires b.Valid() && b.burst >= 1.0 && b.last <= first && first + n <= now
    requires b.tokens < 1.0 ==> Elapsed(first, first + n) >= Wait(b)
    ensures Take(b, now).1
  {
    RefillValid(b, now);
    if b.tokens < 1.0 {
      GrantedAfterWait(b, now);
    } else {
      MintGrows(b.rate, b.last, now);
    }
  }

  /**
   Left alone with a bucket that has room for a token, the call ends: at the latest after as many rounds as the
   missing fraction takes nanoseconds to be minted.
   */
  lemma ConsumeEnds(b: Bucket, first: int, rounds: seq<Round>) returns (k: nat)
    requires b.Valid() && b.burst >= 1.0 && b.last <= first && Undisturbed(first, rounds)
    requires b.tokens < 1.0 ==> Elapsed(first, first + |rounds|) >= Wait(b)
    ensures k <= |rounds| && Served(b, first, rounds[..k])
  {
    k := 0;
    while k < |rounds| && !Served(b, first, rounds[..k])
      invariant k <= |rounds|
      invariant forall m :: 0 <= m < k ==> !Served(b, first, rounds[..m])
    {
      k := k + 1;
    }
    if k == |rounds| {
      ReadingsAdvance(first, rounds, k);
      GrantedInTheEnd(b, first, k, Reading(first, rounds[..k]));
      ServedAtFirst(b, first, rounds, k);
    }
  }

  // ----- The bucket object

  datatype Created = Made(bucket: TokenBucket) | InvalidArgument

  method Create(rate: real, burst: real, now: int) returns (r: Created)
    ensures r.InvalidArgument? <==> rate <= 0.0
    ensures r.Made? ==>
              && r.bucket.Valid() && fresh(r.bucket)
              && (var room := if burst > 0.0 then burst else rate; r.bucket.View() == Bucket(rate, room, room, now))
  {
    if rate <= 0.0 {
      return InvalidArgument;
    }
    var b := new TokenBucket(rate, burst, now);
    return Made(b);
  }

  class TokenBucket {
    var rate: real
    var burst: real
    var tokens: real
    var last: int

    ghost predicate Valid()
      reads this
    {
      View().Valid()
    }

    function View(): Bucket
      reads this
    {
      Bucket(rate, burst, tokens, last)
    }

    constructor (rate: real, burst: real, now: int)
      requires rate > 0.0
      ensures Valid()
      ensures View() == Bucket(rate, if burst > 0.0 then burst else rate, if burst > 0.0 then burst else rate, now)
    {
      this.rate := rate;
      this.burst := if burst > 0.0 then burst else rate;
      this.tokens := if burst > 0.0 then burst else rate;
      this.last := now;
    }

    method Refill(now: int)
      requires Valid()
      modifies this
      ensures Valid() && View() == Refilled(old(View()), now)
    {
      RefillValid(View(), now);
      if now > last {
        tokens := tokens + Mint(rate, last, now);
        if tokens > burst {
          tokens := burst;
        }
        last := now;
      }
    }

    method SetRate(rate: real, now: int) returns (ok: bool)
      requires Valid()
      modifies this
      ensures Valid() && ok == (rate > 0.0)
      ensures View() == Step(old(View()), ChangeRate(now, rate))
    {
      ok := rate > 0.0;
      if ok {
        Refill(now);
        this.rate := rate;
      }
    }

    method SetBurst(burst: real, now: int) returns (ok: bool)
      requires Valid()
      modifies this
      ensures Valid() && ok == (burst > 0.0)
      ensures View() == Step(old(View()), ChangeBurst(now, burst))
    {
      ok := burst > 0.0;
      if ok {
        Refill(now);
        this.burst := burst;
        if tokens > burst {
          tokens := burst;
        }
      }
    }

    method TryConsume(now: int) returns (granted: bool)
      requires Valid()
      modifies this
      ensures Valid() && (View(), granted) == Take(old(View()), now)
    {
      Refill(now);
      if tokens < 1.0 {
        return false;
      }
      tokens := tokens - 1.0;
      return true;
    }

    /** What other threads do to the bucket while this one waits without the lock. */
    method Others(events: seq<Event>)
      requires Valid()
      modifies this
      ensures Valid() && View() == Final(old(View()), events)
    {
      ghost var b := View();
      for i := 0 to |events|
        invariant Valid() && View() == Final(b, events[..i])
      {
        assert events[..i + 1] == events[..i] + [events[i]];
        FinalSnoc(b, events[..i], events[i]);
        match events[i] {
          case Poll(now) => var _ := TryConsume(now);
          case ChangeRate(now, rate) => var _ := SetRate(rate, now);
          case ChangeBurst(now, burst) => var _ := SetBurst(burst, now);
        }
      }
      assert events[..|events|] == events;
    }

    /**
     One poll now and, if the missing fraction can be minted within the timeout, one poll later, whatever the others
     do in between. `now` and `later` are the clock readings of the two refills.
     */
    method TryConsumeFor(timeout: real, now: int, others: seq<Event>, later: int) returns (granted: bool)
      requires Valid()
      modifies this
      ensures Valid()
      ensures var b := old(View());
              if WaitsFor(b, timeout, now)
              then View() == Final(b, [Poll(now)] + others + [Poll(later)]) &&
                   granted == Granted(Final(b, [Poll(now)] + others), Poll(later))
              else View() == Final(b, [Poll(now)]) && granted == Granted(b, Poll(now))
      ensures var b := Refilled(old(View()), now);
              && (b.tokens >= 1.0 ==> granted && View() == b.(tokens := b.tokens - 1.0))
              && (b.tokens < 1.0 && (1.0 - b.tokens) / b.rate > timeout ==> !granted && View() == b)
              && (b.tokens < 1.0 && (1.0 - b.tokens) / b.rate <= timeout ==>
                    View() == Step(Final(b, others), Poll(later)) && granted == Granted(Final(b, others), Poll(later)))
    {
      ghost var b := View();
      RefillValid(b, now);
      OnePoll(b, now);
      Refill(now);
      if tokens >= 1.0 {
        tokens := tokens - 1.0;
        return true;
      }
      var wait := (1.0 - tokens) / rate;
      if wait > timeout {
        return false;
      }
      FinalJoin(b, [Poll(now)], others);
      Others(others);
      ghost var c := View();
      RefillValid(c, later);
      FinalSnoc(b, [Poll(now)] + others, Poll(later));
      Refill(later);
      if tokens >= 1.0 {
        tokens := tokens - 1.0;
        return true;
      }
      return false;
    }

    /** The number of tokens a refill at this moment would leave; the bucket is not touched. */
    method TokensAvailable(now: int) returns (available: real)
      requires Valid() && last <= now
      ensures available == Refilled(View(), now).tokens
    {
      RefillValid(View(), now);
      MintGrows(rate, last, now);
      available := tokens + Mint(rate, last, now);
      if available > burst {
        available := burst;
      } else if available < 0.0 {
        available := 0.0;
      }
    }

    /**
     Blocks until there is a token. `first` is the clock reading of the first refill; each round is what the others
     do during a wait, and the reading of the refill after it. The call returns at its first poll that is granted; it
     is still waiting after the last round if none was.
     */
    method Consume(first: int, rounds: seq<Round>) returns (granted: bool, n: nat)
      requires Valid()
      modifies this
      ensures Valid() && n <= |rounds|
      ensures View() == Final(old(View()), Trace(first, rounds[..n]))
      ensures granted == Served(old(View()), first, rounds[..n]) && (granted || n == |rounds|)
      ensures forall m :: 0 <= m < n ==> !Served(old(View()), first, rounds[..m])
    {
      ghost var b := View();
      RefillValid(b, first);
      OnePoll(b, first);
      n := 0;
      Refill(first);
      while tokens < 1.0
        invariant n <= |rounds| && Valid()
        invariant View() == Refilled(Reached(b, first, rounds[..n]), Reading(first, rounds[..n]))
        invariant forall m :: 0 <= m < n ==> !Served(b, first, rounds[..m])
        decreases |rounds| - n
      {
        PolledAs(b, first, rounds[..n]);
        if n == |rounds| {
          return false, n;
        }
        ReachedNext(b, first, rounds, n);
        Others(rounds[n].others);
        RefillValid(View(), rounds[n].now);
        Refill(rounds[n].now);
        n := n + 1;
      }
      PolledAs(b, first, rounds[..n]);
      tokens := tokens - 1.0;
      granted := true;
    }
  }

  /** Whole nanoseconds that a bucket still lacks. */
  ghost function Deficit(b: Bucket): int
    requires b.rate > 0.0
  {
    if b.tokens >= 1.0 then 0 else WaitNanos(b) + 1
  }

  lemma DeficitShrinks(b: Bucket, now: int)
    requires b.Valid() && b.tokens < 1.0 <= b.burst && b.last < now
    ensures 0 <= Deficit(Refilled(b, now)) < Deficit(b)
  {
    var r := Refilled(b, now);
    RefillValid(b, now);
    WaitIsPositive(b);
    if r.tokens < 1.0 {
      WaitIsPositive(r);
      assert Wait(r) <= Wait(b) - 1.0 / 1_000_000_000.0 by {
        AtLeastOneNano(b.rate, b.last, now);
        LessWait(b, r);
      }
    }
  }

  lemma AtLeastOneNano(rate: real, from: int, until: int)
    requires rate > 0.0 && from < until
    ensures Mint(rate, from, until) >= rate / 1_000_000_000.0
  {
    MintGrows(rate, from + 1, until);
    MintAdds(rate, from, from + 1, until);
    assert Mint(rate, from, from + 1) == rate / 1_000_000_000.0;
  }

  lemma LessWait(b: Bucket, r: Bucket)
    requires b.rate > 0.0 && r.rate == b.rate && r.tokens >= b.tokens + b.rate / 1_000_000_000.0
    ensures Wait(r) <= Wait(b) - 1.0 / 1_000_000_000.0
  {
    var k := 1.0 / 1_000_000_000.0;
    assert b.rate / 1_000_000_000.0 == k * b.rate;
    assert Wait(r) * b.rate == 1.0 - r.tokens && Wait(b) * b.rate == 1.0 - b.tokens;
    assert (Wait(b) - k) * b.rate == Wait(b) * b.rate - k * b.rate;
    ScaleIff(Wait(b) - k, Wait(r), b.rate);
  }
}
