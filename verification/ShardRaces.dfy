/**
 Threads that record into the same counters at once: the compare-and-swap loops for the least and the greatest latency
 of both collectors, and the loop for the saturating latency sum of a shard, as a step machine. Every atomic load, store
 and compare-and-swap is one step. The plain collector has the loops for the extremes alone, with latencies that are not
 clamped.
 */
module ShardRaces {

  import opened Registers
  import opened MetricsCollectors

  const MAX_SUM: int := WORD - 1

  /** Where a thread stands in `record_request`, with its latency and the value it last loaded. */
  datatype Thread =
    | Idle
    | Adding(x: Int64, cur: int)
    | ToNarrow(x: Int64)
    | Narrowing(x: Int64, cur: int)
    | ToWiden(x: Int64)
    | Widening(x: Int64, cur: int)

  /** `started` and `added` (the latencies that are in the sum, added up) are history. */
  datatype State = State(
    clamped: bool,
    sum: int,
    least: int,
    greatest: int,
    threads: seq<Thread>,
    started: seq<Int64>,
    added: nat)

  function Threads(n: nat): (ts: seq<Thread>)
    ensures |ts| == n && forall i :: 0 <= i < n ==> ts[i].Idle?
  {
    if n == 0 then [] else Threads(n - 1) + [Idle]
  }

  function Init(clamped: bool, n: nat): State {
    State(clamped, 0, INT64_MAX, INT64_MIN, Threads(n), [], 0)
  }

  /** The latency that counts for the extremes. */
  function Lat(clamped: bool, x: int): int {
    if clamped && x < 0 then 0 else x
  }

  /** The latency that counts for the sum. */
  function Positive(x: int): nat {
    if x > 0 then x else 0
  }

  function Set(s: State, p: nat, t: Thread): State
    requires p < |s.threads|
  {
    s.(threads := s.threads[p := t])
  }

  function Begin(s: State, p: nat, x: Int64): State
    requires p < |s.threads|
  {
    Set(s, p, if x > 0 then Adding(x, s.sum) else ToNarrow(x)).(started := s.started + [x])
  }

  /** A weak compare-and-swap may fail although the values agree. */
  function ThreadStep(s: State, p: nat, weakFail: bool): State
    requires p < |s.threads|
  {
    match s.threads[p]
    case Idle => s
    case Adding(x, cur) =>
      if cur > MAX_SUM - x then
        Set(s, p, ToNarrow(x)).(sum := MAX_SUM, added := s.added + Positive(x))
      else if !weakFail && cur == s.sum then
        Set(s, p, ToNarrow(x)).(sum := cur + x, added := s.added + Positive(x))
      else
        Set(s, p, Adding(x, s.sum))
    case ToNarrow(x) => Set(s, p, Narrowing(x, s.least))
    case Narrowing(x, cur) =>
      if Lat(s.clamped, x) >= cur then Set(s, p, ToWiden(x))
      else if !weakFail && cur == s.least then Set(s, p, ToWiden(x)).(least := Lat(s.clamped, x))
      else Set(s, p, Narrowing(x, s.least))
    case ToWiden(x) => Set(s, p, Widening(x, s.greatest))
    case Widening(x, cur) =>
      if Lat(s.clamped, x) <= cur then Set(s, p, Idle)
      else if !weakFail && cur == s.greatest then Set(s, p, Idle).(greatest := Lat(s.clamped, x))
      else Set(s, p, Widening(x, s.greatest))
  }

  datatype Action = Record(p: nat, x: Int64) | Step(p: nat, weakFail: bool)

  function Apply(s: State, a: Action): State {
    match a
    case Record(p, x) => if p < |s.threads| && s.threads[p].Idle? then Begin(s, p, x) else s
    case Step(p, weakFail) => if p < |s.threads| then ThreadStep(s, p, weakFail) else s
  }

  function Run(s: State, schedule: seq<Action>): State
    decreases |schedule|
  {
    if schedule == [] then s else Run(Apply(s, schedule[0]), schedule[1..])
  }

  // ----- Invariant

  /** The thread has still to lower the least latency, or to raise the greatest. */
  predicate ToLower(t: Thread, x: int) {
    (t.Adding? || t.ToNarrow? || t.Narrowing?) && t.x == x
  }

  predicate ToRaise(t: Thread, x: int) {
    !t.Idle? && t.x == x
  }

  ghost predicate Lowered(s: State, x: int) {
    s.least <= Lat(s.clamped, x) || exists p :: 0 <= p < |s.threads| && ToLower(s.threads[p], x)
  }

  ghost predicate Raised(s: State, x: int) {
    Lat(s.clamped, x) <= s.greatest || exists p :: 0 <= p < |s.threads| && ToRaise(s.threads[p], x)
  }

  /** A loaded value is one that the counter has had, and the counters move one way only. */
  predicate ThreadOk(s: State, t: Thread) {
    match t
    case Idle => true
    case Adding(x, cur) => x > 0 && 0 <= cur <= s.sum && x in s.started
    case Narrowing(x, cur) => s.least <= cur && x in s.started
    case Widening(x, cur) => cur <= s.greatest && x in s.started
    case ToNarrow(x) => x in s.started
    case ToWiden(x) => x in s.started
  }

  ghost predicate ThreadsOk(s: State) {
    forall p :: 0 <= p < |s.threads| ==> ThreadOk(s, s.threads[p])
  }

  /** An extreme is the latency of some request, or what it was at first. */
  ghost predicate Attained(s: State) {
    && (s.least == INT64_MAX || exists k :: 0 <= k < |s.started| && s.least == Lat(s.clamped, s.started[k]))
    && (s.greatest == INT64_MIN || exists k :: 0 <= k < |s.started| && s.greatest == Lat(s.clamped, s.started[k]))
  }

  ghost predicate Bounds(s: State) {
    forall k :: 0 <= k < |s.started| ==> Lowered(s, s.started[k]) && Raised(s, s.started[k])
  }

  function Saturated(n: nat): int {
    if n < WORD then n else MAX_SUM
  }

  function Pending(t: Thread): nat {
    if t.Adding? then Positive(t.x) else 0
  }

  function PendingSum(ts: seq<Thread>): nat {
    if ts == [] then 0 else PendingSum(ts[..|ts| - 1]) + Pending(ts[|ts| - 1])
  }

  function Total(xs: seq<int>): nat {
    if xs == [] then 0 else Total(xs[..|xs| - 1]) + Positive(xs[|xs| - 1])
  }

  ghost predicate SumOk(s: State) {
    s.sum == Saturated(s.added) && Total(s.started) == s.added + PendingSum(s.threads)
  }

  ghost predicate Inv(s: State) {
    ThreadsOk(s) && Attained(s) && Bounds(s) && SumOk(s)
  }

  lemma {:induction false} PendingSet(ts: seq<Thread>, p: nat, t: Thread)
    requires p < |ts|
    ensures PendingSum(ts[p := t]) == PendingSum(ts) - Pending(ts[p]) + Pending(t)
  {
    var n := |ts| - 1;
    if p == n {
      assert ts[p := t][..n] == ts[..n];
    } else {
      assert ts[p := t][..n] == ts[..n][p := t];
      PendingSet(ts[..n], p, t);
    }
  }

  lemma {:induction false} NothingPending(ts: seq<Thread>)
    requires forall p :: 0 <= p < |ts| ==> ts[p].Idle?
    ensures PendingSum(ts) == 0
  {
    if ts != [] {
      NothingPending(ts[..|ts| - 1]);
    }
  }

  lemma InitInv(clamped: bool, n: nat)
    ensures Inv(Init(clamped, n))
  {
    NothingPending(Threads(n));
  }

  // ----- Every step keeps the invariant

  /** The counters move one way, one thread moves on, and what it had to do is done or still to be done. */
  lemma BoundsKept(s: State, s': State, p: nat)
    requires Bounds(s) && p < |s.threads| && |s'.threads| == |s.threads| && s'.started == s.started
    requires s'.clamped == s.clamped && s'.least <= s.least && s.greatest <= s'.greatest
    requires forall q :: 0 <= q < |s.threads| && q != p ==> s'.threads[q] == s.threads[q]
    requires forall x :: ToLower(s.threads[p], x) ==> ToLower(s'.threads[p], x) || s'.least <= Lat(s.clamped, x)
    requires forall x :: ToRaise(s.threads[p], x) ==> ToRaise(s'.threads[p], x) || Lat(s.clamped, x) <= s'.greatest
    ensures Bounds(s')
  {
    forall k | 0 <= k < |s'.started|
      ensures Lowered(s', s'.started[k]) && Raised(s', s'.started[k])
    {
      var x := s.started[k];
      assert Lowered(s, x) && Raised(s, x);
      if !(s.least <= Lat(s.clamped, x)) {
        var q :| 0 <= q < |s.threads| && ToLower(s.threads[q], x);
        assert ToLower(s'.threads[q], x) || s'.least <= Lat(s.clamped, x);
      }
      if !(Lat(s.clamped, x) <= s.greatest) {
        var q :| 0 <= q < |s.threads| && ToRaise(s.threads[q], x);
        assert ToRaise(s'.threads[q], x) || Lat(s.clamped, x) <= s'.greatest;
      }
    }
  }

  lemma BeginInv(s: State, p: nat, x: Int64)
    requires Inv(s) && p < |s.threads| && s.threads[p].Idle?
    ensures Inv(Begin(s, p, x))
  {
    var s' := Begin(s, p, x);
    PendingSet(s.threads, p, s'.threads[p]);
    assert s'.started[..|s.started|] == s.started;
    forall k | 0 <= k < |s'.started|
      ensures Lowered(s', s'.started[k]) && Raised(s', s'.started[k])
    {
      if k == |s.started| {
        assert ToLower(s'.threads[p], x) && ToRaise(s'.threads[p], x);
      } else {
        BegunBefore(s, p, x, s.started[k]);
      }
    }
    BegunAttained(s, p, x);
  }

  lemma BegunBefore(s: State, p: nat, x: Int64, y: int)
    requires p < |s.threads| && s.threads[p].Idle? && Lowered(s, y) && Raised(s, y)
    ensures Lowered(Begin(s, p, x), y) && Raised(Begin(s, p, x), y)
  {
    var s' := Begin(s, p, x);
    if !(s.least <= Lat(s.clamped, y)) {
      var q :| 0 <= q < |s.threads| && ToLower(s.threads[q], y);
      assert ToLower(s'.threads[q], y);
    }
    if !(Lat(s.clamped, y) <= s.greatest) {
      var q :| 0 <= q < |s.threads| && ToRaise(s.threads[q], y);
      assert ToRaise(s'.threads[q], y);
    }
  }

  lemma BegunAttained(s: State, p: nat, x: Int64)
    requires Attained(s) && p < |s.threads|
    ensures Attained(Begin(s, p, x))
  {
    var s' := Begin(s, p, x);
    if s.least != INT64_MAX {
      var k :| 0 <= k < |s.started| && s.least == Lat(s.clamped, s.started[k]);
      assert s'.started[k] == s.started[k];
    }
    if s.greatest != INT64_MIN {
      var k :| 0 <= k < |s.started| && s.greatest == Lat(s.clamped, s.started[k]);
      assert s'.started[k] == s.started[k];
    }
  }

  lemma AddingSum(s: State, p: nat, weakFail: bool)
    requires SumOk(s) && p < |s.threads| && s.threads[p].Adding? && ThreadOk(s, s.threads[p])
    ensures SumOk(ThreadStep(s, p, weakFail)) && s.sum <= ThreadStep(s, p, weakFail).sum
  {
    PendingSet(s.threads, p, ThreadStep(s, p, weakFail).threads[p]);
  }

  lemma OtherLeavesSum(s: State, p: nat, weakFail: bool)
    requires p < |s.threads| && !s.threads[p].Adding?
    ensures var s' := ThreadStep(s, p, weakFail);
            && s'.sum == s.sum && s'.added == s.added && s'.started == s.started
            && p < |s'.threads| && !s'.threads[p].Adding? && s'.threads == s.threads[p := s'.threads[p]]
  {
  }

  lemma OtherSum(s: State, p: nat, weakFail: bool)
    requires SumOk(s) && p < |s.threads| && !s.threads[p].Adding?
    ensures SumOk(ThreadStep(s, p, weakFail)) && s.sum == ThreadStep(s, p, weakFail).sum
  {
    OtherLeavesSum(s, p, weakFail);
    PendingSet(s.threads, p, ThreadStep(s, p, weakFail).threads[p]);
  }

  /** What a step leaves alone, and which way it moves the extremes. */
  lemma StepMoves(s: State, p: nat, weakFail: bool)
    requires p < |s.threads| && ThreadOk(s, s.threads[p])
    ensures var s' := ThreadStep(s, p, weakFail);
            && |s'.threads| == |s.threads| && s'.started == s.started && s'.clamped == s.clamped
            && s'.threads == s.threads[p := s'.threads[p]]
            && s'.least <= s.least && s.greatest <= s'.greatest
            && (s'.least == s.least || (s.threads[p].Narrowing? && s'.least == Lat(s.clamped, s.threads[p].x)))
            && (s'.greatest == s.greatest || (s.threads[p].Widening? && s'.greatest == Lat(s.clamped, s.threads[p].x)))
  {
  }

  lemma StepOwn(s: State, p: nat, weakFail: bool)
    requires p < |s.threads| && ThreadOk(s, s.threads[p]) && s.sum >= 0
    ensures ThreadOk(ThreadStep(s, p, weakFail), ThreadStep(s, p, weakFail).threads[p])
  {
  }

  lemma StepDone(s: State, p: nat, weakFail: bool, x: int)
    requires p < |s.threads| && ThreadOk(s, s.threads[p])
    ensures var s' := ThreadStep(s, p, weakFail);
            && (ToLower(s.threads[p], x) ==> ToLower(s'.threads[p], x) || s'.least <= Lat(s.clamped, x))
            && (ToRaise(s.threads[p], x) ==> ToRaise(s'.threads[p], x) || Lat(s.clamped, x) <= s'.greatest)
  {
  }

  lemma StepThreads(s: State, p: nat, weakFail: bool)
    requires ThreadsOk(s) && SumOk(s) && p < |s.threads| && s.sum <= ThreadStep(s, p, weakFail).sum
    ensures ThreadsOk(ThreadStep(s, p, weakFail))
  {
    assert ThreadOk(s, s.threads[p]);
    StepMoves(s, p, weakFail);
    StepOwn(s, p, weakFail);
    var s' := ThreadStep(s, p, weakFail);
    OthersOk(s, s', p);
  }

  lemma OthersOk(s: State, s': State, p: nat)
    requires ThreadsOk(s) && p < |s.threads| && |s'.threads| == |s.threads|
    requires s'.threads == s.threads[p := s'.threads[p]]
    requires s'.started == s.started && s.sum <= s'.sum && s'.least <= s.least && s.greatest <= s'.greatest
    requires ThreadOk(s', s'.threads[p])
    ensures ThreadsOk(s')
  {
  }

  lemma AttainedKept(s: State, s': State, x: Int64)
    requires Attained(s) && s'.started == s.started && s'.clamped == s.clamped
    requires s'.least == s.least || (x in s.started && s'.least == Lat(s.clamped, x))
    requires s'.greatest == s.greatest || (x in s.started && s'.greatest == Lat(s.clamped, x))
    ensures Attained(s')
  {
  }

  lemma StepAttained(s: State, p: nat, weakFail: bool)
    requires ThreadsOk(s) && Attained(s) && p < |s.threads|
    ensures Attained(ThreadStep(s, p, weakFail))
  {
    assert ThreadOk(s, s.threads[p]);
    StepMoves(s, p, weakFail);
    AttainedKept(s, ThreadStep(s, p, weakFail), if s.threads[p].Idle? then 0 else s.threads[p].x);
  }

  lemma StepBounds(s: State, p: nat, weakFail: bool)
    requires ThreadsOk(s) && Bounds(s) && p < |s.threads|
    ensures Bounds(ThreadStep(s, p, weakFail))
  {
    assert ThreadOk(s, s.threads[p]);
    StepMoves(s, p, weakFail);
    var s' := ThreadStep(s, p, weakFail);
    forall x
      ensures ToLower(s.threads[p], x) ==> ToLower(s'.threads[p], x) || s'.least <= Lat(s.clamped, x)
      ensures ToRaise(s.threads[p], x) ==> ToRaise(s'.threads[p], x) || Lat(s.clamped, x) <= s'.greatest
    {
      StepDone(s, p, weakFail, x);
    }
    BoundsKept(s, s', p);
  }

  lemma StepInv(s: State, p: nat, weakFail: bool)
    requires Inv(s) && p < |s.threads|
    ensures Inv(ThreadStep(s, p, weakFail))
  {
    assert ThreadOk(s, s.threads[p]);
    if s.threads[p].Adding? {
      AddingSum(s, p, weakFail);
    } else {
      OtherSum(s, p, weakFail);
    }
    StepThreads(s, p, weakFail);
    StepAttained(s, p, weakFail);
    StepBounds(s, p, weakFail);
  }

  lemma ApplyInv(s: State, a: Action)
    requires Inv(s)
    ensures Inv(Apply(s, a))
  {
    match a
    case Record(p, x) => if p < |s.threads| && s.threads[p].Idle? { BeginInv(s, p, x); }
    case Step(p, weakFail) => if p < |s.threads| { StepInv(s, p, weakFail); }
  }

  lemma {:induction false} RunInv(s: State, schedule: seq<Action>)
    requires Inv(s)
    ensures Inv(Run(s, schedule))
    decreases |schedule|
  {
    if schedule != [] {
      ApplyInv(s, schedule[0]);
      RunInv(Apply(s, schedule[0]), schedule[1..]);
    }
  }

  // ----- At quiescence

  predicate Quiescent(s: State) {
    forall p :: 0 <= p < |s.threads| ==> s.threads[p].Idle?
  }

  /** `rs` are requests with the latencies recorded, as the collector counts them, in the order of their starts. */
  ghost predicate SameLatencies(s: State, rs: seq<Request>) {
    |rs| == |s.started| && forall k :: 0 <= k < |rs| ==> rs[k].latency == Lat(s.clamped, s.started[k])
  }

  lemma QuietExtremes(s: State, rs: seq<Request>)
    requires Inv(s) && Quiescent(s) && SameLatencies(s, rs)
    ensures s.least == Tally(rs).least && s.greatest == Tally(rs).greatest
  {
    TallyBounds(rs);
    if rs != [] {
      var i :| 0 <= i < |rs| && rs[i].latency == Tally(rs).least;
      var j :| 0 <= j < |rs| && rs[j].latency == Tally(rs).greatest;
      assert Lowered(s, s.started[i]) && Raised(s, s.started[j]);
    }
  }

  lemma {:induction false} TallyTotal(started: seq<Int64>, rs: seq<Request>)
    requires |rs| == |started| && forall k :: 0 <= k < |rs| ==> rs[k].latency == Lat(true, started[k])
    ensures Tally(rs).latency == Total(started)
    decreases |rs|
  {
    if rs != [] {
      TallyTotal(started[..|rs| - 1], rs[..|rs| - 1]);
    }
  }

  /**
   In every interleaving of any number of threads, once no record is under way: the least and the greatest latency are
   those of the requests counted one after another, and the sum of a shard is theirs, saturated at 2^64 - 1. No update
   is lost, and none counts twice.
   */
  lemma RaceTheorem(clamped: bool, n: nat, schedule: seq<Action>, rs: seq<Request>)
    requires var s := Run(Init(clamped, n), schedule); Quiescent(s) && SameLatencies(s, rs)
    ensures var s := Run(Init(clamped, n), schedule);
            && s.least == Tally(rs).least && s.greatest == Tally(rs).greatest
            && (s.clamped ==> Tally(rs).latency >= 0 && s.sum == Saturated(Tally(rs).latency))
  {
    InitInv(clamped, n);
    RunInv(Init(clamped, n), schedule);
    var s := Run(Init(clamped, n), schedule);
    QuietExtremes(s, rs);
    NothingPending(s.threads);
    if s.clamped {
      TallyTotal(s.started, rs);
    }
  }

  function Steps(p: nat, n: nat): seq<Action> {
    if n == 0 then [] else [Step(p, false)] + Steps(p, n - 1)
  }

  lemma StepsRun(s: State, p: nat, n: nat)
    requires p < |s.threads| && n > 0
    ensures Run(s, Steps(p, n)) == Run(ThreadStep(s, p, false), Steps(p, n - 1))
  {
    assert Steps(p, n)[1..] == Steps(p, n - 1);
  }

  /** Steps that a record still takes if nobody else is at it. */
  function Left(s: State, t: Thread): nat {
    match t
    case Idle => 0
    case Widening(_, cur) => if cur == s.greatest then 1 else 2
    case ToWiden(_) => 2
    case Narrowing(_, cur) => if cur == s.least then 3 else 4
    case ToNarrow(_) => 4
    case Adding(_, cur) => if cur == s.sum then 5 else 6
  }

  lemma StepNearer(s: State, p: nat)
    requires p < |s.threads| && !s.threads[p].Idle?
    ensures var s' := ThreadStep(s, p, false);
            p < |s'.threads| && Left(s', s'.threads[p]) < Left(s, s.threads[p]) && s'.started == s.started
  {
  }

  lemma {:induction false} Finishes(s: State, p: nat, n: nat)
    requires p < |s.threads| && Left(s, s.threads[p]) <= n
    ensures var s' := Run(s, Steps(p, n));
            && |s'.threads| == |s.threads| && s'.threads[p].Idle? && s'.started == s.started
            && forall q :: 0 <= q < |s.threads| && q != p ==> s'.threads[q] == s.threads[q]
    decreases n
  {
    if n > 0 {
      StepsRun(s, p, n);
      if !s.threads[p].Idle? {
        StepNearer(s, p);
      }
      Finishes(ThreadStep(s, p, false), p, n - 1);
    }
  }

  /** A record that the other threads let through takes five steps, and quiescence comes back with it counted. */
  lemma RecordFinishes(s: State, p: nat, x: Int64)
    requires Quiescent(s) && p < |s.threads|
    ensures var s' := Run(s, [Record(p, x)] + Steps(p, 5)); Quiescent(s') && s'.started == s.started + [x]
  {
    assert ([Record(p, x)] + Steps(p, 5))[1..] == Steps(p, 5);
    Finishes(Begin(s, p, x), p, 5);
  }
}
