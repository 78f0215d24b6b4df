/**
 The load of a stage: how many requests all its workers together can send, paced by their slots and granted by the
 shared token bucket.
 */
module StageLoad {

  import opened Ordering
  import opened Pacing
  import opened TokenBuckets

  // ----- Polls before the end of the stage

  function Polled(attempts: seq<Attempt>): (times: seq<int>)
    ensures |times| == |attempts|
  {
    seq(|attempts|, k requires 0 <= k < |attempts| => attempts[k].polled)
  }

  /** The times of all polls of all workers. */
  function AllPolled(all: seq<seq<Attempt>>): seq<int> {
    if all == [] then [] else Polled(all[0]) + AllPolled(all[1..])
  }

  /** Only the last poll of a worker can come after the end of the stage. */
  lemma OneLatePoll(attempts: seq<Attempt>, end: int, since: int)
    requires Before(attempts, end) && Chained(attempts, since)
    ensures Below(Polled(attempts), end) >= |attempts| - 1
  {
    if attempts != [] {
      var times, n := Polled(attempts), |attempts| - 1;
      forall k | 0 <= k < n
        ensures times[..n][k] < end
      {
        assert attempts[k].polled <= attempts[k + 1].now;
      }
      BelowAll(times[..n], end);
      BelowConcat(times[..n], times[n..], end);
      assert times == times[..n] + times[n..];
    }
  }

  lemma {:induction false} OneLatePollEach(all: seq<seq<Attempt>>, end: int)
    requires forall w :: 0 <= w < |all| ==> Below(Polled(all[w]), end) >= |all[w]| - 1
    ensures Below(AllPolled(all), end) >= |AllPolled(all)| - |all|
  {
    if all != [] {
      OneLatePollEach(all[1..], end);
      BelowConcat(Polled(all[0]), AllPolled(all[1..]), end);
    }
  }

  // ----- Attempts of all workers

  /** The workers that made their one attempt after a stop. */
  function Stopped(all: seq<seq<Attempt>>): nat {
    if all == [] then 0 else |all[0]| - Unstopped(all[0]) + Stopped(all[1..])
  }

  lemma {:induction false} AttemptsBound(all: seq<seq<Attempt>>, n: nat)
    requires forall w :: 0 <= w < |all| ==> Unstopped(all[w]) <= n
    ensures |AllPolled(all)| <= |all| * n + Stopped(all)
  {
    if all != [] {
      AttemptsBound(all[1..], n);
      assert |all| * n == (|all| - 1) * n + n;
    }
  }

  lemma {:induction false} StoppedBound(all: seq<seq<Attempt>>)
    ensures Stopped(all) <= |all|
  {
    if all != [] {
      StoppedBound(all[1..]);
    }
  }

  // ----- The polls as a run of the bucket

  function Times(run: seq<Event>): (times: seq<int>)
    ensures |times| == |run|
  {
    seq(|run|, i requires 0 <= i < |run| => run[i].now)
  }

  lemma {:induction false} LaterAfter(from: int, run: seq<Event>)
    requires OnlyPolls(run) && Timed(from, run)
    ensures forall i :: 0 <= i < |run| ==> from <= run[i].now
    decreases |run|
  {
    if run != [] {
      LaterAfter(run[0].now, run[1..]);
      assert forall i :: 1 <= i < |run| ==> run[i] == run[1..][i - 1];
    }
  }

  /** The polls before a time come first. */
  lemma {:induction false} EarlyPolls(from: int, run: seq<Event>, end: int) returns (n: nat)
    requires OnlyPolls(run) && Timed(from, run)
    ensures n <= |run| && n == Below(Times(run), end)
    ensures Timed(from, run[..n]) && OnlyPolls(run[..n]) && (n > 0 ==> LastReading(from, run[..n]) < end)
    decreases |run|
  {
    if run == [] || run[0].now >= end {
      n := 0;
      if run != [] {
        LaterAfter(from, run);
        LaterAfter(run[0].now, run[1..]);
        assert forall i :: 1 <= i < |run| ==> run[i] == run[1..][i - 1];
        BelowNone(Times(run), end);
      }
    } else {
      var m := EarlyPolls(run[0].now, run[1..], end);
      n := m + 1;
      assert Times(run)[1..] == Times(run[1..]);
      assert run[..n][1..] == run[1..][..m];
      assert m > 0 ==> run[..n][n - 1] == run[1..][..m][m - 1];
    }
  }

  lemma {:induction false} GrantsArePolls(b: Bucket, run: seq<Event>)
    ensures Grants(b, run) <= |run|
    decreases |run|
  {
    if run != [] {
      GrantsArePolls(Step(b, run[0]), run[1..]);
    }
  }

  lemma MintUpTo(rate: real, from: int, until: int, end: int)
    requires rate > 0.0 && from <= until <= end
    ensures Mint(rate, from, until) <= Mint(rate, from, end)
  {
    MintAdds(rate, from, until, end);
    MintGrows(rate, until, end);
  }

  /** Grants are bounded by the burst, what is minted up to a time, and the polls after it. */
  lemma GrantsUpTo(b: Bucket, run: seq<Event>, end: int, late: nat)
    requires b.Valid() && OnlyPolls(run) && Timed(b.last, run) && b.last <= end
    requires |run| - Below(Times(run), end) <= late
    ensures Grants(b, run) as real <= b.burst + Mint(b.rate, b.last, end) + late as real
  {
    var n := EarlyPolls(b.last, run, end);
    WindowBound(b, run[..n]);
    MintUpTo(b.rate, b.last, LastReading(b.last, run[..n]), end);
    assert run == run[..n] + run[n..];
    FinalJoin(b, run[..n], run[n..]);
    GrantsArePolls(Final(b, run[..n]), run[n..]);
  }

  // ----- The stage

  /** A stage: what each worker sees, when it computes its first slot, and the rate its period is computed from. */
  datatype Stage = Stage(sights: seq<seq<Sight>>, begins: seq<int>, rps: nat, start: int, end: int) {

    function Workers(): nat {
      |sights|
    }

    function Slots(): int {
      Period(Workers(), rps)
    }

    /** The time from which the slots of worker `w` count. */
    function Base(w: nat): int
      requires w < Workers() && |begins| == Workers()
    {
      begins[w] + Offset(Slots(), w, Workers())
    }

    function Made(w: nat): seq<Attempt>
      requires w < Workers() && |begins| == Workers()
    {
      Attempts(sights[w], 0, Base(w), true, Slots(), end)
    }

    function All(): (all: seq<seq<Attempt>>)
      requires |begins| == Workers()
      ensures |all| == Workers()
    {
      seq(Workers(), w requires 0 <= w < Workers() => Made(w))
    }

    /** Every worker starts after the stage does and sees time pass, and no phase offset overflows. */
    ghost predicate Proper() {
      && 1 <= Workers() <= MAX_WORKERS && |begins| == Workers() && start <= end
      && (forall w :: 0 <= w < Workers() ==>
            Monotone(sights[w]) && start <= begins[w] && Slots() * w < INT64_END)
    }
  }

  lemma PeriodInRange(workers: nat, rps: nat)
    requires 1 <= workers <= MAX_WORKERS
    ensures 1 <= Period(workers, rps) <= MAX_PERIOD
  {
  }

  /** What the pacing of one worker of the stage gives. */
  lemma WorkerOfStage(st: Stage, w: nat)
    requires st.Proper() && w < st.Workers()
    ensures Unstopped(st.Made(w)) <= 1 + (st.end - st.start) / st.Slots()
    ensures Below(Polled(st.Made(w)), st.end) >= |st.Made(w)| - 1
  {
    var period, base, sights := st.Slots(), st.Base(w), st.sights[w];
    PeriodInRange(st.Workers(), st.rps);
    OffsetExact(period, w, st.Workers());
    AttemptsArePaced(sights, base, period, st.end);
    WorkerBound(st.Made(w), base, period, st.start, st.end);
    var since := if sights == [] then 0 else sights[0].now;
    AttemptsChained(sights, 0, base, true, period, st.end, since);
    OneLatePoll(st.Made(w), st.end, since);
  }

  /** `run` is the polls of all workers in the order in which the bucket's mutex lets them in. */
  ghost predicate Interleaves(run: seq<Event>, st: Stage)
    requires |st.begins| == st.Workers()
  {
    OnlyPolls(run) && multiset(Times(run)) == multiset(AllPolled(st.All()))
  }

  /**
   The requests that a stage of length T sends are at most one a slot for each worker, `1 + T / period`, and one more
   for each worker that a stop caught before its poll; and they are at most the burst, the rate times the time from
   the bucket's last refill to the end of the stage, and one more for each worker whose last poll came after it.
   */
  lemma StageTheorem(st: Stage, b: Bucket, run: seq<Event>)
    requires st.Proper() && b.Valid() && b.last <= st.end
    requires Interleaves(run, st) && Timed(b.last, run)
    ensures Grants(b, run) <= st.Workers() * (1 + (st.end - st.start) / st.Slots()) + Stopped(st.All())
    ensures Stopped(st.All()) <= st.Workers()
    ensures Grants(b, run) as real <= b.burst + Mint(b.rate, b.last, st.end) + st.Workers() as real
  {
    var all := st.All();
    forall w | 0 <= w < |all|
      ensures Unstopped(all[w]) <= 1 + (st.end - st.start) / st.Slots()
      ensures Below(Polled(all[w]), st.end) >= |all[w]| - 1
    {
      WorkerOfStage(st, w);
    }
    var times, polled := Times(run), AllPolled(all);
    BelowPermutation(times, polled, st.end);
    assert |times| == |multiset(times)| && |polled| == |multiset(polled)|;
    OneLatePollEach(all, st.end);
    GrantsUpTo(b, run, st.end, st.Workers());
    AttemptsBound(all, 1 + (st.end - st.start) / st.Slots());
    StoppedBound(all);
    GrantsArePolls(b, run);
  }
}
