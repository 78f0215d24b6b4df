/**
 The metrics collector as one thread sees it: counters, the latency ring, snapshot, percentiles and reset.

 The ring's counters are 64-bit registers. The history variables `requests` (everything recorded since the last
 reset) and `base` (the tickets spent before it) say what the registers and cells stand for.
 */
module MetricsCollectors {
  import opened Registers
  import opened Ordering
  import Selection

  const INT64_MAX: int := 0x7fff_ffff_ffff_ffff
  const INT64_MIN: int := -0x8000_0000_0000_0000

  type Int64 = x: int | INT64_MIN <= x <= INT64_MAX

  datatype Request = Request(status: nat, latency: Int64, sent: nat, received: nat) {
    predicate Succeeded() {
      200 <= status < 400
    }
  }

  /** The exact counters of a history of requests. */
  datatype Totals = Totals(
    requests: nat, succeeded: nat, failed: nat, sent: nat, received: nat, latency: int, least: int, greatest: int)

  const NOTHING := Totals(0, 0, 0, 0, 0, 0, INT64_MAX, INT64_MIN)

  function Count(t: Totals, r: Request): Totals {
    Totals(
      t.requests + 1,
      t.succeeded + (if r.Succeeded() then 1 else 0),
      t.failed + (if r.Succeeded() then 0 else 1),
      t.sent + r.sent,
      t.received + r.received,
      t.latency + r.latency,
      if r.latency < t.least then r.latency else t.least,
      if r.latency > t.greatest then r.latency else t.greatest)
  }

  function Tally(rs: seq<Request>): Totals {
    if rs == [] then NOTHING else Count(Tally(rs[..|rs| - 1]), rs[|rs| - 1])
  }

  lemma TallyAppend(rs: seq<Request>, r: Request)
    ensures Tally(rs + [r]) == Count(Tally(rs), r)
  {
    assert (rs + [r])[..|rs|] == rs;
  }

  /** Counting in registers is counting. */
  lemma CountInRegisters(t: Totals, r: Request)
    ensures Low(Low(t.requests) + 1) == Low(t.requests + 1)
    ensures Low(Low(t.succeeded) + 1) == Low(t.succeeded + 1) && Low(Low(t.failed) + 1) == Low(t.failed + 1)
    ensures Low(Low(t.sent) + r.sent) == Low(t.sent + r.sent)
    ensures Low(Low(t.received) + r.received) == Low(t.received + r.received)
    ensures Low(Low(t.latency) + r.latency) == Low(t.latency + r.latency)
  {
    LowAdd(t.requests, 1);
    LowAdd(t.succeeded, 1);
    LowAdd(t.failed, 1);
    LowAdd(t.sent, r.sent);
    LowAdd(t.received, r.received);
    LowAdd(t.latency, r.latency);
  }

  /** The positions of the requests that succeeded. */
  ghost function Successes(rs: seq<Request>): set<nat> {
    set i: nat | i < |rs| && 200 <= rs[i].status < 400
  }

  lemma {:induction false} TallyCounts(rs: seq<Request>)
    ensures Tally(rs).requests == |rs| == Tally(rs).succeeded + Tally(rs).failed
    ensures Tally(rs).succeeded == |Successes(rs)|
    decreases |rs|
  {
    if rs != [] {
      var n := |rs| - 1;
      TallyCounts(rs[..n]);
      assert Successes(rs) == Successes(rs[..n]) + if rs[n].Succeeded() then {n} else {};
    }
  }

  lemma {:induction false} TallyBounds(rs: seq<Request>)
    ensures forall i :: 0 <= i < |rs| ==> Tally(rs).least <= rs[i].latency <= Tally(rs).greatest
    ensures rs != [] ==> exists i :: 0 <= i < |rs| && rs[i].latency == Tally(rs).least
    ensures rs != [] ==> exists i :: 0 <= i < |rs| && rs[i].latency == Tally(rs).greatest
    decreases |rs|
  {
    if rs != [] {
      var n := |rs| - 1;
      var before := rs[..n];
      TallyBounds(before);
      assert rs[n].latency == Tally(rs).least || (before != [] && Tally(rs).least == Tally(before).least);
      assert rs[n].latency == Tally(rs).greatest || (before != [] && Tally(rs).greatest == Tally(before).greatest);
      assert forall i :: 0 <= i < n ==> before[i] == rs[i];
    }
  }

  function Latencies(rs: seq<Request>): (ls: seq<int>)
    ensures |ls| == |rs|
  {
    seq(|rs|, i requires 0 <= i < |rs| => rs[i].latency)
  }

  function SumOf(xs: seq<int>): int {
    if xs == [] then 0 else xs[0] + SumOf(xs[1..])
  }

  lemma {:induction false} SumOfAppend(xs: seq<int>, x: int)
    ensures SumOf(xs + [x]) == SumOf(xs) + x
    decreases |xs|
  {
    if xs == [] {
      assert [x][1..] == [];
    } else {
      assert (xs + [x])[1..] == xs[1..] + [x];
      SumOfAppend(xs[1..], x);
    }
  }

  function Sent(rs: seq<Request>): seq<int> {
    seq(|rs|, i requires 0 <= i < |rs| => rs[i].sent)
  }

  function Received(rs: seq<Request>): seq<int> {
    seq(|rs|, i requires 0 <= i < |rs| => rs[i].received)
  }

  /** The bytes and the latencies of all requests are added up, each once. */
  lemma {:induction false} TallySums(rs: seq<Request>)
    ensures Tally(rs).sent == SumOf(Sent(rs)) && Tally(rs).received == SumOf(Received(rs))
    ensures Tally(rs).latency == SumOf(Latencies(rs))
    decreases |rs|
  {
    if rs != [] {
      var n := |rs| - 1;
      var before, r := rs[..n], rs[n];
      TallySums(before);
      SumOfAppend(Sent(before), r.sent);
      SumOfAppend(Received(before), r.received);
      SumOfAppend(Latencies(before), r.latency);
      assert Sent(rs) == Sent(before) + [r.sent] && Received(rs) == Received(before) + [r.received];
      assert Latencies(rs) == Latencies(before) + [r.latency];
    }
  }

  lemma HistoryAppend(rs: seq<Request>, r: Request)
    ensures Tally(rs + [r]) == Count(Tally(rs), r)
    ensures Latencies(rs + [r]) == Latencies(rs) + [r.latency]
  {
    TallyAppend(rs, r);
  }

  /** The last `n` elements, or all of them. */
  function Newest<T>(s: seq<T>, n: nat): (r: seq<T>)
    ensures |r| == if |s| <= n then |s| else n
  {
    if |s| <= n then s else s[|s| - n..]
  }

  /** `part / whole`, or zero when nothing has been counted. */
  function Ratio(part: nat, whole: nat): real {
    if whole > 0 then part as real / whole as real else 0.0
  }

  lemma RatioIsQuotient(part: nat, whole: nat)
    requires whole > 0
    ensures Ratio(part, whole) * whole as real == part as real
  {
  }

  lemma RatioAtMostOne(part: nat, whole: nat)
    ensures 0.0 <= Ratio(part, whole)
    ensures part <= whole ==> Ratio(part, whole) <= 1.0
  {
    if whole > 0 {
      assert Ratio(part, whole) * whole as real == part as real;
    }
  }

  function Percent(part: nat, whole: nat): real {
    Ratio(part, whole) * 100.0
  }

  lemma PercentIsQuotient(part: nat, whole: nat)
    requires whole > 0
    ensures Percent(part, whole) * whole as real == part as real * 100.0
  {
    RatioIsQuotient(part, whole);
    assert Percent(part, whole) * whole as real == Ratio(part, whole) * whole as real * 100.0;
  }

  lemma PercentBounds(part: nat, whole: nat)
    requires part <= whole
    ensures 0.0 <= Percent(part, whole) <= 100.0
  {
    RatioAtMostOne(part, whole);
  }

  lemma PercentOfRegisters(part: nat, whole: nat)
    requires part <= whole < WORD
    ensures 0.0 <= Percent(Low(part), Low(whole)) <= 100.0
  {
    PercentBounds(part, whole);
  }

  /** As long as the request counter has not wrapped around, an error rate is a percentage. */
  lemma ErrorRateBounds(rs: seq<Request>)
    requires |rs| < WORD
    ensures var t := Tally(rs); 0.0 <= Percent(Low(t.failed), Low(t.requests)) <= 100.0
  {
    TallyCounts(rs);
    PercentOfRegisters(Tally(rs).failed, Tally(rs).requests);
  }

  /**
   `rate` times the number of requests is a hundred times the failed ones, as the counters show them; as long as these
   have not wrapped around, it is a percentage.
   */
  ghost predicate IsRate(rs: seq<Request>, rate: real) {
    && QuotientIs(Low(Tally(rs).failed), Low(Tally(rs).requests), rate)
    && (|rs| < WORD ==> 0.0 <= rate <= 100.0)
  }

  predicate QuotientIs(part: nat, whole: nat, rate: real) {
    if whole == 0 then rate == 0.0 else rate * whole as real == part as real * 100.0
  }

  lemma PercentIs(part: nat, whole: nat)
    ensures QuotientIs(part, whole, Percent(part, whole))
  {
    if whole > 0 {
      PercentIsQuotient(part, whole);
    }
  }

  lemma PercentIsRate(rs: seq<Request>)
    ensures IsRate(rs, Percent(Low(Tally(rs).failed), Low(Tally(rs).requests)))
  {
    PercentIs(Low(Tally(rs).failed), Low(Tally(rs).requests));
    if |rs| < WORD {
      ErrorRateBounds(rs);
    }
  }

  /** `p` is the sample of rank `k`, as an unsigned number. */
  ghost predicate OfRank(samples: seq<int>, k: nat, p: nat) {
    exists v :: IsRank(samples, k, v) && p == Low(v)
  }

  lemma SortedOfRank(samples: seq<int>, k: nat)
    requires k < |samples|
    ensures OfRank(samples, k, Low(Sort(samples)[k]))
  {
    SortedRank(samples, k);
  }

  /**
   `p95` and `p99` are the samples of the ranks at 95 and 99 per cent of their number, or of the last rank if that is
   less; both are zero without samples.
   */
  ghost predicate IsTail(samples: seq<int>, p95: nat, p99: nat) {
    var n := |samples|;
    if n == 0 then
      p95 == 0 && p99 == 0
    else
      && OfRank(samples, if n * 95 / 100 < n then n * 95 / 100 else n - 1, p95)
      && OfRank(samples, if n * 99 / 100 < n then n * 99 / 100 else n - 1, p99)
  }

  lemma OfRankOrdered(samples: seq<int>, k: nat, p: nat, l: nat, q: nat)
    requires OfRank(samples, k, p) && OfRank(samples, l, q) && k <= l
    requires forall x :: x in samples ==> 0 <= x < WORD
    ensures p <= q
  {
    var v :| IsRank(samples, k, v) && p == Low(v);
    var w :| IsRank(samples, l, w) && q == Low(w);
    RankMonotone(samples, k, v, l, w);
    RankIsMember(samples, v);
    RankIsMember(samples, w);
  }

  /** Latencies that are not negative give percentiles in order. */
  lemma TailIsOrdered(samples: seq<int>, p95: nat, p99: nat)
    requires IsTail(samples, p95, p99) && forall x :: x in samples ==> 0 <= x < WORD
    ensures p95 <= p99
  {
    var n := |samples|;
    if n > 0 {
      var i := if n * 95 / 100 < n then n * 95 / 100 else n - 1;
      var j := if n * 99 / 100 < n then n * 99 / 100 else n - 1;
      OfRankOrdered(samples, i, p95, j, p99);
    }
  }

  /** The two percentiles of a snapshot. */
  method TailPercentiles(samples: seq<int>) returns (p95: nat, p99: nat)
    ensures IsTail(samples, p95, p99)
  {
    p95, p99 := 0, 0;
    var n := |samples|;
    if n > 0 {
      var sorted := new int[n](i requires 0 <= i < n => samples[i]);
      assert sorted[..] == samples;
      var i95, i99 := n * 95 / 100, n * 99 / 100;
      i95 := if i95 < n then i95 else n - 1;
      i99 := if i99 < n then i99 else n - 1;
      var low, high := Selection.SelectTwo(sorted, i95, i99);
      SortedOfRank(samples, i95);
      SortedOfRank(samples, i99);
      p95, p99 := Low(low), Low(high);
    }
  }

  method SelectOne(samples: seq<int>, i: nat) returns (value: int)
    requires i < |samples|
    ensures value == Sort(samples)[i]
  {
    var n := |samples|;
    var a := new int[n](i requires 0 <= i < n => samples[i]);
    assert a[..] == samples && a[..n] == a[..];
    Selection.NthElement(a, i, n);
    SplitIsSorted(samples, a[..n], i);
    value := a[i];
  }

  /** `value` is the sample of the rank at the share `p` of their number, or of the last rank if that is less. */
  ghost predicate OfShare(samples: seq<int>, p: real, value: nat) {
    exists k: nat :: ShareRank(samples, p, k) && OfRank(samples, if k < |samples| then k else |samples| - 1, value)
  }

  predicate ShareRank(samples: seq<int>, p: real, k: nat) {
    samples != [] && k as real <= |samples| as real * p < (k + 1) as real
  }

  lemma ShareFloor(samples: seq<int>, p: real) returns (k: nat)
    requires samples != [] && p >= 0.0
    ensures k == (|samples| as real * p).Floor && ShareRank(samples, p, k)
  {
    assert |samples| as real * p >= 0.0;
    k := (|samples| as real * p).Floor;
  }

  method ShareOf(samples: seq<int>, p: real) returns (value: nat)
    requires samples != [] && p >= 0.0
    ensures OfShare(samples, p, value)
  {
    ghost var k := ShareFloor(samples, p);
    var i := (|samples| as real * p).Floor;
    i := if i < |samples| then i else |samples| - 1;
    var v := SelectOne(samples, i);
    SortedOfRank(samples, i);
    value := Low(v);
  }

  datatype Metrics = Metrics(
    total: nat, successful: nat, failed: nat, bytesSent: nat, bytesReceived: nat,
    least: int, greatest: int, mean: real, p95: nat, p99: nat)

  // ----- The ring

  /** The first of `n` entries that is still in the ring. */
  function Oldest(n: nat): nat {
    if n <= CAPACITY then 0 else n - CAPACITY
  }

  /** The two ring counters have not parted at a multiple of 2^64. */
  predicate OneEpoch(base: nat, n: nat) {
    Low(base + Oldest(n)) <= Low(base + n)
  }

  /** What a scan of a quiet ring returns: the newest samples, or nothing across a multiple of 2^64. */
  function SamplesOf(base: nat, ls: seq<int>): seq<int> {
    if OneEpoch(base, |ls|) then Newest(ls, MAX_SNAPSHOT) else []
  }

  /** A collector that was reset returns what a new one returns, as long as its tickets stay below 2^64. */
  lemma SamplesAfterReset(base: nat, ls: seq<int>)
    requires base + |ls| < WORD
    ensures SamplesOf(base, ls) == SamplesOf(0, ls) == Newest(ls, MAX_SNAPSHOT)
  {
  }

  /** Entry `j` of `ls` is in its cell, published under ticket `base + j`. */
  ghost predicate InCell(seqs: seq<nat>, vals: seq<int>, base: nat, ls: seq<int>, j: nat)
    requires |seqs| == CAPACITY && |vals| == CAPACITY && j < |ls|
  {
    seqs[Slot(base + j)] == Low(base + j + 1) && vals[Slot(base + j)] == ls[j]
  }

  /** The cells hold the entries of `ls` from `from` on. */
  ghost predicate Window(seqs: seq<nat>, vals: seq<int>, base: nat, ls: seq<int>, from: nat) {
    && |seqs| == CAPACITY && |vals| == CAPACITY
    && forall j :: from <= j < |ls| ==> InCell(seqs, vals, base, ls, j)
  }

  lemma WindowPush(seqs: seq<nat>, vals: seq<int>, base: nat, ls: seq<int>, from: nat, latency: int)
    requires Window(seqs, vals, base, ls, from) && |ls| < from + CAPACITY
    ensures var c := Slot(base + |ls|);
            Window(seqs[c := Low(base + |ls| + 1)], vals[c := latency], base, ls + [latency], from)
  {
    var c := Slot(base + |ls|);
    var seqs', vals', more := seqs[c := Low(base + |ls| + 1)], vals[c := latency], ls + [latency];
    forall j | from <= j < |more|
      ensures InCell(seqs', vals', base, more, j)
    {
      if j < |ls| {
        assert InCell(seqs, vals, base, ls, j);
        if Slot(base + j) == c {
          SlotInjective(base + j, base + |ls|);
        }
      }
    }
  }

  lemma SlotAdd(h: nat, i: nat)
    ensures Slot(Low(h) + i) == Slot(h + i)
  {
    var q := h / WORD;
    assert h + i == q * WORD + (Low(h) + i);
    ShiftSlot(Low(h) + i, q);
  }

  /** The number of live tickets, from the registers. */
  lemma Distance(h: nat, t: nat)
    requires h <= t < h + WORD
    ensures Low(Low(t) - Low(h)) == t - h
    ensures Low(t) > Low(h) ==> Low(t) - Low(h) == t - h
  {
    RegistersSuffice(t, h);
  }

  /** Counting up from a register without passing 2^64. */
  lemma CountUp(h: nat, k: nat)
    requires Low(h) + k < WORD
    ensures Low(h + k) == Low(h) + k && Slot(Low(h) + k) == Slot(h + k)
    ensures Low(Low(h) + k + 1) == Low(h + k + 1)
  {
    var q := h / WORD;
    assert h + k == q * WORD + (Low(h) + k);
    Shift(Low(h) + k, q);
    Shift(Low(h) + k + 1, q);
    ShiftSlot(Low(h) + k, q);
  }

  class MetricsCollector {
    var total: nat
    var successful: nat
    var failed: nat
    var bytesSent: nat
    var bytesReceived: nat
    var cumulative: nat
    var least: int
    var greatest: int

    const seqs: array<nat>
    const vals: array<int>
    var head: nat
    var tail: nat

    ghost var requests: seq<Request>
    ghost var base: nat

    ghost predicate Counts(t: Totals)
      reads this`total, this`successful, this`failed, this`bytesSent, this`bytesReceived, this`cumulative
      reads this`least, this`greatest
    {
      && total == Low(t.requests) && successful == Low(t.succeeded) && failed == Low(t.failed)
      && bytesSent == Low(t.sent) && bytesReceived == Low(t.received) && cumulative == Low(t.latency)
      && least == t.least && greatest == t.greatest
    }

    ghost predicate Buffers(ls: seq<int>)
      reads this`head, this`tail, this`base, seqs, vals
    {
      && head == Low(base + Oldest(|ls|)) && tail == Low(base + |ls|)
      && Window(seqs[..], vals[..], base, ls, Oldest(|ls|))
    }

    ghost predicate Valid()
      reads this, seqs, vals
    {
      Counts(Tally(requests)) && Buffers(Latencies(requests))
    }

    /** What a scan of the quiet ring returns. */
    ghost function Samples(): seq<int>
      reads this
    {
      SamplesOf(base, Latencies(requests))
    }

    /** The ring's live window, read off its registers and cells alone. */
    ghost function Live(): seq<int>
      requires vals.Length == CAPACITY
      reads this, vals
    {
      var h, cells := head, vals[..];
      seq(Low(tail - head), i => cells[Slot(h + i)])
    }

    constructor ()
      ensures Valid() && requests == [] && base == 0 && fresh(seqs) && fresh(vals)
    {
      seqs := new nat[CAPACITY](i => i);
      vals := new int[CAPACITY](_ => 0);
      total, successful, failed, bytesSent, bytesReceived, cumulative := 0, 0, 0, 0, 0, 0;
      least, greatest := INT64_MAX, INT64_MIN;
      head, tail := 0, 0;
      requests, base := [], 0;
    }

    /** However many requests came before, the live window is exactly the newest `CAPACITY` latencies. */
    lemma LiveIsNewest(ls: seq<int>)
      requires Buffers(ls)
      ensures Live() == Newest(ls, CAPACITY)
    {
      var first := Oldest(|ls|);
      Distance(base + first, base + |ls|);
      assert Low(tail - head) == |ls| - first;
      forall i | 0 <= i < |ls| - first
        ensures Live()[i] == ls[first + i]
      {
        SlotAdd(base + first, i);
        assert InCell(seqs[..], vals[..], base, ls, first + i);
      }
    }

    method CountRequest(r: Request, ghost t: Totals)
      requires Counts(t)
      modifies this`total, this`successful, this`failed, this`bytesSent, this`bytesReceived, this`cumulative,
        this`least, this`greatest
      ensures Counts(Count(t, r))
    {
      CountInRegisters(t, r);
      AddUp(r);
      CountOutcome(r.Succeeded());
      Widen(r.latency);
    }

    method AddUp(r: Request)
      modifies this`total, this`bytesSent, this`bytesReceived, this`cumulative
      ensures total == Low(old(total) + 1) && cumulative == Low(old(cumulative) + r.latency)
      ensures bytesSent == Low(old(bytesSent) + r.sent) && bytesReceived == Low(old(bytesReceived) + r.received)
    {
      total := Low(total + 1);
      bytesSent := Low(bytesSent + r.sent);
      bytesReceived := Low(bytesReceived + r.received);
      cumulative := Low(cumulative + r.latency);
    }

    method CountOutcome(succeeded: bool)
      modifies this`successful, this`failed
      ensures successful == if succeeded then Low(old(successful) + 1) else old(successful)
      ensures failed == if succeeded then old(failed) else Low(old(failed) + 1)
    {
      if succeeded {
        successful := Low(successful + 1);
      } else {
        failed := Low(failed + 1);
      }
    }

    method Widen(latency: int)
      modifies this`least, this`greatest
      ensures least <= latency <= greatest && least <= old(least) && old(greatest) <= greatest
      ensures (least == latency || least == old(least)) && (greatest == latency || greatest == old(greatest))
    {
      if latency < least {
        least := latency;
      }
      if latency > greatest {
        greatest := latency;
      }
    }

    /** The push into the ring. With no other thread under way, no compare-and-swap fails. */
    method Push(latency: int, ghost ls: seq<int>)
      requires Buffers(ls)
      modifies this`head, this`tail, seqs, vals
      ensures Buffers(ls + [latency])
    {
      ghost var first := Oldest(|ls|);
      ghost var end := base + |ls|;
      var t: int := tail;
      while true
        invariant t == tail == Low(end) && head == Low(base + first)
        invariant first == Oldest(|ls|) || first == Oldest(|ls| + 1)
        invariant Window(seqs[..], vals[..], base, ls, first)
        decreases |ls| - first
      {
        var h: int := head;
        Distance(base + first, end);
        if Low(t - h) < CAPACITY {
          break;
        }
        RegistersSuffice(base + first, 0);
        assert InCell(seqs[..], vals[..], base, ls, first);
        assert seqs[Slot(h)] == Low(h + 1);
        head := Low(h + 1);
        t := tail;
        first := first + 1;
      }
      RegistersSuffice(end, 0);
      WindowPush(seqs[..], vals[..], base, ls, first, latency);
      tail := Low(t + 1);
      vals[Slot(t)] := latency;
      seqs[Slot(t)] := Low(t + 1);
    }

    method RecordRequest(r: Request)
      requires Valid()
      modifies this, seqs, vals
      ensures Valid() && requests == old(requests) + [r] && base == old(base)
    {
      HistoryAppend(requests, r);
      CountAndPush(r, Tally(requests), Latencies(requests));
      requests := requests + [r];
    }

    method CountAndPush(r: Request, ghost t: Totals, ghost ls: seq<int>)
      requires Counts(t) && Buffers(ls)
      modifies this`total, this`successful, this`failed, this`bytesSent, this`bytesReceived, this`cumulative,
        this`least, this`greatest, this`head, this`tail, seqs, vals
      ensures Counts(Count(t, r)) && Buffers(ls + [r.latency])
    {
      CountRequest(r, t);
      Push(r.latency, ls);
    }

    /** What the scan finds at register `i`, `k` tickets after the head. */
    lemma ScanFinds(ls: seq<int>, k: nat, i: nat)
      requires Buffers(ls) && i == head + k < WORD && Oldest(|ls|) + k < |ls|
      ensures seqs[Slot(i)] == Low(i + 1) && vals[Slot(i)] == ls[Oldest(|ls|) + k]
    {
      CountUp(base + Oldest(|ls|), k);
      assert InCell(seqs[..], vals[..], base, ls, Oldest(|ls|) + k);
    }

    /** The scan over registers `start` to `end`, `skip` tickets after the head. */
    method Scan(start: nat, end: nat, ghost skip: nat, ghost ls: seq<int>) returns (samples: seq<int>)
      requires Buffers(ls) && start == head + skip <= end < WORD && Oldest(|ls|) + skip + (end - start) == |ls|
      ensures samples == ls[Oldest(|ls|) + skip..]
    {
      samples := [];
      ghost var from := Oldest(|ls|) + skip;
      for i := start to end
        invariant samples == ls[from..from + (i - start)]
      {
        ScanFinds(ls, skip + (i - start), i);
        if seqs[Slot(i)] != Low(i + 1) {
          break;
        }
        samples := samples + [vals[Slot(i)]];
      }
    }

    /** The buffered samples, oldest first; the scan covers the newest `MAX_SNAPSHOT` of them. */
    method CollectRingSamples() returns (samples: seq<int>)
      requires Valid()
      ensures samples == Samples()
    {
      samples := CollectFrom(Latencies(requests));
    }

    method CollectFrom(ghost ls: seq<int>) returns (samples: seq<int>)
      requires Buffers(ls)
      ensures samples == SamplesOf(base, ls)
    {
      Distance(base + Oldest(|ls|), base + |ls|);
      samples := [];
      var h, t := head, tail;
      if t > h {
        var start := if t - h > MAX_SNAPSHOT then t - MAX_SNAPSHOT else h;
        samples := Scan(start, t, start - h, ls);
      }
    }

    method Snapshot() returns (m: Metrics)
      requires Valid()
      ensures var t := Tally(requests);
              && m.total == Low(t.requests) && m.successful == Low(t.succeeded) && m.failed == Low(t.failed)
              && m.bytesSent == Low(t.sent) && m.bytesReceived == Low(t.received)
              && m.least == t.least && m.greatest == t.greatest
              && m.mean == Ratio(Low(t.latency), Low(t.requests))
      ensures if m.total == 0 then m.mean == 0.0
              else m.mean * m.total as real == Low(SumOf(Latencies(requests))) as real
      ensures IsTail(Samples(), m.p95, m.p99)
    {
      var mean := Ratio(cumulative, total);
      TallySums(requests);
      if total > 0 {
        RatioIsQuotient(cumulative, total);
      }
      var samples := CollectRingSamples();
      var p95, p99 := TailPercentiles(samples);
      m := Metrics(total, successful, failed, bytesSent, bytesReceived, least, greatest, mean, p95, p99);
    }

    method Percentile(p: real) returns (value: nat)
      requires Valid()
      ensures p < 0.0 || p > 1.0 || Samples() == [] ==> value == 0
      ensures 0.0 <= p <= 1.0 && Samples() != [] ==> OfShare(Samples(), p, value)
    {
      value := 0;
      if 0.0 <= p <= 1.0 {
        var samples := CollectRingSamples();
        if samples != [] {
          value := ShareOf(samples, p);
        }
      }
    }

    /** The share of failed requests, in percent. */
    method ErrorRate() returns (rate: real)
      requires Valid()
      ensures rate == Percent(Low(Tally(requests).failed), Low(Tally(requests).requests))
      ensures IsRate(requests, rate)
    {
      PercentIsRate(requests);
      rate := Percent(failed, total);
    }

    /** Marks the cells of registers `h` to `t` as free for the tickets one capacity later. */
    method ClearCells(h: nat, t: nat)
      requires seqs.Length == CAPACITY && h <= t <= h + CAPACITY
      modifies seqs
      ensures forall i :: h <= i < t ==> seqs[Slot(i)] == Low(i + CAPACITY)
    {
      for i := h to t
        invariant forall k :: h <= k < i ==> seqs[Slot(k)] == Low(k + CAPACITY)
      {
        forall k | h <= k < i
          ensures Slot(k) != Slot(i)
        {
          if Slot(k) == Slot(i) {
            SlotInjective(k, i);
          }
        }
        seqs[Slot(i)] := Low(i + CAPACITY);
      }
    }

    method ClearCounters()
      modifies this`total, this`successful, this`failed, this`bytesSent, this`bytesReceived, this`cumulative,
        this`least, this`greatest
      ensures Counts(NOTHING)
    {
      total, successful, failed, bytesSent, bytesReceived, cumulative := 0, 0, 0, 0, 0, 0;
      least, greatest := INT64_MAX, INT64_MIN;
    }

    /** A reset with no record under way: the collector stands as a new one, at another ticket base. */
    method Reset()
      requires Valid()
      modifies this, seqs
      ensures Valid() && requests == [] && base == old(base) + |old(requests)|
      ensures forall i :: old(head) <= i < old(tail) ==> seqs[Slot(i)] == Low(i + CAPACITY)
    {
      ghost var n := |requests|;
      Distance(base + Oldest(n), base + n);
      ClearCounters();
      if head < tail {
        ClearCells(head, tail);
      }
      head := tail;
      base := base + n;
      requests := [];
    }
  }
}
