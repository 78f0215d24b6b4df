/**
 The sharded collector: every thread counts into its own shard, and a snapshot merges the shards. The merged metrics
 are those of one collector that saw all requests, however the requests were spread over the shards.
 */
module ShardedCollectors {
  import opened Registers
  import opened Ordering
  import opened MetricsCollectors

  const MAX_SAMPLES: int := 8192

  /** A negative latency counts as zero. */
  function Clamp(r: Request): (c: Request)
    ensures c.latency >= 0 && (r.latency >= 0 ==> c == r) && (r.latency < 0 ==> c == r.(latency := 0))
  {
    if r.latency < 0 then r.(latency := 0) else r
  }

  function Min(x: int, y: int): int {
    if x < y then x else y
  }

  function Max(x: int, y: int): int {
    if x > y then x else y
  }

  // ----- Exact totals, spread over shards

  /** A request and the shard of the thread that made it. */
  datatype Entry = Entry(shard: nat, request: Request)

  ghost predicate InShards(history: seq<Entry>, n: nat) {
    forall i :: 0 <= i < |history| ==> history[i].shard < n
  }

  function Requests(history: seq<Entry>): (rs: seq<Request>)
    ensures |rs| == |history|
  {
    seq(|history|, i requires 0 <= i < |history| => Clamp(history[i].request))
  }

  function Blank(n: nat): (totals: seq<Totals>)
    ensures |totals| == n
  {
    if n == 0 then [] else Blank(n - 1) + [NOTHING]
  }

  /** The exact totals of each of `n` shards. */
  ghost function Distribute(history: seq<Entry>, n: nat): (totals: seq<Totals>)
    requires InShards(history, n)
    ensures |totals| == n
  {
    if history == [] then
      Blank(n)
    else
      var last := history[|history| - 1];
      var before := Distribute(history[..|history| - 1], n);
      before[last.shard := Count(before[last.shard], Clamp(last.request))]
  }

  function Merge(a: Totals, b: Totals): Totals {
    Totals(
      a.requests + b.requests, a.succeeded + b.succeeded, a.failed + b.failed, a.sent + b.sent,
      a.received + b.received, a.latency + b.latency, Min(a.least, b.least), Max(a.greatest, b.greatest))
  }

  function MergeAll(totals: seq<Totals>): Totals {
    if totals == [] then NOTHING else Merge(MergeAll(totals[..|totals| - 1]), totals[|totals| - 1])
  }

  lemma MergeAppend(totals: seq<Totals>, t: Totals)
    ensures MergeAll(totals + [t]) == Merge(MergeAll(totals), t)
  {
    assert (totals + [t])[..|totals|] == totals;
  }

  /** One more request in any one shard is one more request in the merge. */
  lemma {:induction false} MergeCounts(totals: seq<Totals>, i: nat, r: Request)
    requires i < |totals|
    ensures MergeAll(totals[i := Count(totals[i], r)]) == Count(MergeAll(totals), r)
    decreases |totals|
  {
    var n := |totals| - 1;
    var updated := totals[i := Count(totals[i], r)];
    if i == n {
      assert updated[..n] == totals[..n];
    } else {
      assert updated[..n] == totals[..n][i := Count(totals[i], r)];
      MergeCounts(totals[..n], i, r);
    }
  }

  lemma {:induction false} MergeNothing(n: nat)
    ensures MergeAll(Blank(n)) == NOTHING
    decreases n
  {
    if n > 0 {
      var fewer := Blank(n - 1);
      assert MergeAll(fewer) == NOTHING by {
        MergeNothing(n - 1);
      }
      assert Blank(n) == fewer + [NOTHING];
      MergeAppend(fewer, NOTHING);
    }
  }

  /** For every request sequence and every assignment to shards, merging the shards gives the unsharded totals. */
  lemma {:induction false} ShardedRefinesSimple(history: seq<Entry>, n: nat)
    requires InShards(history, n)
    ensures MergeAll(Distribute(history, n)) == Tally(Requests(history))
    decreases |history|
  {
    if history == [] {
      MergeNothing(n);
    } else {
      var k := |history| - 1;
      var before, last := history[..k], history[k];
      ShardedRefinesSimple(before, n);
      MergeCounts(Distribute(before, n), last.shard, Clamp(last.request));
      assert Requests(history) == Requests(before) + [Clamp(last.request)];
      TallyAppend(Requests(before), Clamp(last.request));
    }
  }

  // ----- What the shards hold

  /** The registers of a shard. The latency sum saturates; everything else wraps around. */
  datatype Shard = Shard(
    requests: nat, successful: nat, failed: nat, sent: nat, received: nat, latency: nat, least: int, greatest: int)

  function Saturated(x: nat): nat {
    if x < WORD then x else WORD - 1
  }

  ghost predicate Holds(s: Shard, t: Totals) {
    && s.requests == Low(t.requests) && s.successful == Low(t.succeeded) && s.failed == Low(t.failed)
    && s.sent == Low(t.sent) && s.received == Low(t.received)
    && t.latency >= 0 && s.latency == Saturated(t.latency)
    && s.least == t.least && s.greatest == t.greatest
  }

  /** What `record_request` does to its shard. */
  function RecordIn(s: Shard, r: Request): Shard {
    var lat := Max(r.latency, 0);
    Shard(
      Low(s.requests + 1),
      if r.Succeeded() then Low(s.successful + 1) else s.successful,
      if r.Succeeded() then s.failed else Low(s.failed + 1),
      Low(s.sent + r.sent),
      Low(s.received + r.received),
      if r.latency <= 0 then s.latency
      else if s.latency > WORD - 1 - r.latency then WORD - 1
      else s.latency + r.latency,
      Min(lat, s.least),
      Max(lat, s.greatest))
  }

  lemma RecordHolds(s: Shard, t: Totals, r: Request)
    requires Holds(s, t)
    ensures Holds(RecordIn(s, r), Count(t, Clamp(r)))
  {
    LowAdd(t.requests, 1);
    LowAdd(t.succeeded, 1);
    LowAdd(t.failed, 1);
    LowAdd(t.sent, r.sent);
    LowAdd(t.received, r.received);
  }

  // ----- Merging the registers

  function SaturatedSum(totals: seq<Totals>): nat
    requires forall i :: 0 <= i < |totals| ==> totals[i].latency >= 0
  {
    if totals == [] then 0
    else SaturatedSum(totals[..|totals| - 1]) + Saturated(totals[|totals| - 1].latency)
  }

  lemma {:induction false} SaturatedSumBounds(totals: seq<Totals>)
    requires forall i :: 0 <= i < |totals| ==> totals[i].latency >= 0
    ensures 0 <= SaturatedSum(totals) <= MergeAll(totals).latency
    ensures MergeAll(totals).latency < WORD ==> SaturatedSum(totals) == MergeAll(totals).latency
    decreases |totals|
  {
    if totals != [] {
      SaturatedSumBounds(totals[..|totals| - 1]);
    }
  }

  /** The merged latency sum, and with it the mean, is exact exactly when the true sum fits in 64 bits. */
  lemma LatencySumExact(totals: seq<Totals>)
    requires forall i :: 0 <= i < |totals| ==> totals[i].latency >= 0
    ensures Low(SaturatedSum(totals)) == MergeAll(totals).latency <==> MergeAll(totals).latency < WORD
  {
    SaturatedSumBounds(totals);
  }

  // ----- Percentiles

  /** The index of the nearest rank, rounding up. */
  function NearestIndex(n: nat, percent: nat): (i: int)
    requires 0 < n && 0 < percent <= 100
    ensures 0 <= i < n && i * 100 < n * percent <= (i + 1) * 100
  {
    (n * percent + 99) / 100 - 1
  }

  /** `v` is the least value that at least `percent` per cent of the samples do not exceed. */
  ghost predicate IsPercentile(samples: seq<int>, percent: nat, v: int) {
    Below(samples, v) * 100 < |samples| * percent <= Below(samples, v + 1) * 100
  }

  lemma NearestRankIsPercentile(samples: seq<int>, percent: nat)
    requires samples != [] && 0 < percent <= 100
    ensures IsPercentile(samples, percent, Sort(samples)[NearestIndex(|samples|, percent)])
  {
    SortedRank(samples, NearestIndex(|samples|, percent));
  }

  // ----- The sample ring

  /** The ring after `ls`: the newest samples, each at its index modulo the ring's size. */
  ghost predicate RingHolds(ring: seq<int>, ls: seq<int>, head: nat, count: nat) {
    && |ring| == MAX_SAMPLES
    && head == |ls| % MAX_SAMPLES && count == (if |ls| < MAX_SAMPLES then |ls| else MAX_SAMPLES)
    && forall j :: |ls| - count <= j < |ls| ==> ring[j % MAX_SAMPLES] == ls[j]
  }

  lemma RingPush(ring: seq<int>, ls: seq<int>, head: nat, count: nat, x: int)
    requires RingHolds(ring, ls, head, count)
    ensures RingHolds(ring[head := x], ls + [x], (head + 1) % MAX_SAMPLES,
                      if count < MAX_SAMPLES then count + 1 else count)
  {
    var more, ring' := ls + [x], ring[head := x];
    var count' := if count < MAX_SAMPLES then count + 1 else count;
    forall j | |more| - count' <= j < |more|
      ensures ring'[j % MAX_SAMPLES] == more[j]
    {
      if j < |ls| {
        assert ring[j % MAX_SAMPLES] == ls[j];
        assert j % MAX_SAMPLES != head;
      }
    }
  }

  /** The ring read out, oldest first. */
  function ReadOut(ring: seq<int>, head: nat, count: nat): seq<int>
    requires |ring| == MAX_SAMPLES && head < MAX_SAMPLES && count <= MAX_SAMPLES
  {
    if count == MAX_SAMPLES then ring[head..] + ring[..head] else ring[..count]
  }

  /** Where the i-th oldest of the newest 8192 samples of `n` lies. */
  lemma WrapIndex(n: nat, i: nat)
    requires n >= MAX_SAMPLES && i < MAX_SAMPLES
    ensures var head := n % MAX_SAMPLES;
            (n - MAX_SAMPLES + i) % MAX_SAMPLES == if head + i < MAX_SAMPLES then head + i else head + i - MAX_SAMPLES
  {
  }

  /** However often it wrapped around, the ring holds exactly the newest 8192 samples in order. */
  lemma RingIsNewest(ring: seq<int>, ls: seq<int>, head: nat, count: nat)
    requires RingHolds(ring, ls, head, count)
    ensures ReadOut(ring, head, count) == Newest(ls, MAX_SAMPLES)
  {
    if count == MAX_SAMPLES {
      forall i | 0 <= i < MAX_SAMPLES
        ensures (ring[head..] + ring[..head])[i] == Newest(ls, MAX_SAMPLES)[i]
      {
        WrapIndex(|ls|, i);
        var j := |ls| - MAX_SAMPLES + i;
        assert ring[j % MAX_SAMPLES] == ls[j];
      }
    } else {
      forall i | 0 <= i < count
        ensures ring[i] == ls[i]
      {
        assert ring[i % MAX_SAMPLES] == ls[i];
      }
      assert ring[..count] == ls;
    }
  }

  // ----- The collector

  datatype Merged = Merged(
    total: nat, successful: nat, failed: nat, sent: nat, received: nat, latency: nat, least: int, greatest: int)

  /** The registers of a merge of exact totals. */
  ghost predicate MergedAs(m: Merged, t: Totals, latency: nat) {
    && m.total == Low(t.requests) && m.successful == Low(t.succeeded) && m.failed == Low(t.failed)
    && m.sent == Low(t.sent) && m.received == Low(t.received) && m.latency == Low(latency)
    && m.least == t.least && m.greatest == t.greatest
  }

  function AddShard(m: Merged, s: Shard): Merged {
    Merged(
      Low(m.total + s.requests), Low(m.successful + s.successful), Low(m.failed + s.failed),
      Low(m.sent + s.sent), Low(m.received + s.received), Low(m.latency + s.latency),
      Min(s.least, m.least), Max(s.greatest, m.greatest))
  }

  lemma LowAddLow(x: int, y: int)
    ensures Low(Low(x) + Low(y)) == Low(x + y)
  {
    LowAdd(x, Low(y));
    LowAdd(y, x);
  }

  lemma AddShardMerges(m: Merged, t: Totals, latency: nat, s: Shard, u: Totals)
    requires MergedAs(m, t, latency) && Holds(s, u)
    ensures MergedAs(AddShard(m, s), Merge(t, u), latency + Saturated(u.latency))
  {
    LowAddLow(t.requests, u.requests);
    LowAddLow(t.succeeded, u.succeeded);
    LowAddLow(t.failed, u.failed);
    LowAddLow(t.sent, u.sent);
    LowAddLow(t.received, u.received);
    LowAdd(latency, Saturated(u.latency));
  }

  /** One turn of the merge loop. */
  lemma MergeNext(m: Merged, totals: seq<Totals>, i: nat, s: Shard)
    requires i < |totals| && forall k :: 0 <= k < |totals| ==> totals[k].latency >= 0
    requires MergedAs(m, MergeAll(totals[..i]), SaturatedSum(totals[..i])) && Holds(s, totals[i])
    ensures MergedAs(AddShard(m, s), MergeAll(totals[..i + 1]), SaturatedSum(totals[..i + 1]))
  {
    AddShardMerges(m, MergeAll(totals[..i]), SaturatedSum(totals[..i]), s, totals[i]);
    assert totals[..i + 1][..i] == totals[..i];
  }

  datatype Snapshot = Snapshot(
    total: nat, successful: nat, failed: nat, sent: nat, received: nat, mean: real,
    least: int, greatest: int, p95: int, p99: int)

  class ShardedCollector {
    const shards: array<Shard>
    const samples: array<int>
    var head: nat
    var count: nat

    ghost var history: seq<Entry>

    ghost predicate ShardsOk()
      reads this, shards
    {
      && InShards(history, shards.Length)
      && forall i :: 0 <= i < shards.Length ==> Holds(shards[i], Distribute(history, shards.Length)[i])
    }

    ghost predicate SamplesOk()
      reads this, samples
    {
      RingHolds(samples[..], Latencies(Requests(history)), head, count)
    }

    ghost predicate Valid()
      reads this, shards, samples
    {
      shards.Length > 0 && ShardsOk() && SamplesOk()
    }

    constructor (n: nat)
      requires n > 0
      ensures Valid() && shards.Length == n && history == [] && fresh(shards) && fresh(samples)
    {
      shards := new Shard[n](_ => Shard(0, 0, 0, 0, 0, 0, INT64_MAX, INT64_MIN));
      samples := new int[MAX_SAMPLES](_ => 0);
      head, count, history := 0, 0, [];
      new;
      BlankIsNothing(n);
    }

    /** The calling thread's shard and the sample ring take the request in. */
    method RecordRequest(shard: nat, r: Request)
      requires Valid() && shard < shards.Length
      modifies this, shards, samples
      ensures Valid() && history == old(history) + [Entry(shard, r)]
    {
      ghost var more := history + [Entry(shard, r)];
      ghost var n := shards.Length;
      assert more[..|history|] == history;
      RecordHolds(shards[shard], Distribute(history, n)[shard], r);
      shards[shard] := RecordIn(shards[shard], r);

      var lat := Max(r.latency, 0);
      RingPush(samples[..], Latencies(Requests(history)), head, count, lat);
      assert Latencies(Requests(more)) == Latencies(Requests(history)) + [lat];
      samples[head] := lat;
      head := (head + 1) % MAX_SAMPLES;
      if count < MAX_SAMPLES {
        count := count + 1;
      }
      history := more;
    }

    /** The merge of all shards: registers of the exact totals of all requests. */
    method MergeShards() returns (m: Merged)
      requires ShardsOk()
      ensures MergedAs(m, Tally(Requests(history)), SaturatedSum(Distribute(history, shards.Length)))
    {
      ghost var totals := Distribute(history, shards.Length);
      DistributedLatency(history, shards.Length);
      m := Merged(0, 0, 0, 0, 0, 0, INT64_MAX, INT64_MIN);
      for i := 0 to shards.Length
        invariant MergedAs(m, MergeAll(totals[..i]), SaturatedSum(totals[..i]))
      {
        assert Holds(shards[i], totals[i]);
        MergeNext(m, totals, i, shards[i]);
        m := AddShard(m, shards[i]);
      }
      assert totals[..shards.Length] == totals;
      ShardedRefinesSimple(history, shards.Length);
    }

    /** The newest samples, as a snapshot reads them. */
    ghost function Recent(): seq<int>
      reads this
    {
      Newest(Latencies(Requests(history)), MAX_SAMPLES)
    }

    /** True nearest-rank percentiles of the newest samples. */
    method TailPercentiles() returns (p95: int, p99: int)
      requires SamplesOk()
      ensures history == [] ==> p95 == 0 && p99 == 0
      ensures history != [] ==> IsPercentile(Recent(), 95, p95) && IsPercentile(Recent(), 99, p99)
    {
      p95, p99 := 0, 0;
      RingIsNewest(samples[..], Latencies(Requests(history)), head, count);
      var collected := ReadOut(samples[..], head, count);
      var sorted := Sort(collected);
      var n := |sorted|;
      if n > 0 {
        p95 := sorted[NearestIndex(n, 95)];
        p99 := sorted[NearestIndex(n, 99)];
        NearestRankIsPercentile(collected, 95);
        NearestRankIsPercentile(collected, 99);
      }
    }

    method GetSnapshot() returns (s: Snapshot)
      requires Valid()
      ensures var t := Tally(Requests(history));
              && s.total == Low(t.requests) && s.successful == Low(t.succeeded) && s.failed == Low(t.failed)
              && s.sent == Low(t.sent) && s.received == Low(t.received)
              && t.latency >= 0
              && (s.total > 0 ==> (s.mean == Ratio(t.latency, s.total) <==> t.latency < WORD))
              && s.least == (if t.least == INT64_MAX then 0 else t.least)
              && s.greatest == (if t.greatest == INT64_MIN then 0 else t.greatest)
      ensures s.total > 0 ==> IsPercentile(Recent(), 95, s.p95) && IsPercentile(Recent(), 99, s.p99)
      ensures s.total == 0 ==> s.p95 == 0 && s.p99 == 0 && s.mean == 0.0
    {
      var m := MergeShards();
      TallyCounts(Requests(history));
      MeanIsExact(history, shards.Length, if m.total > 0 then m.total else 1);
      var p95, p99 := 0, 0;
      if m.total > 0 {
        p95, p99 := TailPercentiles();
      }
      s := Snapshot(
        m.total, m.successful, m.failed, m.sent, m.received, Ratio(m.latency, m.total),
        if m.least == INT64_MAX then 0 else m.least, if m.greatest == INT64_MIN then 0 else m.greatest, p95, p99);
    }

    method ErrorRate() returns (rate: real)
      requires Valid()
      ensures var t := Tally(Requests(history)); rate == Percent(Low(t.failed), Low(t.requests))
      ensures IsRate(Requests(history), rate)
    {
      PercentIsRate(Requests(history));
      var m := MergeShards();
      rate := Percent(m.failed, m.total);
    }

    /** With no record under way, the collector is as new. */
    method Reset()
      requires Valid()
      modifies this, shards
      ensures Valid() && history == []
    {
      for i := 0 to shards.Length
        modifies shards
        invariant forall k :: 0 <= k < i ==> Holds(shards[k], NOTHING)
      {
        shards[i] := Shard(0, 0, 0, 0, 0, 0, INT64_MAX, INT64_MIN);
      }
      head, count, history := 0, 0, [];
      BlankIsNothing(shards.Length);
    }
  }

  lemma {:induction false} DistributedLatency(history: seq<Entry>, n: nat)
    requires InShards(history, n)
    ensures forall i :: 0 <= i < n ==> Distribute(history, n)[i].latency >= 0
    decreases |history|
  {
    if history == [] {
      BlankIsNothing(n);
    } else {
      DistributedLatency(history[..|history| - 1], n);
    }
  }

  lemma SameRatio(a: nat, b: nat, n: nat)
    requires n > 0
    ensures Ratio(a, n) == Ratio(b, n) <==> a == b
  {
    if Ratio(a, n) == Ratio(b, n) {
      assert Ratio(a, n) * n as real == a as real && Ratio(b, n) * n as real == b as real;
    }
  }

  /** The mean over the merged sum is the true mean exactly when the true latency sum is below 2^64. */
  lemma MeanIsExact(history: seq<Entry>, n: nat, total: nat)
    requires InShards(history, n) && total > 0
    ensures forall i :: 0 <= i < n ==> Distribute(history, n)[i].latency >= 0
    ensures Tally(Requests(history)).latency >= 0
    ensures Ratio(Low(SaturatedSum(Distribute(history, n))), total) == Ratio(Tally(Requests(history)).latency, total)
            <==> Tally(Requests(history)).latency < WORD
  {
    var totals := Distribute(history, n);
    DistributedLatency(history, n);
    ShardedRefinesSimple(history, n);
    SaturatedSumBounds(totals);
    LatencySumExact(totals);
    SameRatio(Low(SaturatedSum(totals)), MergeAll(totals).latency, total);
  }

  lemma {:induction false} BlankIsNothing(n: nat)
    ensures forall i :: 0 <= i < n ==> Blank(n)[i] == NOTHING
    decreases n
  {
    if n > 0 {
      BlankIsNothing(n - 1);
    }
  }
}
