# Volley's core, modelled and proved in Dafny

Volley is a load generator: workers, paced by time slots and a shared token bucket, send requests through pooled
keep-alive HTTP/1.1 clients; every response is recorded in a lock-free metrics collector; stages follow one another
until the profile ends, a worker fails or the run is stopped. This project models that core and proves what holds in
every interleaving, over every run or for every input.

`dafny verify dfyconfig.toml` checks everything. The modules:

| file | what it holds |
|---|---|
| `Registers.dfy`, `Options.dfy` | 64-bit registers and ring slots; the optional value |
| `LatencyRing.dfy`, `RingSafety.dfy`, `RingScan.dfy`, `RingProgress.dfy` | the lock-free latency ring as a step machine (one atomic access a step; any number of producers, a concurrent scan, quiescent resets), its inductive invariant, and the theorems about writers, scans, evictions and progress |
| `Ordering.dfy`, `Selection.dfy` | order statistics, a reference sort, in-place partial selection |
| `MetricsCollector.dfy` | the collector object in one thread: counters, ring, snapshot, percentiles, reset |
| `ShardedCollector.dfy`, `ShardRaces.dfy` | the sharded collector, and that it refines the unsharded fold; the compare-and-swap loops of both collectors under races |
| `TokenBucket.dfy` | the bucket as a value with its laws over runs, and the bucket object |
| `PoolLaws.dfy`, `ConnectionPool.dfy`, `Decimals.dfy` | the connection pool: its world, its laws over runs, the pool object; decimal numerals |
| `HttpClient.dfy`, `HttpReplies.dfy`, `Http11Client.dfy` | the HTTP client: a machine over completions with any outcome, its laws over requests and over sequences of them, and the client object |
| `HostUrl.dfy` | printing a Host header and parsing a URL |
| `Pacing.dfy`, `StageLoad.dfy` | periods, phase offsets, the worker's slot loop; the request bound of a whole stage |
| `StageControl.dfy` | the stage loop: deadlines, failed workers, stops |
| `StageWorkers.dfy` | the workers of all stages and the pool they share |
| `SpanLaws.dfy`, `SpanQueue.dfy` | the span queue of the trace exporter |

Objects that the source updates in place are classes whose methods are proved against functions on values; the laws
are proved of those functions. Protocols between threads, and between an object and its completion callbacks, are
step machines. The environment (clock readings, I/O outcomes, which thread moves next) is a parameter everywhere, and
the theorems hold for all its choices.

## Results that go against the source's own comments

* **The ring is not free of waiting.** The comments speak of a lock-free push. From any point of a push, alone, it
  completes within eleven steps exactly when it has its ticket already or it is not the case that the ring is full and
  its oldest ticket unpublished; otherwise it retries for ever (`RingProgress.ProgressTheorem`). A schedule leads there
  (`RingProgress.BlockedRecordHappens`).
* **A ring that is not full can evict.** It does exactly for a producer whose tail value is older than the head, as the
  subtraction wraps (`RingProgress.EvictsEarlyExactly`); a schedule leads there
  (`RingProgress.EarlyEvictionHappens`). Safety is not affected.
* **`try_consume_for` can miss its own token.** The wait is cut to whole nanoseconds: a waiter woken exactly on time
  is granted a token exactly when nothing was cut (`TokenBuckets.WokenOnTime`, `TokenBuckets.WokenTooEarly`).
* **The acquire retry can trip.** ADR 005 and the comment in the engine say that the pool, sized to the peak stage,
  never runs out. A client dropped in flight is never subtracted from the pool's count, so a later stage can starve
  (`StageWorkers.DropStarvesLaterStage`); it cannot exactly while users plus dropped clients fit the limit
  (`StageWorkers.FirstTryTheorem`).
* **An exception returns a busy client.** The guard drops a client with an unanswered request only on the ordinary
  way out (`StageWorkers.ThrowTaints`). Exactly such an exception, while a request is under way, puts an unanswered
  client into the pool (`StageWorkers.ReturnTheorem`).
* **A failed worker does not always end the run.** It does exactly when every stage but the last has a deadline
  (`StageControl.AbortTheorem`); ADR 005 says that it always does.
* **A stop can be taken back.** The exact moments are in `StageControl.StopTheorem`; every run of two stages or more
  has one (`StageControl.UnseenHappens`).
* **The horizon clamp comes too late.** The sum that it should protect has wrapped by then: the longest duration that
  the YAML parser produces is over before it starts (`StageControl.LongestDurationIsOver`).
* **A phase offset can overflow** with 100000 users at one request a second (`Pacing.OffsetOverflows`).
* The retry rule that a comment attributes to section 6.3.2 of RFC 7230 is that of section 6.3.1.

## Model

| member | source | states |
|---|---|---|
| RingSafety.ProducerStepInv | core/metrics/collector.cpp:62-90 | every atomic step of every producer, with stale tail and head values and modular subtraction, keeps the ring invariant: bounded window, evicted tickets published, one writer a cell, unpublished tickets owned |
| RingSafety.CheckSeqStep | core/metrics/collector.cpp:65-72 | the sequence check keeps the invariant: it lets a producer on to evict only where the oldest ticket is published |
| RingSafety.CasHeadStep | core/metrics/collector.cpp:73-81 | the compare-and-swap of the head, failing or not, keeps the invariant: what falls below the head is published |
| RingSafety.ClaimStep | core/metrics/collector.cpp:83-85 | a claim with however old local counters keeps the invariant: never more than one capacity ahead of the head, never a cell with another writer |
| RingSafety.WriteValueStep | core/metrics/collector.cpp:86 | writing the latency keeps the invariant: no published live ticket loses its value |
| RingSafety.PublishStep | core/metrics/collector.cpp:87-88 | storing the sequence number keeps the invariant: exactly the published tickets match their cells |
| RingSafety.ResetInv | core/metrics/collector.cpp:205-211 | a reset with no record under way keeps the invariant, so that later tickets can use the ring as if it were new |
| RingScan.SafetyTheorem | core/metrics/collector.cpp:62-90 | in every schedule of any number of producers, scans and quiescent resets: head <= tail <= head + capacity, every ticket below the head is published, two writers never share a cell |
| RingScan.ScanTheorem | core/metrics/collector.cpp:137-162 | a scan racing with producers returns only recorded latencies; unless the tail passes start + capacity, it returns the values of consecutive published tickets from start, in order, untorn |
| RingScan.MatchMeansPublished | core/metrics/collector.cpp:156-158 | a sequence number that matches a ticket proves that it has been published |
| RingScan.MismatchMeansBeingWritten | core/metrics/collector.cpp:156-157 | within one capacity and since the last reset, a mismatch means that the ticket is still being written by the producer that owns it |
| RingScan.ResetEndsScan | core/metrics/collector.cpp:208-210 | a scan that stands at a live ticket when the ring is reset ends there |
| RingScan.QuietScanTheorem | core/metrics/collector.cpp:137-162 | with no ticket being written, a whole scan returns every live latency, or the newest 100000 |
| RingProgress.SoloRecordTheorem | core/metrics/collector.cpp:62-90 | an undisturbed record completes, appends one published ticket, and evicts one exactly when the ring is full |
| RingProgress.ProgressTheorem | core/metrics/collector.cpp:62-90 | from every point of a record, alone: it completes within eleven steps, its latency published under its ticket, exactly when it has its ticket or the ring is not full with its oldest ticket unpublished; else no number of steps changes counters or cells |
| RingProgress.LooksFullExactly | core/metrics/collector.cpp:64-65 | the fullness test succeeds exactly for a full ring and for a tail value older than the head |
| RingProgress.OldestMatchesExactly | core/metrics/collector.cpp:66-67 | the sequence check succeeds exactly when the oldest ticket is live and published |
| RingProgress.EvictsEarlyExactly | core/metrics/collector.cpp:64-79 | a record evicts from a ring that is not full exactly when its tail value is older than the head and the oldest ticket is published |
| RingProgress.EarlyEvictionHappens | core/metrics/collector.cpp:62-82 | a schedule from the initial state that ends in such an eviction |
| RingProgress.BlockedRecordHappens | core/metrics/collector.cpp:62-90 | a schedule from the initial state after which a record never ends |
| RingScan.ShortRunsAreFresh | core/metrics/collector.cpp:62-90 | runs of fewer than 2^64 - 2^21 tickets meet the freshness condition of the two theorems |
| Registers.RegistersSuffice | include/cppload/metrics/collector.hpp:77-78 | masking, subtraction and increment on 64-bit registers agree with those on ticket numbers |
| Selection.NthElement | core/metrics/collector.cpp:123-125 | the in-place selection leaves a permutation, split at its position |
| Selection.TwoPassesAreSorted | core/metrics/collector.cpp:115-127 | selecting p99, then p95 inside the part before it, gives the elements of the fully sorted samples |
| Selection.SelectTwo | core/metrics/collector.cpp:118-131 | the two selected values are those of the sorted samples, with equal indices too |
| Ordering.RankUnique | core/metrics/collector.cpp:181-190 | an order statistic is determined by the multiset of samples |
| Ordering.SplitIsSorted | core/metrics/collector.cpp:188-189 | the element at the split of any partial selection is that of the sorted sequence |
| MetricsCollectors.TallyCounts | core/metrics/collector.cpp:33-43 | requests = successes + failures, and the successes are the requests with a status from 200 to 399 |
| MetricsCollectors.TallyBounds | core/metrics/collector.cpp:45-54 | minimum and maximum bound every latency and are attained |
| MetricsCollectors.TallySums | core/metrics/collector.cpp:34-37 | bytes sent, bytes received and latencies are the sums over all requests |
| MetricsCollectors.MetricsCollector.constructor | core/metrics/collector.cpp:17-25 | a new collector has recorded nothing, at ticket base zero |
| MetricsCollectors.MetricsCollector.CountRequest | core/metrics/collector.cpp:33-54 | the counters stay the 64-bit registers of the exact totals |
| MetricsCollectors.MetricsCollector.Push | core/metrics/collector.cpp:62-90 | the push, alone, makes the ring hold the history extended by one, evicting only beyond capacity |
| MetricsCollectors.MetricsCollector.RecordRequest | core/metrics/collector.cpp:29-91 | recording extends the history that counters and ring represent by exactly this request |
| MetricsCollectors.MetricsCollector.LiveIsNewest | core/metrics/collector.cpp:62-90 | after n records the live window, read off registers and cells, is the last min(n, capacity) latencies in order |
| MetricsCollectors.MetricsCollector.CollectRingSamples | core/metrics/collector.cpp:137-162 | the samples are the newest latencies up to 100000, oldest first |
| MetricsCollectors.MetricsCollector.Snapshot | core/metrics/collector.cpp:93-135 | counts, bytes and extremes of the whole history; mean times number is the sum of the latencies; p95 and p99 are the newest samples of the ranks at 95 and 99 per cent |
| MetricsCollectors.MetricsCollector.Percentile | core/metrics/collector.cpp:181-190 | zero outside 0..1 or without samples, else the sample of the rank at that share of their number, capped at the last |
| MetricsCollectors.MetricsCollector.ErrorRate | core/metrics/collector.cpp:175-179 | rate times total is a hundred times the failed requests; zero without requests, and between 0 and 100 below 2^64 requests |
| MetricsCollectors.MetricsCollector.Reset | core/metrics/collector.cpp:192-212 | a quiescent reset leaves an empty history at a moved ticket base, with the old cells marked free |
| MetricsCollectors.SamplesAfterReset | core/metrics/collector.cpp:205-211 | despite the moved base, later samples are those of a new collector |
| MetricsCollectors.TailPercentiles | core/metrics/collector.cpp:113-132 | the two-pass selection yields the samples of the ranks at 95 and 99 per cent of their number |
| MetricsCollectors.TailIsOrdered | core/metrics/collector.cpp:118-131 | p95 <= p99 for latencies that are not negative |
| ShardedCollectors.ShardedRefinesSimple | core/metrics/sharded_collector.cpp:33-109 | for every request sequence and every assignment to shards, the merged totals are those of one unsharded fold |
| ShardedCollectors.MergeCounts | core/metrics/sharded_collector.cpp:96-109 | a request recorded in any one shard is one request more in the merge |
| ShardedCollectors.RecordHolds | core/metrics/sharded_collector.cpp:37-76 | a shard's registers keep representing its exact totals, with clamped latencies and a saturating sum |
| ShardedCollectors.LatencySumExact | core/metrics/sharded_collector.cpp:47-56 | the merged latency sum is exact exactly when the true sum is below 2^64 |
| ShardedCollectors.MeanIsExact | core/metrics/sharded_collector.cpp:111-113 | the mean over the merged sum is the true mean exactly when the true latency sum is below 2^64, for every history and number of shards |
| ShardedCollectors.RingIsNewest | core/metrics/sharded_collector.cpp:122-132 | however often it wrapped, the sample ring reads out as the last min(n, 8192) latencies in order |
| ShardedCollectors.RingPush | core/metrics/sharded_collector.cpp:80-82 | a push keeps the newest samples at their indices modulo 8192 |
| ShardedCollectors.NearestRankIsPercentile | core/metrics/sharded_collector.cpp:134-141 | the index formula picks the least value that the given percentage of samples does not exceed |
| ShardedCollectors.ShardedCollector.constructor | core/metrics/sharded_collector.cpp:15-22 | a new collector has an empty history over its shards |
| ShardedCollectors.ShardedCollector.RecordRequest | core/metrics/sharded_collector.cpp:33-86 | recording extends the history that shards and sample ring represent by exactly this request |
| ShardedCollectors.ShardedCollector.MergeShards | core/metrics/sharded_collector.cpp:96-109 | the merge loop yields the registers of the unsharded totals |
| ShardedCollectors.ShardedCollector.TailPercentiles | core/metrics/sharded_collector.cpp:117-143 | p95 and p99 are nearest-rank percentiles of the newest samples |
| ShardedCollectors.ShardedCollector.GetSnapshot | core/metrics/sharded_collector.cpp:88-146 | the snapshot shows the unsharded totals, zero extremes without requests, true percentiles, and the true mean exactly when the latency sum is below 2^64 |
| ShardedCollectors.ShardedCollector.ErrorRate | core/metrics/sharded_collector.cpp:167-177 | the error rate is that of the unsharded totals, between 0 and 100 below 2^64 requests |
| ShardedCollectors.ShardedCollector.Reset | core/metrics/sharded_collector.cpp:179-195 | a quiescent reset leaves the state of an empty history |
| ShardRaces.RaceTheorem | core/metrics/sharded_collector.cpp:47-76 | in every interleaving of any number of threads, once quiescent: least and greatest latency are those of the sequential fold, and the shard's sum is the true sum saturated at 2^64 - 1 |
| ShardRaces.RecordFinishes | core/metrics/sharded_collector.cpp:37-76 | an undisturbed record ends within five steps and is counted |
| ShardRaces.StepInv | core/metrics/collector.cpp:45-54 | every load, store and compare-and-swap of the loops keeps the invariant: no lower or higher latency is lost, none is invented, the saturating store never loses a sum |
| TokenBuckets.Conservation | core/token_bucket.cpp:19-61 | over every run of polls and of rate and burst changes: tokens + granted + spilled = initial + integral of the rate in force, spill >= 0, 0 <= tokens <= burst |
| TokenBuckets.WindowBound | core/token_bucket.cpp:53-79 | grants in a window of constant rate and burst are at most burst + rate * time |
| TokenBuckets.RefillPathIndependent | core/token_bucket.cpp:71-79 | refilling at one time and then at a later one equals refilling at the later one |
| TokenBuckets.FailedPollsDoNotMatter | core/token_bucket.cpp:53-61 | removing every failed poll from a run changes no later grant and not the bucket |
| TokenBuckets.GrantedAfterWait | core/token_bucket.cpp:40-49 | a bucket short of a token grants one exactly when its burst holds one and the computed wait has passed |
| TokenBuckets.WokenOnTime | include/cppload/core/token_bucket.hpp:31-45 | a waiter woken after its truncated wait is granted a token exactly when the wait was a whole number of nanoseconds |
| TokenBuckets.WokenTooEarly | include/cppload/core/token_bucket.hpp:35-45 | three tokens a second: the waiter is woken one fraction too early and fails |
| TokenBuckets.NoGrantBelowOne | core/token_bucket.cpp:39-50 | with a burst below one no run of polls is ever granted a token |
| TokenBuckets.DeficitShrinks | core/token_bucket.cpp:39-49 | each turn of the wait loop that advances the clock lowers the remaining deficit in whole nanoseconds |
| TokenBuckets.Create | core/token_bucket.cpp:8-15 | construction fails exactly for a rate that is not positive; the bucket starts full, with the rate as default burst |
| TokenBuckets.TokenBucket.constructor | core/token_bucket.cpp:8-13 | the new bucket is valid and full |
| TokenBuckets.TokenBucket.Refill | core/token_bucket.cpp:71-79 | the refill in place is the law's refill; a clock reading that is not later changes nothing |
| TokenBuckets.TokenBucket.SetRate | core/token_bucket.cpp:19-25 | refused unless positive; else refills at the old rate first |
| TokenBuckets.TokenBucket.SetBurst | core/token_bucket.cpp:27-34 | refused unless positive; else refills, then cuts the tokens to the new burst |
| TokenBuckets.TokenBucket.TryConsume | core/token_bucket.cpp:53-61 | one poll: granted exactly when a token is there, and then one is taken |
| TokenBuckets.TokenBucket.TryConsumeFor | include/cppload/core/token_bucket.hpp:23-46 | granted at once if a token is there; false after one poll if the wait exceeds the timeout; else decided by a poll at the later reading, whatever other threads do to the bucket in between: a run of the law |
| TokenBuckets.TokenBucket.TokensAvailable | core/token_bucket.cpp:63-69 | what a refill now would leave, without touching the bucket |
| TokenBuckets.TokenBucket.Consume | core/token_bucket.cpp:36-51 | whatever other threads do during its waits, the call returns at its first poll that is granted, and what happened is a run of the law; it is still waiting exactly if none was |
| TokenBuckets.ConsumeEnds | core/token_bucket.cpp:36-51 | left alone with a burst of at least one, the call ends, at the latest after as many advancing rounds as the missing fraction takes nanoseconds |
| TokenBuckets.ServedAtFirst | core/token_bucket.cpp:36-51 | left alone, it is served at the first reading at which a single poll of the untouched bucket would be granted |
| PoolLaws.PoolTheorem | core/net/connection_pool.cpp:20-85 | after every run of acquires, releases, in-flight drops and cleanups: created = idle + borrowed + dropped <= max, no client in two places, queues ordered, the over-full release unreachable |
| PoolLaws.KeyInjective | core/net/connection_pool.cpp:24 | different endpoints have different keys |
| PoolLaws.HomeTheorem | core/net/connection_pool.cpp:20-60 | after every run, a client handed out for a host and port is new or was last released for that host and port |
| PoolLaws.AcquireInv | core/net/connection_pool.cpp:20-40 | acquire keeps the accounts, hands out a client nobody has, and fails exactly with an empty queue at the limit |
| PoolLaws.AcquireOldest | core/net/connection_pool.cpp:27-31 | an idle client is reused before one is created, and the one idle longest |
| PoolLaws.ReleaseHasRoom | core/net/connection_pool.cpp:50-53 | whenever a borrowed client is released its queue is below the limit |
| PoolLaws.ReleaseInv | core/net/connection_pool.cpp:42-60 | release keeps the accounts and the order of the queues |
| PoolLaws.DropInv | core/scenario/engine.cpp:311-319 | a client destroyed by its borrower stays in the count |
| PoolLaws.YoungIsSuffix | core/net/connection_pool.cpp:68-78 | in an ordered queue the entries at or over the timeout are a prefix, so stopping at the first young one misses none |
| PoolLaws.SurvivesExactly | core/net/connection_pool.cpp:70-72 | the whole seconds of idleness reach the timeout exactly when the idle time itself does |
| PoolLaws.CleanupInv | core/net/connection_pool.cpp:62-85 | cleanup keeps the accounts: the counter falls by exactly the number of clients removed, no decrement is skipped |
| PoolLaws.CleanupTheorem | core/net/connection_pool.cpp:62-85 | after a cleanup every queue is exactly its entries idle for less than the timeout, in order; a key without any is gone; a client is idle exactly if it was and is below the timeout; the counter falls by those removed; nothing else changes |
| PoolLaws.ComesBack | core/net/connection_pool.cpp:27-37 | a released client is the one handed out next for its endpoint |
| ConnectionPools.ConnectionPool.constructor | core/net/connection_pool.cpp:16-18 | a new pool is empty |
| ConnectionPools.ConnectionPool.Acquire | core/net/connection_pool.cpp:20-40 | does to queues and counter in place what the law's acquire says, and returns its client |
| ConnectionPools.ConnectionPool.Release | core/net/connection_pool.cpp:42-60 | appends the client to the back of its queue, with the counter unchanged |
| ConnectionPools.ConnectionPool.CleanQueue | core/net/connection_pool.cpp:68-78 | the inner loop pops exactly the old prefix and lowers the counter once for each |
| ConnectionPools.ConnectionPool.CleanAll | core/net/connection_pool.cpp:66-84 | the outer loop leaves in every queue exactly its young entries, and no empty queue, with the counter lowered by the clients removed |
| ConnectionPools.ConnectionPool.Cleanup | core/net/connection_pool.cpp:62-85 | the nested loops in place, in whatever order the queues come, leave exactly the entries below the timeout, no empty queue, and a counter lowered by the clients removed |
| ConnectionPools.ConnectionPool.GetStats | core/net/connection_pool.cpp:87-99 | idle is the number of idle clients, active the number borrowed or dropped |
| HttpClients.RequestTheorem | core/net/http_client.cpp:74-100 | for every sequence of I/O outcomes: the handler fires once when all operations are complete and not before, seven completions suffice; at most two streams are written, one if not idempotent; no retry of a retry |
| HttpClients.CompleteUnderway | core/net/http_client.cpp:160-197 | every completion keeps the request's counts and brings it nearer to its end |
| HttpReplies.ReplyTheorem | core/net/http_client.cpp:482-524 | for every request and outcomes that answer it: the reply names a missing TLS context or unknown method exactly then; else the outcome that answered it and the operation that had it bear the error out, with the status; after a set-up error a request that is not idempotent was not sent at all, after any other it may have been |
| HttpReplies.RetryTheorem | core/net/http_client.cpp:286-325 | a request written to a reused connection is sent again exactly when it is idempotent and the connection is stale: the write failed, or the read ended without timeout and without status |
| HttpReplies.ReusedExactly | core/net/http_client.cpp:88-99 | over a whole request, it is written to the cached connection exactly when keep-alive is on, that connection is alive and of the same host, port and scheme, and the request can be sent |
| HttpReplies.CachedExactly | core/net/http_client.cpp:556-564 | a request that ends by a read without failure under keep-alive leaves the stream it was last written to in the cache, for its endpoint; any other end leaves no stream of the request there |
| HttpReplies.TwoRequestsOneStream | core/net/http_client.cpp:88-99 | two such requests in a row to one endpoint, the second finding the stream alive, open one stream, which stays cached |
| HttpReplies.DeadIsDropped | core/net/http_client.cpp:255-259 | a cached connection found dead is neither written to nor cached again |
| HttpClients.ReuseTheorem | core/net/http_client.cpp:88-99 | over every sequence of requests, completions and keep-alive changes: a request is written only to a stream connected for its own host, port and scheme, with a completed handshake exactly for TLS, that is new or whose last exchange ended well with keep-alive on; an idle client keeps only such a connection |
| HttpClients.RequestInRun | core/net/http_client.cpp:74-100 | in such a sequence, a request and its outcomes are what the laws of single requests speak of |
| HttpClients.IdempotentMethods | core/net/http_client.cpp:45-48 | the idempotent methods are the safe ones, PUT and DELETE, and not POST, PATCH or CONNECT |
| HttpClients.BrokenSettled | core/net/http_client.cpp:608-628 | a connection that failed is out of the cache, and what is left there is clean and not in use |
| HttpClients.ReadSound | core/net/http_client.cpp:556-564 | a read with any outcome keeps the client sound: what is cached after it serves its endpoint and ended well under keep-alive |
| Http11Clients.Http11Client.AsyncRequest | core/net/http_client.cpp:74-100 | keeps the client sound and the request in its bounds: one reply exactly if nothing is pending, at most seven completions to come |
| Http11Clients.Http11Client.OnCompletion | core/net/http_client.cpp:286-325 | every callback keeps the client sound, brings the request strictly nearer to its one reply, and is the step of the machine that the laws of requests and of the cache are about |
| Http11Clients.Http11Client.Serve | core/scenario/engine.cpp:453-470 | a request driven by completions of any outcome ends within seven with one reply; at most two streams are written, one if not idempotent, each of its endpoint and new or clean; its stream is cached exactly if it ended by a read without failure under keep-alive |
| Http11Clients.Http11Client.SwitchKeepAlive | core/net/http_client.cpp:106-109 | sets the flag; turning it off drops the cached connection, turning it on leaves it |
| HostUrls.RoundTrip | core/net/http_client.cpp:52-63 | for every scheme, host, port and path, empty or not: printing and parsing give the same parts back exactly for the hosts that survive |
| HostUrls.OrdinaryHostsSurvive | include/cppload/core/url_parse.hpp:33-58 | every host without slash and brackets survives, IPv6 literals included, with any port |
| HostUrls.BracketedAuthority | include/cppload/core/url_parse.hpp:33-48 | an IPv6 literal comes back exactly when it holds no closing bracket |
| HostUrls.PlainAuthority | include/cppload/core/url_parse.hpp:49-58 | another host comes back unless it starts with a bracket, with one harmless case |
| HostUrls.UrlSplit | include/cppload/core/url_parse.hpp:15-31 | every URL with a scheme is cut at the right places; an empty path is the root; only https and wss are secure |
| HostUrls.PlainSplit | include/cppload/core/url_parse.hpp:17-31 | a URL without a scheme is not secure and is cut at its first slash |
| HostUrls.DefaultPorts | include/cppload/core/url_parse.hpp:25 | the port filled in and left out is 443 under TLS and 80 otherwise |
| Decimals.ValueOfDecimal | core/net/http_client.cpp:58-61 | the printed port is the numeral of its value |
| Pacing.Work | core/scenario/engine.cpp:397-428 | whatever clock and stop flag show: attempt k is never before base + k * period unless stopped, with no drift; all are before the stage's end, at most one after a stop; and none is left out: unless a stop or the end of the stage is seen, the next attempt follows within six sights of its slot, and at the first look if the worker is late |
| Pacing.AttemptsPaced | core/scenario/engine.cpp:402-428 | the same of the attempts still to come from any turn of the loop on, however late the earlier ones were |
| Pacing.AttemptsPersist | core/scenario/engine.cpp:402-428 | the loop ends only for a reason: each attempt shows what was seen at its sight, and is followed by the next as long as no stop, no end of the stage and enough is seen; a late worker does not wait |
| Pacing.AwaitedOnTime | core/scenario/engine.cpp:412-420 | the sleep and the spin end only with the time reached or a stop, and at the first look that shows it |
| Pacing.Await | core/scenario/engine.cpp:412-420 | the wait loops end at that look |
| Pacing.Turn | core/scenario/engine.cpp:402-428 | a turn comes to its poll, or to the exit, at the sight that the specification names |
| Pacing.FirstAttemptIsImmediate | core/scenario/engine.cpp:406-428 | the first attempt does not wait for its slot |
| Pacing.WorkerBound | core/scenario/engine.cpp:402-428 | a worker makes at most 1 + T / period attempts in a stage of length T, and one more after a stop |
| StageLoad.StageTheorem | core/scenario/engine.cpp:391-428 | for what every worker of a stage of length T sees, and every interleaving of their polls at the bucket: the requests are at most C * (1 + T / period), with one more for each worker that a stop caught, and at most burst + rate * time to the end of the stage, with one more for each worker whose last poll came late |
| StageLoad.OneLatePoll | core/scenario/engine.cpp:402-428 | of a worker's polls only the last can come after the end of the stage |
| StageLoad.GrantsUpTo | core/token_bucket.cpp:53-79 | the grants of a run are at most burst + rate * time up to any moment, and the polls after it |
| Pacing.PeriodMeetsRate | core/scenario/engine.cpp:391-396 | the period is the workers' share of the rate to the nanosecond, and at least one |
| Pacing.OffsetExact | core/scenario/engine.cpp:397-399 | the phase offset is the intended share, inside the period, exactly when the product fits a signed 64-bit number |
| Pacing.OffsetOverflows | core/scenario/engine.cpp:397-399 | 100000 users at one request a second: the last offset is negative |
| Pacing.SetTargetRps | core/scenario/engine.cpp:124-133 | rate 100 where none is given; burst the larger of 100 and the rate |
| StageControl.AbortTheorem | core/scenario/engine.cpp:260-516 | in every interleaving no stage starts after a worker failed, exactly when every stage but the last has a deadline |
| StageControl.StopTheorem | core/scenario/engine.cpp:260-516 | after a stop at any moment no later stage starts, whatever follows, exactly when a read of the flag is still to come in the stage or a stop or failure is known already |
| StageControl.StartsAfterFailure | core/scenario/engine.cpp:490-515 | all workers of a stage without deadline fail, and the next stage starts |
| StageControl.Unseen | core/scenario/engine.cpp:490-515 | a stop that none of the reads sees is taken back |
| StageControl.UnseenHappens | core/scenario/engine.cpp:490-491 | every run of two stages or more reaches a moment at which a stop is lost |
| StageControl.WaitEnds | core/scenario/engine.cpp:490-500 | a failed worker or a stop ends the wait within five steps of the main thread, without the clock |
| StageControl.StageLasts | core/scenario/engine.cpp:491-495 | without deadline, stop or failure a stage goes on: its workers are not told to stop and no other stage starts |
| StageControl.PassedTheorem | core/scenario/engine.cpp:263-268 | once the global end has passed, no stage starts but one being started already |
| StageControl.StaffTheorem | core/scenario/engine.cpp:295-305 | in every run stages start in order, none left out, each with the workers it asks for, and the run goes on only when all have exited |
| StageControl.StageEndCapped | core/scenario/engine.cpp:278-293 | the deadline is the smaller of the stage's own and the global end; a stage has none exactly without a duration and a cap |
| StageControl.StageEndExact | core/scenario/engine.cpp:282-290 | the deadline is the one meant, or the horizon, exactly when the sum fits 64 bits or wraps round beyond the horizon |
| StageControl.LongestDurationIsOver | core/scenario/yaml_parser.cpp:26-31 | the longest duration of a configuration ends a millisecond before it starts |
| StageWorkers.FirstTryTheorem | core/scenario/engine.cpp:328-351 | at the start of any stage of any run: every worker gets a client at its first try in every interleaving, exactly when users plus clients dropped so far are within the pool's limit |
| StageWorkers.DeadlineTheorem | core/scenario/engine.cpp:473-477 | after a deadline that finds every worker at work or gone, a next stage is served at first try in every interleaving exactly when its workers, the clients dropped before and those caught with a request under way are within the limit |
| StageWorkers.EngineRefusesNobody | core/scenario/engine.cpp:240-249 | with the limit that the engine chooses, a run of its stages that drops no client refuses none |
| StageWorkers.ReturnTheorem | core/scenario/engine.cpp:299-320 | over every run: at no moment does the pool hold a client with an unanswered request, exactly when no worker fails with an exception while its request is under way |
| StageWorkers.LeavingOk | core/scenario/engine.cpp:473-477 | the ordinary exit puts a client into the pool exactly if no request is under way and drops it otherwise, and keeps the accounts |
| StageWorkers.LeaveTheorem | core/scenario/engine.cpp:453-477 | after every run, told from sends and answers alone: the client of a worker that leaves enters the pool exactly if every request it sent was answered |
| StageWorkers.AnsweredInTime | core/scenario/engine.cpp:473-477 | a run of the engine's stages in which every request is answered before its worker leaves drops no client and refuses none |
| StageWorkers.FailuresCounted | core/scenario/engine.cpp:322-326 | over every run each failure of a worker, by exception or at its two hundredth refusal, is counted once |
| StageWorkers.WorkersOfStage | core/scenario/engine.cpp:226-231 | a stage gets the users it asks for, else those of the first stage, else ten; at most 100000 |
| StageWorkers.ThrowingOk | core/scenario/engine.cpp:478-482 | the exit by an exception puts the client into the pool in any case, and keeps the accounts |
| StageWorkers.AcquireEffect | core/net/connection_pool.cpp:20-40 | with one endpoint an acquire fails exactly when all clients that may exist are borrowed or dropped |
| StageWorkers.Starves | core/scenario/engine.cpp:339-351 | a worker before an exhausted pool fails at the two hundredth refusal, not earlier |
| StageWorkers.PoolLimit | core/scenario/engine.cpp:226-249 | the limit is what the largest stage asks for; no stage has more workers |
| StageWorkers.DropStarvesLaterStage | core/scenario/engine.cpp:311-319 | one client dropped in flight leaves a later stage of the same size without |
| StageWorkers.ThrowTaints | core/scenario/engine.cpp:478-482 | a request under way, an exception: the client is in the pool and unanswered |
| SpanLaws.QueueTheorem | core/otel/otlp_exporter.cpp:256-296 | in every interleaving: the buffer is the newest part of all enqueued spans, at most 4096; enqueued = evicted + taken + buffered; what was taken left in order, at most 64 a batch |
| SpanLaws.EvictsOnlyWhenFull | core/otel/otlp_exporter.cpp:260-268 | only a full buffer evicts, and only its oldest span |
| SpanLaws.TakeInv | core/otel/otlp_exporter.cpp:290-295 | taking a batch keeps order and accounts |
| SpanLaws.DrainTheorem | core/otel/otlp_exporter.cpp:276-318 | once stopped, a turn for each 64 spans empties the buffer, every span taken once and in order, whatever the endpoint answers |
| SpanLaws.BackoffTheorem | core/otel/otlp_exporter.cpp:304-309 | after every interleaving of producers and exporter, the wait is 200 milliseconds doubled for each failed export since the last success, up to 5000 |
| SpanQueues.SpanQueue.constructor | core/otel/otlp_exporter.cpp:276-278 | a new queue is empty, with the least backoff |
| SpanQueues.SpanQueue.Enqueue | core/otel/otlp_exporter.cpp:256-274 | appends, dropping the oldest span of 4096, and wakes the exporter exactly from 64 on |
| SpanQueues.SpanQueue.RequestStop | core/otel/otlp_exporter.cpp:141-146 | the stop flag alone changes |
| SpanQueues.SpanQueue.ExportTurn | core/otel/otlp_exporter.cpp:280-310 | ends exactly when stopped and empty; else takes the oldest 64 spans, or all if fewer, as one batch |
| SpanQueues.SpanQueue.Flush | core/otel/otlp_exporter.cpp:369-376 | takes the whole buffer, in order |
| SpanQueues.SpanQueue.DrainAndFlush | core/otel/otlp_exporter.cpp:276-318 | terminates after a stop and leaves nothing behind, order and contents kept |

## Left out

- C++ memory orders: interleavings of atomic accesses are sequentially consistent. A torn sample is excluded because no
  cell has two writers and a scan reads a cell only after its sequence number.
- Floating point: tokens, rates, waits and means are exact reals; percentile indices are integer floors.
- A reset that races with records: only a reset with no record under way is modelled, as others are not safe.
- The collector objects are single-threaded. What threads do at once is modelled on values and not in place: the ring,
  and the compare-and-swap loops for the extremes and the saturating sum. The counters that `fetch_add` updates are not
  in a machine of their own.
- `std::nth_element` and `std::sort`: replaced by a selection and an insertion sort with the same contract.
- MetricsCollectors.MetricsCollector.CollectRingSamples: across a multiple of 2^64 tickets the code returns nothing, and
  so does the model; the full statement needs the two counters in one epoch.
- ConnectionPools.ConnectionPool.Release: the branch for an over-full queue is left out of the method body, as
  `ReleaseHasRoom` proves it unreachable; it is in the law that the method is proved against.
- HttpClients.RequestTheorem: a client has one request at a time, as the engine uses it; the shared response object is
  its status and error only, and its body, headers and size cap are not modelled.
- HttpReplies.RetryTheorem: a timeout is the failure code that the source compares with; which code the I/O library
  reports for an expired stream is not part of this model.
- Pacing.Work: the condition variable, sleep lengths and the wait for a response are only time that passes between two
  sights; `next_slot` itself is not wrapped at 64 bits.
- StageLoad.StageTheorem: no phase offset of the stage overflows (`OffsetExact` says when one does), and rate and burst
  do not change during the stage.
- RingProgress.ProgressTheorem: the steps of the record itself include no spurious failure of a weak compare-and-swap.
- StageControl.StageEndExact: signed overflow is undefined in C++; it is modelled as two's complement.
- StageWorkers.FirstTryTheorem: the pool's own idle cleanup is not among the actions, since the engine never calls it.
- The engine's `run` is split into three machines (pacing, stage control, workers with their pool) that are not composed
  into one; each leaves what the others do to its environment.
- Shard assignment by thread: a parameter, so that the theorem covers every assignment.
- `requests_per_second` of both collectors: a division by the elapsed time.
- Sockets, DNS, TLS, WebSocket and raw TCP clients: library I/O, of which only the outcomes appear.
- Request building, URL encoding, `sanitize_path`, assertions, weighted scenario choice, authentication headers.
- YAML and CLI parsing, the exporters' JSON and HTTP, the REST and gRPC services, Vault and OAuth2, the Python SDK.
- The in-memory repository and the policy evaluator: mostly single-branch map operations.
