/**
 The connection pool: idle clients queue up under "host:port", a counter bounds how many clients exist, and idle
 clients time out.

 A client is known by a number, handed out in creation order. `World` is the pool together with what its callers did
 with the clients it handed out: some are borrowed, and some were destroyed by their borrower.
 */
module PoolLaws {
  import opened Decimals
  import opened Options

  type Client = nat

  datatype Entry = Entry(client: Client, idleSince: int)

  type Queues = map<string, seq<Entry>>

  /** `clock` is the latest reading of the steady clock, in nanoseconds; `next` numbers the next client. */
  datatype World = World(
    max: nat,
    timeout: int,
    created: nat,
    queues: Queues,
    next: Client,
    borrowed: set<Client>,
    dropped: set<Client>,
    clock: int)

  function Key(host: string, port: nat): string {
    host + ":" + Decimal(port)
  }

  /** Different endpoints have different keys. */
  lemma KeyInjective(host: string, port: nat, host': string, port': nat)
    requires Key(host, port) == Key(host', port')
    ensures host == host' && port == port'
  {
    var k, d, d' := Key(host, port), Decimal(port), Decimal(port');
    assert k[|k| - |d|..] == d && k[|k| - |d'|..] == d';
    assert k[|host|] == ':' && k[|host'|] == ':';
    assert host == k[..|host|] && host' == k[..|host'|];
    ValueOfDecimal(port);
    ValueOfDecimal(port');
  }

  function QueueOf(queues: Queues, key: string): seq<Entry> {
    if key in queues then queues[key] else []
  }

  function Clients(q: seq<Entry>): set<Client> {
    set i | 0 <= i < |q| :: q[i].client
  }

  function IdleClients(queues: Queues): set<Client> {
    set k, i | k in queues && 0 <= i < |queues[k]| :: queues[k][i].client
  }

  /** Whole seconds that a client has been idle. */
  function Age(e: Entry, now: int): int {
    (now - e.idleSince) / 1_000_000_000
  }

  /** The entries of a queue that have not reached the idle timeout, in order. */
  function Young(q: seq<Entry>, now: int, timeout: int): seq<Entry> {
    if q == [] then
      []
    else
      (if Age(q[0], now) >= timeout then [] else [q[0]]) + Young(q[1..], now, timeout)
  }

  // ----- The operations

  function Acquire(w: World, key: string): (World, Option<Client>) {
    var q := QueueOf(w.queues, key);
    if q != [] then
      (w.(queues := w.queues[key := q[1..]], borrowed := w.borrowed + {q[0].client}), Some(q[0].client))
    else if w.created < w.max then
      (w.(queues := w.queues[key := q], created := w.created + 1, next := w.next + 1,
          borrowed := w.borrowed + {w.next}), Some(w.next))
    else
      (w.(queues := w.queues[key := q]), None)
  }

  function Release(w: World, client: Client, key: string, now: int): World {
    var q := QueueOf(w.queues, key);
    if |q| >= w.max then
      w.(queues := w.queues[key := q], created := if w.created > 0 then w.created - 1 else 0,
         borrowed := w.borrowed - {client})
    else
      w.(queues := w.queues[key := q + [Entry(client, now)]], borrowed := w.borrowed - {client}, clock := now)
  }

  /** A borrower destroys its client; the pool is not told. */
  function Drop(w: World, client: Client): World {
    w.(borrowed := w.borrowed - {client}, dropped := w.dropped + {client})
  }

  function CleanQueues(queues: Queues, now: int, timeout: int): Queues {
    map k | k in queues && Young(queues[k], now, timeout) != [] :: Young(queues[k], now, timeout)
  }

  /** Every entry at or over the timeout goes, with its queue if that becomes empty, and is no longer counted. */
  function Cleanup(w: World, now: int): World {
    var queues := CleanQueues(w.queues, now, w.timeout);
    var gone := |IdleClients(w.queues)| - |IdleClients(queues)|;
    w.(queues := queues, created := if w.created >= gone >= 0 then w.created - gone else 0, clock := now)
  }

  // ----- Invariant

  ghost predicate DistinctQueue(q: seq<Entry>) {
    forall i, j :: 0 <= i < j < |q| ==> q[i].client != q[j].client
  }

  ghost predicate Ordered(q: seq<Entry>, clock: int) {
    && (forall i :: 0 <= i < |q| ==> q[i].idleSince <= clock)
    && (forall i, j :: 0 <= i < j < |q| ==> q[i].idleSince <= q[j].idleSince)
  }

  ghost predicate QueuesOk(queues: Queues, clock: int) {
    && (forall k :: k in queues ==> DistinctQueue(queues[k]) && Ordered(queues[k], clock))
    && (forall k, k' :: k in queues && k' in queues && k != k' ==> Clients(queues[k]) !! Clients(queues[k']))
  }

  /** Every client is idle, borrowed or dropped, and the counter counts them all. */
  ghost predicate Accounts(idle: set<Client>, borrowed: set<Client>, dropped: set<Client>, next: Client, created: nat) {
    && (forall c :: c in idle ==> c < next)
    && (forall c :: c in borrowed ==> c < next)
    && (forall c :: c in dropped ==> c < next)
    && idle !! borrowed && idle !! dropped && borrowed !! dropped
    && created == |idle| + |borrowed| + |dropped|
  }

  ghost predicate Inv(w: World) {
    && QueuesOk(w.queues, w.clock)
    && Accounts(IdleClients(w.queues), w.borrowed, w.dropped, w.next, w.created)
    && w.created <= w.max
  }

  lemma LendIdle(idle: set<Client>, borrowed: set<Client>, dropped: set<Client>, next: Client, created: nat, c: Client)
    requires Accounts(idle, borrowed, dropped, next, created) && c in idle
    ensures Accounts(idle - {c}, borrowed + {c}, dropped, next, created)
  {
  }

  lemma LendNew(idle: set<Client>, borrowed: set<Client>, dropped: set<Client>, next: Client, created: nat)
    requires Accounts(idle, borrowed, dropped, next, created)
    ensures next !in borrowed && Accounts(idle, borrowed + {next}, dropped, next + 1, created + 1)
  {
  }

  lemma ReturnClient(
    idle: set<Client>, borrowed: set<Client>, dropped: set<Client>, next: Client, created: nat, c: Client)
    requires Accounts(idle, borrowed, dropped, next, created) && c in borrowed
    ensures Accounts(idle + {c}, borrowed - {c}, dropped, next, created)
    ensures Accounts(idle, borrowed - {c}, dropped + {c}, next, created)
  {
    assert |borrowed - {c}| == |borrowed| - 1;
  }

  // ----- Sets of clients

  lemma ClientsAreIdle(queues: Queues, key: string)
    requires key in queues
    ensures Clients(queues[key]) <= IdleClients(queues)
  {
  }

  lemma {:induction false} ClientsCount(q: seq<Entry>)
    requires DistinctQueue(q)
    ensures |Clients(q)| == |q|
    decreases |q|
  {
    if q != [] {
      var n := |q| - 1;
      ClientsCount(q[..n]);
      assert Clients(q) == Clients(q[..n]) + {q[n].client};
    }
  }

  /** Replacing one queue replaces exactly its clients. */
  lemma ReplaceQueue(queues: Queues, clock: int, key: string, q: seq<Entry>)
    requires QueuesOk(queues, clock)
    ensures IdleClients(queues[key := q]) == IdleClients(queues) - Clients(QueueOf(queues, key)) + Clients(q)
  {
    var now, was := queues[key := q], QueueOf(queues, key);
    forall c
      ensures c in IdleClients(now) <==> c in IdleClients(queues) - Clients(was) + Clients(q)
    {
      if c in IdleClients(now) {
        var k, i :| k in now && 0 <= i < |now[k]| && now[k][i].client == c;
        if k != key {
          assert c in Clients(queues[k]);
        } else {
          assert q[i].client == c;
        }
      }
      if c in IdleClients(queues) && c !in Clients(was) {
        var k, i :| k in queues && 0 <= i < |queues[k]| && queues[k][i].client == c;
        assert k != key;
        assert now[k][i].client == c;
      }
      if c in Clients(q) {
        var i :| 0 <= i < |q| && q[i].client == c;
        assert now[key][i].client == c;
      }
    }
  }

  lemma AddQueue(queues: Queues, key: string, q: seq<Entry>)
    requires key !in queues
    ensures IdleClients(queues[key := q]) == IdleClients(queues) + Clients(q)
  {
    var now := queues[key := q];
    forall c | c in IdleClients(now)
      ensures c in IdleClients(queues) + Clients(q)
    {
      var k, i :| k in now && 0 <= i < |now[k]| && now[k][i].client == c;
      assert k != key ==> queues[k][i].client == c;
    }
    forall c | c in IdleClients(queues)
      ensures c in IdleClients(now)
    {
      var k, i :| k in queues && 0 <= i < |queues[k]| && queues[k][i].client == c;
      assert now[k][i].client == c;
    }
    forall c | c in Clients(q)
      ensures c in IdleClients(now)
    {
      var i :| 0 <= i < |q| && q[i].client == c;
      assert now[key][i].client == c;
    }
  }

  lemma QueueReplacedOk(queues: Queues, clock: int, later: int, key: string, q: seq<Entry>)
    requires QueuesOk(queues, clock) && clock <= later && DistinctQueue(q) && Ordered(q, later)
    requires Clients(q) !! IdleClients(queues) - Clients(QueueOf(queues, key))
    ensures QueuesOk(queues[key := q], later)
  {
    var now := queues[key := q];
    forall k | k in now && k != key
      ensures Clients(now[k]) !! Clients(q)
    {
      ClientsAreIdle(queues, k);
      if key in queues {
        assert Clients(queues[k]) !! Clients(queues[key]);
      }
    }
  }

  lemma Suffix(q: seq<Entry>, n: nat, clock: int)
    requires n <= |q| && DistinctQueue(q) && Ordered(q, clock)
    ensures DistinctQueue(q[n..]) && Ordered(q[n..], clock) && |Clients(q[..n])| == n
    ensures Clients(q[n..]) == Clients(q) - Clients(q[..n]) && Clients(q[..n]) <= Clients(q)
  {
    ClientsCount(q[..n]);
    forall c | c in Clients(q[n..])
      ensures c in Clients(q) && c !in Clients(q[..n])
    {
      var i :| 0 <= i < |q[n..]| && q[n..][i].client == c;
      assert q[n + i].client == c;
    }
    assert forall i :: 0 <= i < n ==> q[i] == q[..n][i] && q[i].client in Clients(q[..n]);
    forall c | c in Clients(q) && c !in Clients(q[..n])
      ensures c in Clients(q[n..])
    {
      var i :| 0 <= i < |q| && q[i].client == c;
      assert q[n..][i - n].client == c;
    }
  }

  lemma Trim(idle: set<Client>, all: set<Client>, gone: set<Client>, left: set<Client>)
    requires gone <= all <= idle && left == all - gone
    ensures idle - all + left == idle - gone && |idle - gone| == |idle| - |gone|
  {
    assert idle == (idle - gone) + gone;
  }

  /** A queue that loses its first `n` entries. */
  lemma QueueTrimmed(queues: Queues, clock: int, key: string, n: nat)
    requires QueuesOk(queues, clock) && key in queues && n <= |queues[key]|
    ensures var q := queues[key];
            && QueuesOk(queues[key := q[n..]], clock)
            && IdleClients(queues[key := q[n..]]) == IdleClients(queues) - Clients(q[..n])
            && |IdleClients(queues[key := q[n..]])| == |IdleClients(queues)| - n
  {
    var q := queues[key];
    var gone := Clients(q[..n]);
    ClientsAreIdle(queues, key);
    Suffix(q, n, clock);
    QueueReplacedOk(queues, clock, clock, key, q[n..]);
    ReplaceQueue(queues, clock, key, q[n..]);
    Trim(IdleClients(queues), Clients(q), gone, Clients(q[n..]));
  }

  lemma QueuePopped(queues: Queues, clock: int, key: string)
    requires QueuesOk(queues, clock) && QueueOf(queues, key) != []
    ensures var q := queues[key];
            && QueuesOk(queues[key := q[1..]], clock)
            && q[0].client in IdleClients(queues)
            && IdleClients(queues[key := q[1..]]) == IdleClients(queues) - {q[0].client}
  {
    var q := queues[key];
    QueueTrimmed(queues, clock, key, 1);
    assert Clients(q[..1]) == {q[0].client} by {
      assert q[..1] == [q[0]];
      assert q[..1][0].client == q[0].client;
    }
  }

  lemma QueueTouched(queues: Queues, clock: int, key: string)
    requires QueuesOk(queues, clock) && QueueOf(queues, key) == []
    ensures QueuesOk(queues[key := []], clock) && IdleClients(queues[key := []]) == IdleClients(queues)
  {
    QueueReplacedOk(queues, clock, clock, key, []);
    ReplaceQueue(queues, clock, key, []);
  }

  lemma QueueAppended(q: seq<Entry>, e: Entry, clock: int)
    requires DistinctQueue(q) && Ordered(q, clock) && e.client !in Clients(q) && clock <= e.idleSince
    ensures DistinctQueue(q + [e]) && Ordered(q + [e], e.idleSince)
    ensures Clients(q + [e]) == Clients(q) + {e.client}
  {
    var q' := q + [e];
    assert forall i :: 0 <= i < |q| ==> q'[i] == q[i] && q[i].client in Clients(q);
    assert q'[|q|] == e;
    forall c | c in Clients(q')
      ensures c in Clients(q) + {e.client}
    {
      var i :| 0 <= i < |q'| && q'[i].client == c;
    }
    forall c | c in Clients(q)
      ensures c in Clients(q')
    {
      var i :| 0 <= i < |q| && q[i].client == c;
      assert q'[i].client == c;
    }
  }

  lemma QueuePushed(queues: Queues, clock: int, key: string, e: Entry)
    requires QueuesOk(queues, clock) && e.client !in IdleClients(queues) && clock <= e.idleSince
    ensures var q := QueueOf(queues, key) + [e];
            && QueuesOk(queues[key := q], e.idleSince)
            && IdleClients(queues[key := q]) == IdleClients(queues) + {e.client}
  {
    var q := QueueOf(queues, key);
    if key in queues {
      ClientsAreIdle(queues, key);
    }
    QueueAppended(q, e, clock);
    QueueReplacedOk(queues, clock, e.idleSince, key, q + [e]);
    ReplaceQueue(queues, clock, key, q + [e]);
  }

  // ----- Every operation keeps the invariant

  /** A client that is handed out was idle under that key, or is new. */
  lemma AcquireInv(w: World, key: string)
    requires Inv(w)
    ensures Inv(Acquire(w, key).0)
    ensures Acquire(w, key).1.Some? ==> Acquire(w, key).1.value !in w.borrowed + w.dropped
    ensures Acquire(w, key).1.None? <==> QueueOf(w.queues, key) == [] && w.created == w.max
  {
    var q := QueueOf(w.queues, key);
    var idle := IdleClients(w.queues);
    if q != [] {
      QueuePopped(w.queues, w.clock, key);
      LendIdle(idle, w.borrowed, w.dropped, w.next, w.created, q[0].client);
    } else {
      QueueTouched(w.queues, w.clock, key);
      LendNew(idle, w.borrowed, w.dropped, w.next, w.created);
    }
  }

  /** An idle client is preferred to a new one, and among those under the key the one that has been idle longest. */
  lemma AcquireOldest(w: World, key: string)
    requires Inv(w) && QueueOf(w.queues, key) != []
    ensures var q := QueueOf(w.queues, key);
            exists i :: 0 <= i < |q| && Acquire(w, key).1 == Some(q[i].client) &&
                        forall j :: 0 <= j < |q| ==> q[i].idleSince <= q[j].idleSince
    ensures Acquire(w, key).0.created == w.created
  {
    var q := QueueOf(w.queues, key);
    assert Acquire(w, key).1 == Some(q[0].client);
    assert forall j :: 0 <= j < |q| ==> q[0].idleSince <= q[j].idleSince;
  }

  /** A borrowed client always finds room: the branch for an over-full queue is never taken. */
  lemma ReleaseHasRoom(w: World, client: Client, key: string)
    requires Inv(w) && client in w.borrowed
    ensures |QueueOf(w.queues, key)| < w.max
  {
    var q := QueueOf(w.queues, key);
    if q != [] {
      ClientsAreIdle(w.queues, key);
      ClientsCount(q);
      SubsetCount(Clients(q), IdleClients(w.queues));
    }
    SubsetCount({client}, w.borrowed);
  }

  lemma SubsetCount(a: set<Client>, b: set<Client>)
    requires a <= b
    ensures |a| <= |b|
  {
    assert b == a + (b - a);
  }

  lemma ReleaseInv(w: World, client: Client, key: string, now: int)
    requires Inv(w) && client in w.borrowed && w.clock <= now
    ensures Inv(Release(w, client, key, now))
  {
    ReleaseHasRoom(w, client, key);
    QueuePushed(w.queues, w.clock, key, Entry(client, now));
    ReturnClient(IdleClients(w.queues), w.borrowed, w.dropped, w.next, w.created, client);
  }

  lemma DropInv(w: World, client: Client)
    requires Inv(w) && client in w.borrowed
    ensures Inv(Drop(w, client))
  {
    ReturnClient(IdleClients(w.queues), w.borrowed, w.dropped, w.next, w.created, client);
  }

  // ----- Cleanup

  /** The first `n` entries of `q` have reached the timeout, and no other. */
  ghost predicate OldPrefix(q: seq<Entry>, n: nat, now: int, timeout: int) {
    && n <= |q|
    && (forall i :: 0 <= i < n ==> Age(q[i], now) >= timeout)
    && (forall i :: n <= i < |q| ==> Age(q[i], now) < timeout)
  }

  lemma OldPrefixCons(q: seq<Entry>, n: nat, now: int, timeout: int)
    requires q != [] && OldPrefix(q[1..], n, now, timeout) && (n == 0 || Age(q[0], now) >= timeout)
    ensures OldPrefix(q, if Age(q[0], now) >= timeout then n + 1 else 0, now, timeout)
  {
    forall i | 0 < i < |q|
      ensures if i < n + 1 then Age(q[i], now) >= timeout else Age(q[i], now) < timeout
    {
      assert q[i] == q[1..][i - 1];
    }
  }

  lemma LaterIsYounger(e: Entry, e': Entry, now: int)
    requires e.idleSince <= e'.idleSince
    ensures Age(e', now) <= Age(e, now)
  {
  }

  /** What a queue loses is a prefix: the first young entry and everything after it stay. */
  lemma {:induction false} YoungIsSuffix(q: seq<Entry>, now: int, timeout: int, clock: int) returns (n: nat)
    requires Ordered(q, clock)
    ensures OldPrefix(q, n, now, timeout) && Young(q, now, timeout) == q[n..]
    decreases |q|
  {
    if q == [] {
      n := 0;
    } else {
      var m := YoungIsSuffix(q[1..], now, timeout, clock);
      if m > 0 {
        assert q[1..][0] == q[1];
        LaterIsYounger(q[0], q[1], now);
      }
      OldPrefixCons(q, m, now, timeout);
      n := if Age(q[0], now) >= timeout then m + 1 else 0;
      assert q[1..][m..] == q[m + 1..];
    }
  }

  /** Cleaning a queue forgets exactly the clients at or over the timeout, to the nanosecond. */
  lemma SurvivesExactly(e: Entry, now: int, timeout: int)
    requires e.idleSince <= now
    ensures Age(e, now) < timeout <==> now - e.idleSince < timeout * 1_000_000_000
  {
  }

  lemma CleanQueuesOk(queues: Queues, clock: int, now: int, timeout: int)
    requires QueuesOk(queues, clock) && clock <= now
    ensures QueuesOk(CleanQueues(queues, now, timeout), now)
    ensures IdleClients(CleanQueues(queues, now, timeout)) <= IdleClients(queues)
  {
    var clean := CleanQueues(queues, now, timeout);
    forall k | k in clean
      ensures DistinctQueue(clean[k]) && Ordered(clean[k], now) && Clients(clean[k]) <= Clients(queues[k])
    {
      var n := YoungIsSuffix(queues[k], now, timeout, clock);
      Suffix(queues[k], n, clock);
    }
    forall k, k' | k in clean && k' in clean && k != k'
      ensures Clients(clean[k]) !! Clients(clean[k'])
    {
      assert Clients(queues[k]) !! Clients(queues[k']);
    }
    forall c | c in IdleClients(clean)
      ensures c in IdleClients(queues)
    {
      var k, i :| k in clean && 0 <= i < |clean[k]| && clean[k][i].client == c;
      assert c in Clients(clean[k]);
      ClientsAreIdle(queues, k);
    }
  }

  /** No client is counted twice, so the counter falls by exactly the clients that were forgotten. */
  lemma CleanupInv(w: World, now: int)
    requires Inv(w) && w.clock <= now
    ensures Inv(Cleanup(w, now))
    ensures w.created - Cleanup(w, now).created == |IdleClients(w.queues)| - |IdleClients(Cleanup(w, now).queues)| >= 0
  {
    var idle, left := IdleClients(w.queues), IdleClients(CleanQueues(w.queues, now, w.timeout));
    CleanQueuesOk(w.queues, w.clock, now, w.timeout);
    SubsetCount(left, idle);
  }

  /** The client has not been idle for the whole timeout. */
  predicate Fits(e: Entry, now: int, timeout: int) {
    now - e.idleSince < timeout * 1_000_000_000
  }

  /** `left` is what is left of `q` without the entries at or over the timeout, in order. */
  ghost predicate Left(q: seq<Entry>, left: seq<Entry>, now: int, timeout: int) {
    exists n: nat :: LeftAfter(q, n, left, now, timeout)
  }

  /** The first `n` entries have reached the timeout and the others, which are left, have not. */
  ghost predicate LeftAfter(q: seq<Entry>, n: nat, left: seq<Entry>, now: int, timeout: int) {
    && n <= |q| && left == q[n..]
    && (forall i :: 0 <= i < n ==> !Fits(q[i], now, timeout))
    && (forall i :: n <= i < |q| ==> Fits(q[i], now, timeout))
  }

  /** Client `c` is idle in `queues`, and not for the whole timeout. */
  ghost predicate IdleYoung(queues: Queues, c: Client, now: int, timeout: int) {
    exists k, i :: k in queues && 0 <= i < |queues[k]| && queues[k][i].client == c && Fits(queues[k][i], now, timeout)
  }

  /**
   What a cleanup at `now` does to the world: every queue keeps exactly its entries below the timeout, in order; a key
   without any is gone; a client stays idle exactly if it was and is below the timeout; the counter falls by the
   clients removed; and nothing else changes.
   */
  ghost predicate CleanedUp(w: World, v: World, now: int) {
    && (forall k :: k in v.queues ==>
          k in w.queues && v.queues[k] != [] && Left(w.queues[k], v.queues[k], now, w.timeout))
    && (forall k :: k in w.queues && k !in v.queues ==> Left(w.queues[k], [], now, w.timeout))
    && (forall c :: c in IdleClients(v.queues) <==> IdleYoung(w.queues, c, now, w.timeout))
    && w.created - v.created == |IdleClients(w.queues)| - |IdleClients(v.queues)|
    && v == w.(queues := v.queues, created := v.created, clock := now)
  }

  lemma YoungIsLeft(q: seq<Entry>, clock: int, now: int, timeout: int)
    requires Ordered(q, clock) && clock <= now
    ensures Left(q, Young(q, now, timeout), now, timeout)
  {
    var n := YoungIsSuffix(q, now, timeout, clock);
    forall i | 0 <= i < |q|
      ensures Fits(q[i], now, timeout) <==> i >= n
    {
      SurvivesExactly(q[i], now, timeout);
    }
    assert LeftAfter(q, n, Young(q, now, timeout), now, timeout);
  }

  lemma StaysOnlyYoung(q: seq<Entry>, left: seq<Entry>, now: int, timeout: int, j: nat) returns (i: nat)
    requires Left(q, left, now, timeout) && j < |left|
    ensures i < |q| && q[i] == left[j] && Fits(q[i], now, timeout)
  {
    var n: nat :| LeftAfter(q, n, left, now, timeout);
    i := n + j;
    assert n <= i < |q| && left[j] == q[n..][j] == q[i];
  }

  lemma YoungStays(q: seq<Entry>, left: seq<Entry>, now: int, timeout: int, i: nat) returns (j: nat)
    requires Left(q, left, now, timeout) && i < |q| && Fits(q[i], now, timeout)
    ensures j < |left| && left[j] == q[i]
  {
    var n: nat :| LeftAfter(q, n, left, now, timeout);
    assert i >= n;
    j := i - n;
    assert left[j] == q[n..][j] == q[i];
  }

  lemma StillIdleIsYoung(w: World, now: int, c: Client)
    requires Inv(w) && w.clock <= now && c in IdleClients(CleanQueues(w.queues, now, w.timeout))
    ensures IdleYoung(w.queues, c, now, w.timeout)
  {
    var cleaned: Queues := CleanQueues(w.queues, now, w.timeout);
    var k, j :| k in cleaned && 0 <= j < |cleaned[k]| && cleaned[k][j].client == c;
    YoungIsLeft(w.queues[k], w.clock, now, w.timeout);
    var i := StaysOnlyYoung(w.queues[k], cleaned[k], now, w.timeout, j);
  }

  lemma YoungIsStillIdle(w: World, now: int, c: Client)
    requires Inv(w) && w.clock <= now && IdleYoung(w.queues, c, now, w.timeout)
    ensures c in IdleClients(CleanQueues(w.queues, now, w.timeout))
  {
    var cleaned: Queues := CleanQueues(w.queues, now, w.timeout);
    var k, i :| k in w.queues && 0 <= i < |w.queues[k]| && w.queues[k][i].client == c &&
                Fits(w.queues[k][i], now, w.timeout);
    YoungIsLeft(w.queues[k], w.clock, now, w.timeout);
    var j := YoungStays(w.queues[k], Young(w.queues[k], now, w.timeout), now, w.timeout, i);
    assert k in cleaned && cleaned[k][j].client == c;
  }

  lemma CleanupTheorem(w: World, now: int)
    requires Inv(w) && w.clock <= now
    ensures Inv(Cleanup(w, now)) && CleanedUp(w, Cleanup(w, now), now)
  {
    CleanupInv(w, now);
    var v := Cleanup(w, now);
    forall k | k in w.queues
      ensures Left(w.queues[k], Young(w.queues[k], now, w.timeout), now, w.timeout)
    {
      YoungIsLeft(w.queues[k], w.clock, now, w.timeout);
    }
    forall c
      ensures c in IdleClients(v.queues) <==> IdleYoung(w.queues, c, now, w.timeout)
    {
      if c in IdleClients(v.queues) {
        StillIdleIsYoung(w, now, c);
      }
      if IdleYoung(w.queues, c, now, w.timeout) {
        YoungIsStillIdle(w, now, c);
      }
    }
  }

  // ----- Runs

  /** What callers may do; `now` is the clock reading of the operation. */
  datatype Event =
    | AcquireFor(key: string)
    | ReleaseTo(client: Client, key: string, now: int)
    | DropInFlight(client: Client)
    | CleanUp(now: int)

  function AcquireStep(w: World, e: Event): World
    requires e.AcquireFor?
  {
    Acquire(w, e.key).0
  }

  function ReleaseStep(w: World, e: Event): World
    requires e.ReleaseTo? && e.client in w.borrowed
  {
    Release(w, e.client, e.key, e.now)
  }

  function DropStep(w: World, e: Event): World
    requires e.DropInFlight? && e.client in w.borrowed
  {
    Drop(w, e.client)
  }

  function CleanUpStep(w: World, e: Event): World
    requires e.CleanUp?
  {
    Cleanup(w, e.now)
  }

  /** The steady clock does not run backwards, and a caller can give up only a client that it owns. */
  predicate Possible(w: World, e: Event) {
    && (e.ReleaseTo? || e.CleanUp? ==> w.clock <= e.now)
    && (e.ReleaseTo? || e.DropInFlight? ==> e.client in w.borrowed)
  }

  function Step(w: World, e: Event): World {
    if !Possible(w, e) then w
    else if e.AcquireFor? then AcquireStep(w, e)
    else if e.CleanUp? then CleanUpStep(w, e)
    else if e.ReleaseTo? then ReleaseStep(w, e)
    else DropStep(w, e)
  }

  function Run(w: World, events: seq<Event>): World
    decreases |events|
  {
    if events == [] then w else Run(Step(w, events[0]), events[1..])
  }

  function Fresh(max: nat, timeout: int, clock: int): World {
    World(max, timeout, 0, map[], 0, {}, {}, clock)
  }

  lemma StepInv(w: World, e: Event)
    requires Inv(w)
    ensures Inv(Step(w, e))
  {
    if Possible(w, e) {
      match e
      case AcquireFor(key) => AcquireInv(w, key);
      case ReleaseTo(client, key, now) => ReleaseInv(w, client, key, now);
      case DropInFlight(client) => DropInv(w, client);
      case CleanUp(now) => CleanupInv(w, now);
    }
  }

  lemma StepKeepsMax(w: World, e: Event)
    ensures Step(w, e).max == w.max
  {
  }

  lemma {:induction false} RunInv(w: World, events: seq<Event>)
    requires Inv(w)
    ensures Inv(Run(w, events)) && Run(w, events).max == w.max
    decreases |events|
  {
    if events != [] {
      StepInv(w, events[0]);
      StepKeepsMax(w, events[0]);
      RunInv(Step(w, events[0]), events[1..]);
    }
  }

  /**
   After every run of acquires, releases of borrowed clients, drops and cleanups, the counter is the number of idle,
   borrowed and dropped clients together and within the limit, and no client is in two of these places. A dropped
   client therefore takes up room for good.
   */
  lemma PoolTheorem(max: nat, timeout: int, clock: int, events: seq<Event>)
    ensures var w := Run(Fresh(max, timeout, clock), events);
            && w.created == |IdleClients(w.queues)| + |w.borrowed| + |w.dropped| <= max
            && IdleClients(w.queues) !! w.borrowed && IdleClients(w.queues) !! w.dropped && w.borrowed !! w.dropped
            && (forall k :: k in w.queues ==> Ordered(w.queues[k], w.clock))
            && (forall c, k :: c in w.borrowed ==> |QueueOf(w.queues, k)| < max)
  {
    var w0 := Fresh(max, timeout, clock);
    RunInv(w0, events);
    var w := Run(w0, events);
    forall c, k | c in w.borrowed
      ensures |QueueOf(w.queues, k)| < max
    {
      ReleaseHasRoom(w, c, k);
    }
  }

  /** A client that is released is the one that is handed out next for its endpoint, and no other is made. */
  lemma ComesBack(max: nat, timeout: int, clock: int, key: string, now: int)
    requires max > 0 && clock <= now
    ensures var w := Run(Fresh(max, timeout, clock), [AcquireFor(key), ReleaseTo(0, key, now)]);
            && Acquire(Fresh(max, timeout, clock), key).1 == Some(0)
            && w.created == 1 && w.borrowed == {} && Acquire(w, key).1 == Some(0)
  {
    var first := Fresh(max, timeout, clock);
    var acquired := Step(first, AcquireFor(key));
    var released := Step(acquired, ReleaseTo(0, key, now));
    assert [AcquireFor(key), ReleaseTo(0, key, now)][1..] == [ReleaseTo(0, key, now)];
    assert Run(acquired, [ReleaseTo(0, key, now)]) == Run(released, []) == released;
    assert released.queues[key] == [Entry(0, now)];
  }

  // ----- Where a client comes from

  /** The key under which each client was last released. */
  function Homes(w: World, known: map<Client, string>, events: seq<Event>): map<Client, string>
    decreases |events|
  {
    if events == [] then known else Homes(Step(w, events[0]), Known(w, known, events[0]), events[1..])
  }

  function Known(w: World, known: map<Client, string>, e: Event): map<Client, string> {
    if e.ReleaseTo? && Possible(w, e) then known[e.client := e.key] else known
  }

  ghost predicate QueueAtHome(q: seq<Entry>, key: string, known: map<Client, string>) {
    forall i :: 0 <= i < |q| ==> q[i].client in known && known[q[i].client] == key
  }

  /** Every idle client waits under the key it was last released to. */
  ghost predicate AtHome(queues: Queues, known: map<Client, string>) {
    forall k :: k in queues ==> QueueAtHome(queues[k], k, known)
  }

  lemma ReleasedAtHome(w: World, known: map<Client, string>, client: Client, key: string, now: int)
    requires Inv(w) && AtHome(w.queues, known) && client in w.borrowed
    ensures AtHome(Release(w, client, key, now).queues, known[client := key])
  {
    var v := Release(w, client, key, now);
    ReleaseHasRoom(w, client, key);
    forall k | k in v.queues
      ensures QueueAtHome(v.queues[k], k, known[client := key])
    {
      var q := QueueOf(w.queues, k);
      assert QueueAtHome(q, k, known);
      forall i | 0 <= i < |q|
        ensures q[i].client != client
      {
        assert q[i].client in IdleClients(w.queues);
      }
    }
  }

  lemma CleanedAtHome(queues: Queues, clock: int, known: map<Client, string>, now: int, timeout: int)
    requires QueuesOk(queues, clock) && AtHome(queues, known)
    ensures AtHome(CleanQueues(queues, now, timeout), known)
  {
    var cleaned := CleanQueues(queues, now, timeout);
    forall k | k in cleaned
      ensures QueueAtHome(cleaned[k], k, known)
    {
      var n := YoungIsSuffix(queues[k], now, timeout, clock);
      assert cleaned[k] == queues[k][n..];
      assert QueueAtHome(queues[k], k, known);
    }
  }

  lemma AcquiredAtHome(w: World, known: map<Client, string>, key: string)
    requires AtHome(w.queues, known)
    ensures AtHome(Acquire(w, key).0.queues, known)
  {
    var v := Acquire(w, key).0;
    forall k | k in v.queues
      ensures QueueAtHome(v.queues[k], k, known)
    {
      assert k in w.queues ==> QueueAtHome(w.queues[k], k, known);
    }
  }

  lemma StepAtHome(w: World, known: map<Client, string>, e: Event)
    requires Inv(w) && AtHome(w.queues, known)
    ensures AtHome(Step(w, e).queues, Known(w, known, e))
  {
    if Possible(w, e) {
      match e
      case AcquireFor(key) => AcquiredAtHome(w, known, key);
      case ReleaseTo(client, key, now) => ReleasedAtHome(w, known, client, key, now);
      case DropInFlight(client) =>
      case CleanUp(now) => CleanedAtHome(w.queues, w.clock, known, now, w.timeout);
    }
  }

  lemma {:induction false} RunAtHome(w: World, known: map<Client, string>, events: seq<Event>)
    requires Inv(w) && AtHome(w.queues, known)
    ensures AtHome(Run(w, events).queues, Homes(w, known, events))
    decreases |events|
  {
    if events != [] {
      StepInv(w, events[0]);
      StepAtHome(w, known, events[0]);
      RunAtHome(Step(w, events[0]), Known(w, known, events[0]), events[1..]);
    }
  }

  /**
   After every run, a client that is handed out for an endpoint is new, or was last released for that host and that
   port and no other.
   */
  lemma HomeTheorem(max: nat, timeout: int, clock: int, events: seq<Event>, host: string, port: nat)
    ensures var w := Run(Fresh(max, timeout, clock), events);
            var homes := Homes(Fresh(max, timeout, clock), map[], events);
            var client := Acquire(w, Key(host, port)).1;
            client.Some? && client.value != w.next ==>
              && client.value in homes && homes[client.value] == Key(host, port)
              && forall host', port' :: homes[client.value] == Key(host', port') ==> host' == host && port' == port
  {
    var first := Fresh(max, timeout, clock);
    RunInv(first, events);
    RunAtHome(first, map[], events);
    var w := Run(first, events);
    var q := QueueOf(w.queues, Key(host, port));
    assert q != [] ==> QueueAtHome(q, Key(host, port), Homes(first, map[], events));
    forall host', port' | Key(host, port) == Key(host', port')
      ensures host' == host && port' == port
    {
      KeyInjective(host, port, host', port');
    }
  }

  // ----- Cleaning queue by queue

  /** One queue cleaned, and forgotten if nothing is left. */
  function CleanedUnder(queues: Queues, key: string, now: int, timeout: int): Queues
    requires key in queues
  {
    var young := Young(queues[key], now, timeout);
    if young == [] then queues - {key} else queues[key := young]
  }

  lemma QueueEmptied(queues: Queues, clock: int, key: string)
    requires QueuesOk(queues, clock) && key in queues
    ensures QueuesOk(queues - {key}, clock)
    ensures |IdleClients(queues - {key})| + |queues[key]| == |IdleClients(queues)|
  {
    var rest, q := queues - {key}, queues[key];
    assert rest[key := q] == queues;
    CountOneMore(queues, clock, rest, key);
  }

  /** The queue loses its first `n` entries, and the pool as many idle clients. */
  lemma CleanOne(queues: Queues, clock: int, key: string, now: int, timeout: int) returns (n: nat)
    requires QueuesOk(queues, clock) && key in queues
    ensures OldPrefix(queues[key], n, now, timeout) && Young(queues[key], now, timeout) == queues[key][n..]
    ensures QueuesOk(CleanedUnder(queues, key, now, timeout), clock)
    ensures |IdleClients(CleanedUnder(queues, key, now, timeout))| + n == |IdleClients(queues)|
  {
    n := YoungIsSuffix(queues[key], now, timeout, clock);
    if n == |queues[key]| {
      QueueEmptied(queues, clock, key);
    } else {
      QueueTrimmed(queues, clock, key, n);
    }
  }

  /** The queues when those under `todo` are as before and all others have been cleaned. */
  ghost predicate CleanedExcept(queues: Queues, before: Queues, todo: set<string>, now: int, timeout: int) {
    && (forall k :: k in todo ==> k in before && k in queues && queues[k] == before[k])
    && (forall k :: k in queues ==> k in before)
    && (forall k :: k in before && k !in todo ==>
          if Young(before[k], now, timeout) == [] then k !in queues
          else k in queues && queues[k] == Young(before[k], now, timeout))
  }

  lemma CleanedOneMore(queues: Queues, before: Queues, todo: set<string>, key: string, now: int, timeout: int)
    requires CleanedExcept(queues, before, todo, now, timeout) && key in todo
    ensures CleanedExcept(CleanedUnder(queues, key, now, timeout), before, todo - {key}, now, timeout)
  {
  }

  ghost predicate Cleaning(queues: Queues, before: Queues, todo: set<string>, clock: int, now: int, timeout: int) {
    QueuesOk(queues, clock) && CleanedExcept(queues, before, todo, now, timeout)
  }

  lemma CleaningStep(
    queues: Queues, before: Queues, todo: set<string>, clock: int, now: int, timeout: int,
    key: string, rest: set<string>) returns (n: nat)
    requires Cleaning(queues, before, todo, clock, now, timeout) && key in todo && rest == todo - {key}
    ensures key in queues
    ensures OldPrefix(queues[key], n, now, timeout) && Young(queues[key], now, timeout) == queues[key][n..]
    ensures Cleaning(CleanedUnder(queues, key, now, timeout), before, rest, clock, now, timeout)
    ensures |IdleClients(CleanedUnder(queues, key, now, timeout))| + n == |IdleClients(queues)|
  {
    n := CleanOne(queues, clock, key, now, timeout);
    CleanedOneMore(queues, before, todo, key, now, timeout);
  }

  lemma CleanedAll(queues: Queues, before: Queues, now: int, timeout: int)
    requires CleanedExcept(queues, before, {}, now, timeout)
    ensures queues == CleanQueues(before, now, timeout)
  {
    var clean := CleanQueues(before, now, timeout);
    assert forall k :: k in queues <==> k in clean;
    assert forall k :: k in queues ==> queues[k] == clean[k];
  }

  /** Counting the idle clients queue by queue. */
  lemma CountOneMore(queues: Queues, clock: int, done: Queues, key: string)
    requires QueuesOk(queues, clock) && key in queues && key !in done
    requires forall k :: k in done ==> k in queues && done[k] == queues[k]
    ensures |IdleClients(done[key := queues[key]])| == |IdleClients(done)| + |queues[key]|
  {
    var q := queues[key];
    AddQueue(done, key, q);
    ClientsCount(q);
    forall c | c in IdleClients(done)
      ensures c !in Clients(q)
    {
      var k, i :| k in done && 0 <= i < |done[k]| && done[k][i].client == c;
      assert c in Clients(queues[k]);
    }
    assert IdleClients(done) !! Clients(q);
  }
}
