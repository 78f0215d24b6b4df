/**
 The pool object: its methods update the queues and the counter in place, and each does to the `World` what the
 operation of the same name in `PoolLaws` says.
 */
module ConnectionPools {
  import opened Options
  import opened PoolLaws

  datatype Stats = Stats(active: nat, idle: nat, total: nat)

  class ConnectionPool {
    const max: nat
    const timeout: int
    var created: nat
    var queues: Queues
    var next: Client

    ghost var borrowed: set<Client>
    ghost var dropped: set<Client>
    ghost var clock: int

    ghost function View(): World
      reads this
    {
      World(max, timeout, created, queues, next, borrowed, dropped, clock)
    }

    ghost predicate Valid()
      reads this
    {
      Inv(View())
    }

    constructor (max: nat, timeout: int, ghost clock: int)
      ensures Valid() && View() == Fresh(max, timeout, clock)
    {
      this.max, this.timeout := max, timeout;
      created, queues, next := 0, map[], 0;
      borrowed, dropped, this.clock := {}, {}, clock;
    }

    /** An idle client of that endpoint, or a new one while the limit allows, or nothing. */
    method Acquire(host: string, port: nat) returns (client: Option<Client>)
      requires Valid()
      modifies this
      ensures Valid() && (View(), client) == PoolLaws.Acquire(old(View()), Key(host, port))
    {
      AcquireInv(View(), Key(host, port));
      client := TakeOrMake(Key(host, port));
    }

    /** The operation itself; it needs nothing of the invariant. */
    method TakeOrMake(key: string) returns (client: Option<Client>)
      modifies this
      ensures (View(), client) == PoolLaws.Acquire(old(View()), key)
    {
      var q := QueueOf(queues, key);
      if q != [] {
        client := Some(q[0].client);
        queues := queues[key := q[1..]];
        borrowed := borrowed + {q[0].client};
      } else if created < max {
        client := Some(next);
        queues := queues[key := q];
        borrowed := borrowed + {next};
        created := created + 1;
        next := next + 1;
      } else {
        client := None;
        queues := queues[key := q];
      }
    }

    /** A borrowed client goes to the back of its queue. The over-full branch of the source cannot be reached. */
    method Release(client: Client, host: string, port: nat, now: int)
      requires Valid() && client in borrowed && clock <= now
      modifies this
      ensures Valid() && View() == PoolLaws.Release(old(View()), client, Key(host, port), now)
      ensures var key := Key(host, port);
              QueueOf(queues, key) == QueueOf(old(queues), key) + [Entry(client, now)] && created == old(created)
    {
      var key := Key(host, port);
      ReleaseInv(View(), client, key, now);
      ReleaseHasRoom(View(), client, key);
      var q := QueueOf(queues, key);
      assert |q| < max;
      queues := queues[key := q + [Entry(client, now)]];
      borrowed := borrowed - {client};
      clock := now;
    }

    /** A borrower destroys its client; nothing in the pool changes. */
    ghost method Drop(client: Client)
      requires Valid() && client in borrowed
      modifies this`borrowed, this`dropped
      ensures Valid() && View() == PoolLaws.Drop(old(View()), client)
    {
      DropInv(View(), client);
      borrowed, dropped := borrowed - {client}, dropped + {client};
    }

    /** The inner loop of `cleanup`: pops entries at or over the timeout until it meets a young one. */
    method CleanQueue(q: seq<Entry>, count: nat, now: int, ghost n: nat) returns (left: seq<Entry>, count': nat)
      requires OldPrefix(q, n, now, timeout) && n <= count
      ensures left == q[n..] && count' == count - n
    {
      left, count' := q, count;
      ghost var popped := 0;
      while left != [] && Age(left[0], now) >= timeout
        invariant 0 <= popped <= n && left == q[popped..] && count' == count - popped
        decreases |left|
      {
        assert left[0] == q[popped];
        if count' > 0 {
          count' := count' - 1;
        }
        left := left[1..];
        popped := popped + 1;
      }
      assert left != [] ==> left[0] == q[popped];
    }

    /** Cleans one queue, and forgets it if nothing is left. */
    method CleanUnder(key: string, now: int, ghost n: nat)
      requires key in queues && n <= created && OldPrefix(queues[key], n, now, timeout)
      requires Young(queues[key], now, timeout) == queues[key][n..]
      modifies this`queues, this`created
      ensures queues == CleanedUnder(old(queues), key, now, timeout) && created == old(created) - n
    {
      var left, count := CleanQueue(queues[key], created, now, n);
      created := count;
      if left == [] {
        queues := queues - {key};
      } else {
        queues := queues[key := left];
      }
    }

    /** One turn of the outer loop of `cleanup`: `created` falls by as much as there are fewer idle clients. */
    method CleanNext(key: string, now: int, ghost before: Queues, ghost todo: set<string>)
      requires Cleaning(queues, before, todo, clock, now, timeout) && key in todo
      requires |IdleClients(queues)| <= created
      modifies this`queues, this`created
      ensures Cleaning(queues, before, todo - {key}, clock, now, timeout)
      ensures created - |IdleClients(queues)| == old(created) - |IdleClients(old(queues))|
    {
      ghost var n := CleaningStep(queues, before, todo, clock, now, timeout, key, todo - {key});
      CleanUnder(key, now, n);
    }

    /** The outer loop of `cleanup`. */
    method CleanAll(now: int)
      requires QueuesOk(queues, clock) && |IdleClients(queues)| <= created
      modifies this`queues, this`created
      ensures queues == CleanQueues(old(queues), now, timeout)
      ensures created - |IdleClients(queues)| == old(created) - |IdleClients(old(queues))|
    {
      ghost var before := queues;
      var todo := queues.Keys;
      while todo != {}
        invariant Cleaning(queues, before, todo, clock, now, timeout)
        invariant created - |IdleClients(queues)| == old(created) - |IdleClients(before)|
        decreases todo
      {
        var key :| key in todo;
        CleanNext(key, now, before, todo);
        todo := todo - {key};
      }
      CleanedAll(queues, before, now, timeout);
    }

    /** Every queue loses exactly its entries at or over the timeout, and the counter as many. */
    method Cleanup(now: int)
      requires Valid() && clock <= now
      modifies this
      ensures Valid() && View() == PoolLaws.Cleanup(old(View()), now)
      ensures CleanedUp(old(View()), View(), now)
    {
      CleanupTheorem(View(), now);
      CleanAll(now);
      clock := now;
    }

    /** No idle client is counted twice, so the sum of the queue lengths is the number of idle clients. */
    method GetStats() returns (s: Stats)
      requires Valid()
      ensures s == Stats(|borrowed| + |dropped|, |IdleClients(queues)|, created)
    {
      var idle := CountIdle();
      s := Stats(if created > idle then created - idle else 0, idle, created);
    }

    method CountIdle() returns (idle: nat)
      requires QueuesOk(queues, clock)
      ensures idle == |IdleClients(queues)|
    {
      idle := 0;
      var todo := queues.Keys;
      ghost var done: Queues := map[];
      while todo != {}
        invariant todo <= queues.Keys
        invariant done.Keys == queues.Keys - todo && forall k :: k in done ==> done[k] == queues[k]
        invariant idle == |IdleClients(done)|
        decreases todo
      {
        var key :| key in todo;
        CountOneMore(queues, clock, done, key);
        done := done[key := queues[key]];
        idle := idle + |queues[key]|;
        todo := todo - {key};
      }
      assert done == queues;
    }
  }
}
