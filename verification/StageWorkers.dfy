/**
 The workers of a run and the connection pool they share: each worker acquires one client at its start, holds it for
 its stage, and gives it back at its exit unless a request is still unanswered. All of them use the endpoint of the
 target, so one key.

 Workers act in any interleaving; a stage starts when every worker of the one before has exited.
 */
module StageWorkers {

  import opened Options
  import opened PoolLaws

  const MAX_TRIES: int := 200

  datatype Worker =
    | Waiting(tries: nat)
    | Holding(client: Client, inFlight: bool)
    | Gone

  /**
   `refused`: some worker of this stage found no client. `before`: the clients that were dropped before the stage.
   `unanswered`: the clients whose last request got no answer. `tainted`: those given back so, by a worker that
   failed with an exception.
   */
  datatype Crew = Crew(
    pool: World,
    workers: seq<Worker>,
    before: nat,
    refused: bool,
    failed: nat,
    unanswered: set<Client>,
    tainted: set<Client>)

  datatype Action =
    | TryAcquire(w: nat)
    | Send(w: nat)
    | Answer(w: nat)
    | Leave(w: nat, now: int)
    | Throw(w: nat, now: int)
    | GiveUp(w: nat)
    | NextStage(users: nat)

  function Recruits(n: nat): (ws: seq<Worker>)
    ensures |ws| == n && forall i :: 0 <= i < n ==> ws[i] == Waiting(0)
  {
    if n == 0 then [] else Recruits(n - 1) + [Waiting(0)]
  }

  predicate AllGone(ws: seq<Worker>) {
    forall i :: 0 <= i < |ws| ==> ws[i].Gone?
  }

  function Set(s: Crew, w: nat, x: Worker): Crew
    requires w < |s.workers|
  {
    s.(workers := s.workers[w := x])
  }

  /** One turn of the acquire loop: after 200 refusals the worker fails. */
  function Acquiring(s: Crew, key: string, w: nat): Crew
    requires w < |s.workers| && s.workers[w].Waiting?
  {
    var tries := s.workers[w].tries + 1;
    var (pool, client) := Acquire(s.pool, key);
    if client.Some? then Set(s, w, Holding(client.value, false)).(pool := pool)
    else if tries < MAX_TRIES then Set(s, w, Waiting(tries)).(pool := pool, refused := true)
    else Set(s, w, Gone).(pool := pool, refused := true, failed := s.failed + 1)
  }

  function Sending(s: Crew, w: nat): Crew
    requires w < |s.workers| && s.workers[w].Holding?
  {
    var client := s.workers[w].client;
    Set(s, w, Holding(client, true)).(unanswered := s.unanswered + {client})
  }

  function Answered(s: Crew, w: nat): Crew
    requires w < |s.workers| && s.workers[w].Holding?
  {
    var client := s.workers[w].client;
    var left := if client in s.tainted then s.unanswered else s.unanswered - {client};
    Set(s, w, Holding(client, false)).(unanswered := left)
  }

  /** The exit at a stop, a deadline or for want of steps. */
  function Leaving(s: Crew, key: string, w: nat, now: int): Crew
    requires w < |s.workers| && s.workers[w].Holding?
  {
    var client := s.workers[w].client;
    Set(s, w, Gone).(
      pool := if s.workers[w].inFlight then Drop(s.pool, client) else Release(s.pool, client, key, now))
  }

  /** The exit by an exception: the client is given back in any case. */
  function Throwing(s: Crew, key: string, w: nat, now: int): Crew
    requires w < |s.workers| && s.workers[w].Holding?
  {
    var client := s.workers[w].client;
    Set(s, w, Gone).(
      pool := Release(s.pool, client, key, now), failed := s.failed + 1,
      tainted := if s.workers[w].inFlight then s.tainted + {client} else s.tainted)
  }

  /** An exception before there is a client. */
  function GivingUp(s: Crew, w: nat): Crew
    requires w < |s.workers| && s.workers[w].Waiting?
  {
    Set(s, w, Gone).(failed := s.failed + 1)
  }

  function NextCrew(s: Crew, users: nat): Crew {
    s.(workers := Recruits(users), before := |s.pool.dropped|, refused := false)
  }

  /** An action that is not possible changes nothing. */
  predicate Possible(s: Crew, a: Action) {
    match a
    case TryAcquire(w) => w < |s.workers| && s.workers[w].Waiting?
    case Send(w) => w < |s.workers| && s.workers[w].Holding? && !s.workers[w].inFlight
    case Answer(w) => w < |s.workers| && s.workers[w].Holding? && s.workers[w].inFlight
    case Leave(w, now) => w < |s.workers| && s.workers[w].Holding? && s.pool.clock <= now
    case Throw(w, now) => w < |s.workers| && s.workers[w].Holding? && s.pool.clock <= now
    case GiveUp(w) => w < |s.workers| && s.workers[w].Waiting?
    case NextStage(_) => AllGone(s.workers)
  }

  function Step(s: Crew, key: string, a: Action): Crew {
    if !Possible(s, a) then s else
      match a
      case TryAcquire(w) => Acquiring(s, key, w)
      case Send(w) => Sending(s, w)
      case Answer(w) => Answered(s, w)
      case Leave(w, now) => Leaving(s, key, w, now)
      case Throw(w, now) => Throwing(s, key, w, now)
      case GiveUp(w) => GivingUp(s, w)
      case NextStage(users) => NextCrew(s, users)
  }

  function Run(s: Crew, key: string, actions: seq<Action>): Crew
    decreases |actions|
  {
    if actions == [] then s else Run(Step(s, key, actions[0]), key, actions[1..])
  }

  function Initial(max: nat, timeout: int, clock: int): Crew {
    Crew(Fresh(max, timeout, clock), [], 0, false, 0, {}, {})
  }

  // ----- What the pool does, with a single key

  predicate OneKey(queues: Queues, key: string) {
    forall k :: k in queues ==> k == key
  }

  lemma IdleUnderKey(queues: Queues, key: string)
    requires OneKey(queues, key)
    ensures IdleClients(queues) == Clients(QueueOf(queues, key))
  {
  }

  /** With one key, an acquire fails exactly when every client that may exist is borrowed or dropped. */
  lemma AcquireEffect(w: World, key: string)
    requires Inv(w) && OneKey(w.queues, key)
    ensures var (v, client) := Acquire(w, key);
            && Inv(v) && OneKey(v.queues, key) && v.max == w.max && v.clock == w.clock && v.dropped == w.dropped
            && (client == None <==> |w.borrowed| + |w.dropped| == w.max)
            && (client == None ==> v.borrowed == w.borrowed)
            && (client.Some? ==> client.value !in w.borrowed + w.dropped && v.borrowed == w.borrowed + {client.value})
  {
    AcquireInv(w, key);
    IdleUnderKey(w.queues, key);
    ClientsCount(QueueOf(w.queues, key));
  }

  lemma ReleaseEffect(w: World, client: Client, key: string, now: int)
    requires Inv(w) && OneKey(w.queues, key) && client in w.borrowed && w.clock <= now
    ensures var v := Release(w, client, key, now);
            && Inv(v) && OneKey(v.queues, key) && v.max == w.max && v.dropped == w.dropped
            && v.borrowed == w.borrowed - {client} && client in IdleClients(v.queues)
  {
    ReleaseInv(w, client, key, now);
    ReleaseHasRoom(w, client, key);
    var q := QueueOf(w.queues, key) + [Entry(client, now)];
    var v := Release(w, client, key, now);
    assert v.queues[key] == q && q[|q| - 1].client == client;
  }

  // ----- Invariant

  predicate Holds(x: Worker, c: Client) {
    x.Holding? && x.client == c
  }

  /** The borrowed clients are those that the workers hold, each by one. */
  ghost predicate HeldOk(ws: seq<Worker>, borrowed: set<Client>) {
    && (forall i :: 0 <= i < |ws| && ws[i].Holding? ==> ws[i].client in borrowed)
    && (forall i, j :: 0 <= i < j < |ws| && ws[i].Holding? && ws[j].Holding? ==> ws[i].client != ws[j].client)
    && (forall c :: c in borrowed ==> exists i :: 0 <= i < |ws| && Holds(ws[i], c))
  }

  /** A client without an answer is in use, dropped, or tainted. */
  ghost predicate AnswersOk(ws: seq<Worker>, unanswered: set<Client>, excused: set<Client>) {
    forall c :: c in unanswered && c !in excused ==> exists i :: 0 <= i < |ws| && ws[i] == Holding(c, true)
  }

  function Weight(x: Worker): nat {
    if x.Waiting? then 0 else 1
  }

  /** The workers that have had their client, or have given up. */
  function Active(ws: seq<Worker>): nat {
    if ws == [] then 0 else Active(ws[..|ws| - 1]) + Weight(ws[|ws| - 1])
  }

  lemma {:induction false} ActiveSet(ws: seq<Worker>, i: nat, x: Worker)
    requires i < |ws|
    ensures Active(ws[i := x]) == Active(ws) - Weight(ws[i]) + Weight(x)
    ensures Active(ws) <= |ws|
    ensures ws[i].Waiting? ==> Active(ws) < |ws|
  {
    var n := |ws| - 1;
    if i == n {
      assert ws[i := x][..n] == ws[..n];
      if n > 0 {
        ActiveSet(ws[..n], n - 1, x);
      }
    } else {
      assert ws[i := x][..n] == ws[..n][i := x];
      ActiveSet(ws[..n], i, x);
    }
  }

  lemma {:induction false} RecruitsIdle(n: nat)
    ensures Active(Recruits(n)) == 0
  {
    if n > 0 {
      RecruitsIdle(n - 1);
      assert Recruits(n)[..n - 1] == Recruits(n - 1);
    }
  }

  ghost predicate CrewOk(s: Crew, key: string) {
    && Inv(s.pool) && OneKey(s.pool.queues, key)
    && HeldOk(s.workers, s.pool.borrowed)
    && AnswersOk(s.workers, s.unanswered, s.pool.dropped + s.tainted)
    && |s.pool.borrowed| + |s.pool.dropped| <= s.before + Active(s.workers)
  }

  lemma Hired(ws: seq<Worker>, borrowed: set<Client>, i: nat, c: Client)
    requires HeldOk(ws, borrowed) && i < |ws| && ws[i].Waiting? && c !in borrowed
    ensures HeldOk(ws[i := Holding(c, false)], borrowed + {c})
  {
    var vs := ws[i := Holding(c, false)];
    assert Holds(vs[i], c);
    forall d | d in borrowed
      ensures exists j :: 0 <= j < |vs| && Holds(vs[j], d)
    {
      var j :| 0 <= j < |ws| && Holds(ws[j], d);
      assert Holds(vs[j], d);
    }
  }

  lemma Waits(ws: seq<Worker>, borrowed: set<Client>, i: nat, x: Worker)
    requires HeldOk(ws, borrowed) && i < |ws| && ws[i].Waiting? && !x.Holding?
    ensures HeldOk(ws[i := x], borrowed)
  {
    var vs := ws[i := x];
    forall d | d in borrowed
      ensures exists j :: 0 <= j < |vs| && Holds(vs[j], d)
    {
      var j :| 0 <= j < |ws| && Holds(ws[j], d);
      assert Holds(vs[j], d);
    }
  }

  lemma Flagged(ws: seq<Worker>, borrowed: set<Client>, i: nat, inFlight: bool)
    requires HeldOk(ws, borrowed) && i < |ws| && ws[i].Holding?
    ensures HeldOk(ws[i := Holding(ws[i].client, inFlight)], borrowed)
  {
    var vs := ws[i := Holding(ws[i].client, inFlight)];
    forall d | d in borrowed
      ensures exists j :: 0 <= j < |vs| && Holds(vs[j], d)
    {
      var j :| 0 <= j < |ws| && Holds(ws[j], d);
      assert Holds(vs[j], d);
    }
  }

  lemma Left(ws: seq<Worker>, borrowed: set<Client>, i: nat)
    requires HeldOk(ws, borrowed) && i < |ws| && ws[i].Holding?
    ensures HeldOk(ws[i := Gone], borrowed - {ws[i].client})
  {
    var vs := ws[i := Gone];
    forall d | d in borrowed - {ws[i].client}
      ensures exists j :: 0 <= j < |vs| && Holds(vs[j], d)
    {
      var j :| 0 <= j < |ws| && Holds(ws[j], d);
      assert Holds(vs[j], d);
    }
  }

  /** Only the `i`-th worker changes: the others account for the clients they did before. */
  lemma AnswersKept(ws: seq<Worker>, i: nat, x: Worker, old': set<Client>, new': set<Client>,
                    excused: set<Client>, more: set<Client>)
    requires AnswersOk(ws, old', excused) && i < |ws| && excused <= more
    requires forall c :: c in new' && c !in more ==> c in old' || x == Holding(c, true)
    requires ws[i].Holding? && ws[i].inFlight ==> ws[i].client !in new' || ws[i].client in more || x == ws[i]
    ensures AnswersOk(ws[i := x], new', more)
  {
    var vs := ws[i := x];
    forall c | c in new' && c !in more
      ensures exists j :: 0 <= j < |vs| && vs[j] == Holding(c, true)
    {
      if x == Holding(c, true) {
        assert vs[i] == Holding(c, true);
      } else {
        var j :| 0 <= j < |ws| && ws[j] == Holding(c, true);
        assert vs[j] == Holding(c, true);
      }
    }
  }

  lemma GetsClient(s: Crew, key: string, w: nat)
    requires CrewOk(s, key) && w < |s.workers| && s.workers[w].Waiting? && Acquire(s.pool, key).1.Some?
    ensures CrewOk(Acquiring(s, key, w), key)
  {
    AcquireEffect(s.pool, key);
    var client := Acquire(s.pool, key).1.value;
    var x := Holding(client, false);
    var excused := s.pool.dropped + s.tainted;
    ActiveSet(s.workers, w, x);
    AnswersKept(s.workers, w, x, s.unanswered, s.unanswered, excused, excused);
    Hired(s.workers, s.pool.borrowed, w, client);
  }

  lemma GetsNone(s: Crew, key: string, w: nat)
    requires CrewOk(s, key) && w < |s.workers| && s.workers[w].Waiting? && Acquire(s.pool, key).1.None?
    ensures CrewOk(Acquiring(s, key, w), key)
  {
    AcquireEffect(s.pool, key);
    var x := Acquiring(s, key, w).workers[w];
    var excused := s.pool.dropped + s.tainted;
    ActiveSet(s.workers, w, x);
    AnswersKept(s.workers, w, x, s.unanswered, s.unanswered, excused, excused);
    Waits(s.workers, s.pool.borrowed, w, x);
  }

  lemma AcquiringOk(s: Crew, key: string, w: nat)
    requires CrewOk(s, key) && w < |s.workers| && s.workers[w].Waiting?
    ensures CrewOk(Acquiring(s, key, w), key)
  {
    if Acquire(s.pool, key).1.Some? {
      GetsClient(s, key, w);
    } else {
      GetsNone(s, key, w);
    }
  }

  lemma SendingOk(s: Crew, key: string, w: nat)
    requires CrewOk(s, key) && Possible(s, Send(w))
    ensures CrewOk(Sending(s, w), key)
  {
    var t := Sending(s, w);
    var excused := s.pool.dropped + s.tainted;
    ActiveSet(s.workers, w, t.workers[w]);
    AnswersKept(s.workers, w, t.workers[w], s.unanswered, t.unanswered, excused, excused);
    Flagged(s.workers, s.pool.borrowed, w, true);
  }

  lemma AnsweredOk(s: Crew, key: string, w: nat)
    requires CrewOk(s, key) && Possible(s, Answer(w))
    ensures CrewOk(Answered(s, w), key)
  {
    var t := Answered(s, w);
    var excused := s.pool.dropped + s.tainted;
    ActiveSet(s.workers, w, t.workers[w]);
    AnswersKept(s.workers, w, t.workers[w], s.unanswered, t.unanswered, excused, excused);
    Flagged(s.workers, s.pool.borrowed, w, false);
  }

  lemma LeavingOk(s: Crew, key: string, w: nat, now: int)
    requires CrewOk(s, key) && Possible(s, Leave(w, now))
    ensures CrewOk(Leaving(s, key, w, now), key)
    ensures var pool, x := Leaving(s, key, w, now).pool, s.workers[w];
            && (x.client in IdleClients(pool.queues) <==> !x.inFlight)
            && (x.client in pool.dropped <==> x.inFlight)
  {
    var client := s.workers[w].client;
    var t := Leaving(s, key, w, now);
    ActiveSet(s.workers, w, Gone);
    Left(s.workers, s.pool.borrowed, w);
    if s.workers[w].inFlight {
      DropInv(s.pool, client);
    } else {
      ReleaseEffect(s.pool, client, key, now);
    }
    var excused, more := s.pool.dropped + s.tainted, t.pool.dropped + t.tainted;
    AnswersKept(s.workers, w, Gone, s.unanswered, s.unanswered, excused, more);
  }

  lemma ThrowingOk(s: Crew, key: string, w: nat, now: int)
    requires CrewOk(s, key) && Possible(s, Throw(w, now))
    ensures CrewOk(Throwing(s, key, w, now), key)
    ensures s.workers[w].client in IdleClients(Throwing(s, key, w, now).pool.queues)
  {
    var client := s.workers[w].client;
    var t := Throwing(s, key, w, now);
    ActiveSet(s.workers, w, Gone);
    Left(s.workers, s.pool.borrowed, w);
    ReleaseEffect(s.pool, client, key, now);
    var excused, more := s.pool.dropped + s.tainted, t.pool.dropped + t.tainted;
    AnswersKept(s.workers, w, Gone, s.unanswered, s.unanswered, excused, more);
  }

  lemma GivingUpOk(s: Crew, key: string, w: nat)
    requires CrewOk(s, key) && Possible(s, GiveUp(w))
    ensures CrewOk(GivingUp(s, w), key)
  {
    var excused := s.pool.dropped + s.tainted;
    ActiveSet(s.workers, w, Gone);
    AnswersKept(s.workers, w, Gone, s.unanswered, s.unanswered, excused, excused);
    Waits(s.workers, s.pool.borrowed, w, Gone);
  }

  lemma NextCrewOk(s: Crew, key: string, users: nat)
    requires CrewOk(s, key) && AllGone(s.workers)
    ensures CrewOk(NextCrew(s, users), key) && s.pool.borrowed == {}
  {
    RecruitsIdle(users);
    if c :| c in s.pool.borrowed {
      assert false;
    }
  }

  lemma StepOk(s: Crew, key: string, a: Action)
    requires CrewOk(s, key)
    ensures CrewOk(Step(s, key, a), key)
  {
    if Possible(s, a) {
      match a
      case TryAcquire(w) => AcquiringOk(s, key, w);
      case Send(w) => SendingOk(s, key, w);
      case Answer(w) => AnsweredOk(s, key, w);
      case Leave(w, now) => LeavingOk(s, key, w, now);
      case Throw(w, now) => ThrowingOk(s, key, w, now);
      case GiveUp(w) => GivingUpOk(s, key, w);
      case NextStage(users) => NextCrewOk(s, key, users);
    }
  }

  lemma {:induction false} RunOk(s: Crew, key: string, actions: seq<Action>)
    requires CrewOk(s, key)
    ensures CrewOk(Run(s, key, actions), key)
    decreases |actions|
  {
    if actions != [] {
      StepOk(s, key, actions[0]);
      RunOk(Step(s, key, actions[0]), key, actions[1..]);
    }
  }

  // ----- What is in the pool

  /** A client with a request under way has not been answered. */
  ghost predicate BusyOk(s: Crew) {
    forall i :: 0 <= i < |s.workers| && s.workers[i].Holding? && s.workers[i].inFlight ==>
      s.workers[i].client in s.unanswered
  }

  lemma StepBusy(s: Crew, key: string, a: Action)
    requires CrewOk(s, key) && BusyOk(s)
    ensures BusyOk(Step(s, key, a))
  {
  }

  lemma IdleIsAnswered(s: Crew, key: string)
    requires CrewOk(s, key)
    ensures IdleClients(s.pool.queues) * s.unanswered <= s.tainted
  {
    forall c | c in IdleClients(s.pool.queues) && c in s.unanswered
      ensures c in s.tainted
    {
      if c !in s.tainted {
        assert false;
      }
    }
  }

  /** No client in the pool waits for an answer. */
  ghost predicate Clean(s: Crew) {
    IdleClients(s.pool.queues) !! s.unanswered
  }

  /** Every state that the run passes through is clean, the first and the last included. */
  ghost predicate CleanThroughout(s: Crew, key: string, actions: seq<Action>)
    decreases |actions|
  {
    Clean(s) && (actions == [] || CleanThroughout(Step(s, key, actions[0]), key, actions[1..]))
  }

  /** A worker fails with an exception while its request is under way. */
  predicate ThrowsBusy(s: Crew, a: Action) {
    a.Throw? && Possible(s, a) && s.workers[a.w].inFlight
  }

  predicate NeverThrowsBusy(s: Crew, key: string, actions: seq<Action>)
    decreases |actions|
  {
    actions == [] || (!ThrowsBusy(s, actions[0]) && NeverThrowsBusy(Step(s, key, actions[0]), key, actions[1..]))
  }

  lemma ThrowIsUnclean(s: Crew, key: string, a: Action)
    requires CrewOk(s, key) && BusyOk(s) && ThrowsBusy(s, a)
    ensures !Clean(Step(s, key, a))
  {
    ThrowingOk(s, key, a.w, a.now);
    var c, t := s.workers[a.w].client, Step(s, key, a);
    assert c in IdleClients(t.pool.queues) && c in t.unanswered;
  }

  /** A run so far without such an exception. */
  ghost predicate Untainted(s: Crew, key: string) {
    CrewOk(s, key) && BusyOk(s) && s.tainted == {}
  }

  lemma StepUntainted(s: Crew, key: string, a: Action)
    requires Untainted(s, key) && !ThrowsBusy(s, a)
    ensures Untainted(Step(s, key, a), key)
  {
    StepOk(s, key, a);
    StepBusy(s, key, a);
    OnlyThrowsTaint(s, key, a);
  }

  lemma OnlyThrowsTaint(s: Crew, key: string, a: Action)
    requires !ThrowsBusy(s, a)
    ensures Step(s, key, a).tainted == s.tainted
  {
  }

  lemma UntaintedIsClean(s: Crew, key: string)
    requires Untainted(s, key)
    ensures Clean(s)
  {
    IdleIsAnswered(s, key);
  }

  lemma {:induction false} CleanExactly(s: Crew, key: string, actions: seq<Action>)
    requires Untainted(s, key)
    ensures CleanThroughout(s, key, actions) <==> NeverThrowsBusy(s, key, actions)
    decreases |actions|
  {
    UntaintedIsClean(s, key);
    if actions != [] {
      if ThrowsBusy(s, actions[0]) {
        ThrowIsUnclean(s, key, actions[0]);
      } else {
        StepUntainted(s, key, actions[0]);
        CleanExactly(Step(s, key, actions[0]), key, actions[1..]);
      }
    }
  }

  /**
   Over every run: at no moment does the pool hold a client with an unanswered request, so that no later borrower can
   get one, exactly when no worker fails with an exception while its request is under way.
   */
  lemma ReturnTheorem(max: nat, timeout: int, clock: int, key: string, actions: seq<Action>)
    ensures var s := Initial(max, timeout, clock);
            CleanThroughout(s, key, actions) <==> NeverThrowsBusy(s, key, actions)
  {
    CleanExactly(Initial(max, timeout, clock), key, actions);
  }

  // ----- Whether every worker gets its client

  predicate WithinStage(actions: seq<Action>) {
    forall i :: 0 <= i < |actions| ==> !actions[i].NextStage?
  }

  /** The workers of the stage, and the clients dropped before it, leave the pool room. */
  predicate Roomy(s: Crew) {
    |s.workers| + s.before <= s.pool.max
  }

  lemma StepNotRefused(s: Crew, key: string, a: Action)
    requires CrewOk(s, key) && Roomy(s) && !s.refused && !a.NextStage?
    ensures Roomy(Step(s, key, a)) && !Step(s, key, a).refused
  {
    if a.TryAcquire? && Possible(s, a) {
      AcquireEffect(s.pool, key);
      ActiveSet(s.workers, a.w, Gone);
    }
  }

  lemma {:induction false} NeverRefused(s: Crew, key: string, actions: seq<Action>)
    requires CrewOk(s, key) && Roomy(s) && !s.refused && WithinStage(actions)
    ensures !Run(s, key, actions).refused
    decreases |actions|
  {
    if actions != [] {
      var a := actions[0];
      StepOk(s, key, a);
      StepNotRefused(s, key, a);
      NeverRefused(Step(s, key, a), key, actions[1..]);
    }
  }

  /** The first `k` workers have a client, the others have not tried. */
  ghost predicate InTurn(s: Crew, key: string, k: nat) {
    && CrewOk(s, key) && k <= |s.workers| && |s.pool.borrowed| == k && |s.pool.dropped| == s.before
    && (forall i :: k <= i < |s.workers| ==> s.workers[i].Waiting?)
  }

  lemma RunCons(s: Crew, key: string, a: Action, t: Crew, rest: seq<Action>)
    requires Step(s, key, a) == t
    ensures Run(s, key, [a] + rest) == Run(t, key, rest)
  {
    assert ([a] + rest)[1..] == rest;
  }

  /** The parts of a turn that the count needs. */
  lemma AcquiredOne(w: World, key: string)
    requires Inv(w) && OneKey(w.queues, key)
    ensures var (v, client) := Acquire(w, key);
            v.max == w.max && v.dropped == w.dropped && (client.Some? ==> |v.borrowed| == |w.borrowed| + 1)
  {
    AcquireEffect(w, key);
  }

  lemma TurnEffect(s: Crew, key: string, k: nat)
    requires InTurn(s, key, k) && k < |s.workers|
    ensures var t := Acquiring(s, key, k);
            && t.before == s.before && t.pool.max == s.pool.max && |t.workers| == |s.workers|
            && (t.refused || InTurn(t, key, k + 1))
  {
    AcquiredOne(s.pool, key);
    if Acquire(s.pool, key).1.Some? {
      var t := Acquiring(s, key, k);
      assert CrewOk(t, key) by {
        GetsClient(s, key, k);
      }
      assert t.workers == s.workers[k := Holding(Acquire(s.pool, key).1.value, false)];
    }
  }

  lemma TakesTurn(s: Crew, key: string, k: nat) returns (t: Crew)
    requires InTurn(s, key, k) && k < |s.workers|
    ensures Step(s, key, TryAcquire(k)) == t
    ensures t.before == s.before && t.pool.max == s.pool.max && |t.workers| == |s.workers|
    ensures t.refused || InTurn(t, key, k + 1)
  {
    t := Acquiring(s, key, k);
    TurnEffect(s, key, k);
  }

  lemma WithinLimit(s: Crew, key: string)
    requires CrewOk(s, key)
    ensures |s.pool.borrowed| + |s.pool.dropped| <= s.pool.max
  {
  }

  /** Without room, the workers acquiring one after another exhaust the pool. */
  lemma {:induction false} Exhausts(s: Crew, key: string, k: nat) returns (actions: seq<Action>)
    requires InTurn(s, key, k) && !Roomy(s)
    ensures WithinStage(actions) && Run(s, key, actions).refused
    decreases |s.workers| - k
  {
    WithinLimit(s, key);
    var t := TakesTurn(s, key, k);
    var rest := [];
    if !t.refused {
      rest := Exhausts(t, key, k + 1);
    }
    actions := [TryAcquire(k)] + rest;
    RunCons(s, key, TryAcquire(k), t, rest);
  }

  lemma {:induction false} RunKeepsMax(s: Crew, key: string, actions: seq<Action>)
    ensures Run(s, key, actions).pool.max == s.pool.max
    decreases |actions|
  {
    if actions != [] {
      RunKeepsMax(Step(s, key, actions[0]), key, actions[1..]);
    }
  }

  /**
   Take any run, at the start of any stage. Every worker of the stage gets its client at its first try, whatever the
   workers do and in whatever order, exactly when the stage's workers and the clients dropped so far together are
   within the limit of the pool.
   */
  lemma FirstTryTheorem(max: nat, timeout: int, clock: int, key: string, past: seq<Action>, users: nat)
    requires AllGone(Run(Initial(max, timeout, clock), key, past).workers)
    ensures var s := NextCrew(Run(Initial(max, timeout, clock), key, past), users);
            (forall actions :: WithinStage(actions) ==> !Run(s, key, actions).refused) <==>
            users + |s.pool.dropped| <= max
  {
    RunKeepsMax(Initial(max, timeout, clock), key, past);
    var first := Initial(max, timeout, clock);
    assert CrewOk(first, key);
    RunOk(first, key, past);
    var r := Run(first, key, past);
    NextCrewOk(r, key, users);
    var s := NextCrew(r, users);
    if Roomy(s) {
      forall actions | WithinStage(actions)
        ensures !Run(s, key, actions).refused
      {
        NeverRefused(s, key, actions);
      }
    } else {
      var actions := Exhausts(s, key, 0);
      assert WithinStage(actions) && Run(s, key, actions).refused;
    }
  }

  function Tries(w: nat, n: nat): seq<Action> {
    if n == 0 then [] else [TryAcquire(w)] + Tries(w, n - 1)
  }

  ghost predicate Exhausted(s: Crew, key: string) {
    CrewOk(s, key) && |s.pool.borrowed| + |s.pool.dropped| == s.pool.max
  }

  lemma RefusalOk(s: Crew, key: string, w: nat)
    requires Exhausted(s, key) && w < |s.workers| && s.workers[w].Waiting?
    ensures Exhausted(Acquiring(s, key, w), key) && Acquire(s.pool, key).1.None?
  {
    AcquireEffect(s.pool, key);
    GetsNone(s, key, w);
  }

  lemma Refusal(s: Crew, key: string, w: nat) returns (t: Crew)
    requires Exhausted(s, key) && w < |s.workers| && s.workers[w].Waiting?
    ensures Step(s, key, TryAcquire(w)) == t && Exhausted(t, key) && |t.workers| == |s.workers|
    ensures s.workers[w].tries + 1 < MAX_TRIES ==>
              t.workers[w] == Waiting(s.workers[w].tries + 1) && t.failed == s.failed
    ensures s.workers[w].tries + 1 >= MAX_TRIES ==> t.workers[w].Gone? && t.failed == s.failed + 1
  {
    t := Acquiring(s, key, w);
    RefusalOk(s, key, w);
  }

  /** A worker that finds the pool exhausted asks on, and fails at the two hundredth refusal, no earlier. */
  lemma {:induction false} Starves(s: Crew, key: string, w: nat, n: nat)
    requires Exhausted(s, key) && w < |s.workers| && s.workers[w].Waiting?
    requires n > 0 && s.workers[w].tries + n <= MAX_TRIES
    ensures var t := Run(s, key, Tries(w, n));
            && |t.workers| == |s.workers|
            && if s.workers[w].tries + n == MAX_TRIES then t.workers[w].Gone? && t.failed == s.failed + 1
               else t.workers[w] == Waiting(s.workers[w].tries + n) && t.failed == s.failed
    decreases n
  {
    var t := Refusal(s, key, w);
    RunCons(s, key, TryAcquire(w), t, Tries(w, n - 1));
    if n > 1 {
      Starves(t, key, w, n - 1);
    }
  }

  /** A worker that fails: by an exception, with or without a client, or at its two hundredth refusal. */
  ghost predicate Fails(s: Crew, key: string, a: Action) {
    && Possible(s, a)
    && (a.Throw? || a.GiveUp? ||
        (a.TryAcquire? && s.workers[a.w].tries >= 199 && |s.pool.borrowed| + |s.pool.dropped| == s.pool.max))
  }

  ghost function Failures(s: Crew, key: string, actions: seq<Action>): nat
    decreases |actions|
  {
    if actions == [] then 0
    else (if Fails(s, key, actions[0]) then 1 else 0) + Failures(Step(s, key, actions[0]), key, actions[1..])
  }

  lemma RefusedFails(s: Crew, key: string, w: nat)
    requires CrewOk(s, key) && Possible(s, TryAcquire(w))
    ensures var t := Acquiring(s, key, w);
            if s.workers[w].tries >= 199 && |s.pool.borrowed| + |s.pool.dropped| == s.pool.max
            then t.failed == s.failed + 1 && t.workers == s.workers[w := Gone] else t.failed == s.failed
  {
    AcquireEffect(s.pool, key);
  }

  lemma StepFails(s: Crew, key: string, a: Action)
    requires CrewOk(s, key)
    ensures Step(s, key, a).failed == s.failed + if Fails(s, key, a) then 1 else 0
    ensures Fails(s, key, a) ==> Step(s, key, a).workers == s.workers[a.w := Gone]
  {
    if a.TryAcquire? && Possible(s, a) {
      RefusedFails(s, key, a.w);
    }
  }

  /** In every run each failure of a worker is counted once, and nothing else is. */
  lemma {:induction false} FailuresCounted(s: Crew, key: string, actions: seq<Action>)
    requires CrewOk(s, key)
    ensures Run(s, key, actions).failed == s.failed + Failures(s, key, actions)
    decreases |actions|
  {
    if actions != [] {
      StepFails(s, key, actions[0]);
      StepOk(s, key, actions[0]);
      FailuresCounted(Step(s, key, actions[0]), key, actions[1..]);
    }
  }

  // ----- How large the engine makes its pool

  const DEFAULT_USERS: int := 10
  const MAX_USERS: int := 100_000

  function Clamp(users: nat): (n: nat)
    ensures 1 <= n <= MAX_USERS
  {
    if users < 1 then 1 else if users > MAX_USERS then MAX_USERS else users
  }

  /** The workers of a stage that gives no number: those of the first stage. */
  function Usual(users: seq<nat>): nat {
    Clamp(if users == [] || users[0] == 0 then DEFAULT_USERS else users[0])
  }

  function Asked(users: seq<nat>, i: nat): nat
    requires i < |users|
  {
    if users[i] > 0 then users[i] else Usual(users)
  }

  /** How many workers a stage gets: what it asks for, else what the first stage does, else ten; at most 100000. */
  lemma WorkersOfStage(users: seq<nat>, i: nat)
    requires i < |users|
    ensures var asked := if users[i] > 0 then users[i] else if users[0] > 0 then users[0] else 10;
            Clamp(Asked(users, i)) == if asked > 100_000 then 100_000 else asked
  {
  }

  /** The limit is what the largest stage asks for, so no stage has more workers. */
  method PoolLimit(users: seq<nat>) returns (limit: nat)
    ensures Covers(limit, users)
    ensures limit == Usual(users) || exists i :: 0 <= i < |users| && Asked(users, i) == limit
  {
    limit := Usual(users);
    for k := 0 to |users|
      invariant Usual(users) <= limit
      invariant forall i :: 0 <= i < k ==> Asked(users, i) <= limit
      invariant limit == Usual(users) || exists i :: 0 <= i < k && Asked(users, i) == limit
    {
      var c := if users[k] > 0 then users[k] else Usual(users);
      if c > limit {
        limit := c;
        assert Asked(users, k) == limit;
      }
    }
  }

  /** What `PoolLimit` promises of the limit that the engine gives its pool. */
  ghost predicate Covers(limit: nat, users: seq<nat>) {
    forall i :: 0 <= i < |users| ==> Clamp(Asked(users, i)) <= limit
  }

  /** The stages that the run starts are those of the profile, in any number and order. */
  ghost predicate Follows(actions: seq<Action>, users: seq<nat>) {
    forall k :: 0 <= k < |actions| && actions[k].NextStage? ==>
      exists i :: 0 <= i < |users| && actions[k].users == Clamp(Asked(users, i))
  }

  lemma DropsStay(s: Crew, key: string, a: Action)
    ensures s.pool.dropped <= Step(s, key, a).pool.dropped
  {
  }

  lemma {:induction false} DropsStayDropped(s: Crew, key: string, actions: seq<Action>)
    ensures s.pool.dropped <= Run(s, key, actions).pool.dropped
    decreases |actions|
  {
    if actions != [] {
      DropsStay(s, key, actions[0]);
      DropsStayDropped(Step(s, key, actions[0]), key, actions[1..]);
    }
  }

  lemma FollowsRest(actions: seq<Action>, users: seq<nat>)
    requires Follows(actions, users) && actions != []
    ensures Follows(actions[1..], users)
  {
    forall k | 0 <= k < |actions[1..]| && actions[1..][k].NextStage?
      ensures exists i :: 0 <= i < |users| && actions[1..][k].users == Clamp(Asked(users, i))
    {
      assert actions[1..][k] == actions[k + 1];
    }
  }

  /** Every worker of the stage has got its client so far, and every one still waiting will. */
  ghost predicate Serving(s: Crew, key: string) {
    CrewOk(s, key) && Roomy(s) && !s.refused
  }

  lemma StepServes(s: Crew, key: string, a: Action)
    requires Serving(s, key) && (a.NextStage? ==> a.users + |s.pool.dropped| <= s.pool.max)
    ensures Serving(Step(s, key, a), key)
  {
    StepOk(s, key, a);
    if !a.NextStage? {
      StepNotRefused(s, key, a);
    }
  }

  lemma StepKeepsLimit(s: Crew, key: string, a: Action)
    ensures Step(s, key, a).pool.max == s.pool.max
  {
  }

  lemma {:induction false} ServesAll(s: Crew, key: string, users: seq<nat>, actions: seq<Action>)
    requires Serving(s, key)
    requires Covers(s.pool.max, users) && Follows(actions, users) && Run(s, key, actions).pool.dropped == {}
    ensures !Run(s, key, actions).refused
    decreases |actions|
  {
    if actions != [] {
      DropsStayDropped(s, key, actions);
      assert actions[0].NextStage? ==> actions[0].users <= s.pool.max;
      StepServes(s, key, actions[0]);
      StepKeepsLimit(s, key, actions[0]);
      FollowsRest(actions, users);
      ServesAll(Step(s, key, actions[0]), key, users, actions[1..]);
    }
  }

  /** With the limit that the engine chooses, a run that has dropped no client has refused none to any worker. */
  lemma EngineRefusesNobody(users: seq<nat>, limit: nat, timeout: int, clock: int, key: string, actions: seq<Action>)
    requires Covers(limit, users) && Follows(actions, users)
    requires Run(Initial(limit, timeout, clock), key, actions).pool.dropped == {}
    ensures !Run(Initial(limit, timeout, clock), key, actions).refused
  {
    ServesAll(Initial(limit, timeout, clock), key, users, actions);
  }

  /** The workers with a request under way. */
  function Busy(ws: seq<Worker>): nat {
    if ws == [] then 0 else Busy(ws[..|ws| - 1]) + InFlight(ws[|ws| - 1])
  }

  function InFlight(x: Worker): nat {
    if x.Holding? && x.inFlight then 1 else 0
  }

  /** The deadline: the workers from the `n`-th down to the first leave. */
  function Departures(n: nat, now: int): seq<Action> {
    if n == 0 then [] else [Leave(n - 1, now)] + Departures(n - 1, now)
  }

  /** The first `n` workers are all that is left. */
  ghost predicate Leavable(s: Crew, n: nat, now: int) {
    && n <= |s.workers| && s.pool.clock <= now
    && (forall i :: 0 <= i < n ==> !s.workers[i].Waiting?) && (forall i :: n <= i < |s.workers| ==> s.workers[i].Gone?)
  }

  lemma HolderLeaves(s: Crew, key: string, w: nat, now: int)
    requires CrewOk(s, key) && Possible(s, Leave(w, now))
    ensures var t := Leaving(s, key, w, now);
            && CrewOk(t, key) && t.pool.clock <= now
            && |t.pool.dropped| == |s.pool.dropped| + InFlight(s.workers[w])
  {
    LeavingOk(s, key, w, now);
    var client := s.workers[w].client;
    assert client in s.pool.borrowed && client !in s.pool.dropped;
  }

  lemma OneLeaves(s: Crew, key: string, n: nat, now: int) returns (t: Crew)
    requires CrewOk(s, key) && n > 0 && Leavable(s, n, now)
    ensures Step(s, key, Leave(n - 1, now)) == t && CrewOk(t, key) && Leavable(t, n - 1, now)
    ensures t.workers[..n - 1] == s.workers[..n - 1]
    ensures |t.pool.dropped| == |s.pool.dropped| + InFlight(s.workers[n - 1])
  {
    if s.workers[n - 1].Gone? {
      t := s;
    } else {
      t := Leaving(s, key, n - 1, now);
      HolderLeaves(s, key, n - 1, now);
    }
  }

  lemma {:induction false} AllLeave(s: Crew, key: string, n: nat, now: int)
    requires CrewOk(s, key) && Leavable(s, n, now)
    ensures var t := Run(s, key, Departures(n, now));
            AllGone(t.workers) && |t.pool.dropped| == |s.pool.dropped| + Busy(s.workers[..n])
    decreases n
  {
    if n > 0 {
      var t := OneLeaves(s, key, n, now);
      RunCons(s, key, Leave(n - 1, now), t, Departures(n - 1, now));
      AllLeave(t, key, n - 1, now);
      assert s.workers[..n][..n - 1] == s.workers[..n - 1];
    }
  }

  lemma {:induction false} RunJoin(s: Crew, key: string, a: seq<Action>, b: seq<Action>)
    ensures Run(s, key, a + b) == Run(Run(s, key, a), key, b)
    decreases |a|
  {
    if a == [] {
      assert a + b == b;
    } else {
      assert (a + b)[1..] == a[1..] + b;
      RunJoin(Step(s, key, a[0]), key, a[1..], b);
    }
  }

  /**
   Take any run up to a deadline that finds every worker at work or gone. After it, every worker of a next stage gets
   its client at its first try in every interleaving, exactly when the stage's workers, the clients dropped before
   and those the deadline caught with a request under way are together within the limit of the pool.
   */
  lemma DeadlineTheorem(max: nat, timeout: int, clock: int, key: string, past: seq<Action>, now: int, users: nat)
    requires var s := Run(Initial(max, timeout, clock), key, past); Leavable(s, |s.workers|, now)
    ensures var s := Run(Initial(max, timeout, clock), key, past);
            var next := NextCrew(Run(s, key, Departures(|s.workers|, now)), users);
            (forall actions :: WithinStage(actions) ==> !Run(next, key, actions).refused) <==>
            users + |s.pool.dropped| + Busy(s.workers) <= max
  {
    var first := Initial(max, timeout, clock);
    RunOk(first, key, past);
    var s := Run(first, key, past);
    var n := |s.workers|;
    AllLeave(s, key, n, now);
    assert s.workers[..n] == s.workers;
    RunJoin(first, key, past, Departures(n, now));
    FirstTryTheorem(max, timeout, clock, key, past + Departures(n, now), users);
  }

  // ----- Requests answered in time

  /** The workers that owe an answer after one more action: it tells from what they did, not from any flag. */
  function Owing(s: Crew, owes: set<nat>, a: Action): set<nat> {
    match a
    case TryAcquire(w) => if w < |s.workers| && s.workers[w].Waiting? then owes - {w} else owes
    case Send(w) => if w < |s.workers| && s.workers[w].Holding? then owes + {w} else owes
    case Answer(w) => owes - {w}
    case NextStage(_) => if AllGone(s.workers) then {} else owes
    case _ => owes
  }

  /** The workers whose last request, since they got their client, has had no answer after a run. */
  function Owes(s: Crew, key: string, owes: set<nat>, actions: seq<Action>): set<nat>
    decreases |actions|
  {
    if actions == [] then owes else Owes(Step(s, key, actions[0]), key, Owing(s, owes, actions[0]), actions[1..])
  }

  ghost predicate OwesOk(s: Crew, owes: set<nat>) {
    forall w :: 0 <= w < |s.workers| && s.workers[w].Holding? ==> (s.workers[w].inFlight <==> w in owes)
  }

  /** A worker still waiting for its client may be in the set; it leaves it when it gets one. */
  lemma OwesStep(s: Crew, key: string, owes: set<nat>, a: Action)
    requires OwesOk(s, owes)
    ensures OwesOk(Step(s, key, a), Owing(s, owes, a))
  {
  }

  lemma {:induction false} OwesRun(s: Crew, key: string, owes: set<nat>, actions: seq<Action>)
    requires OwesOk(s, owes)
    ensures OwesOk(Run(s, key, actions), Owes(s, key, owes, actions))
    decreases |actions|
  {
    if actions != [] {
      OwesStep(s, key, owes, actions[0]);
      OwesRun(Step(s, key, actions[0]), key, Owing(s, owes, actions[0]), actions[1..]);
    }
  }

  /**
   At the end of every run, a worker that leaves in the ordinary way puts its client into the pool exactly if every
   request it has sent with it was answered, and drops it otherwise.
   */
  lemma LeaveTheorem(max: nat, timeout: int, clock: int, key: string, past: seq<Action>, w: nat, now: int)
    requires Possible(Run(Initial(max, timeout, clock), key, past), Leave(w, now))
    ensures var first := Initial(max, timeout, clock);
            var s := Run(first, key, past);
            var pool := Step(s, key, Leave(w, now)).pool;
            && (s.workers[w].client in IdleClients(pool.queues) <==> w !in Owes(first, key, {}, past))
            && (s.workers[w].client in pool.dropped <==> w in Owes(first, key, {}, past))
  {
    var first := Initial(max, timeout, clock);
    RunOk(first, key, past);
    OwesRun(first, key, {}, past);
    LeavingOk(Run(first, key, past), key, w, now);
  }

  /** No worker leaves in the ordinary way while it owes an answer. */
  predicate Settles(s: Crew, key: string, owes: set<nat>, actions: seq<Action>)
    decreases |actions|
  {
    actions == [] ||
    (&& (actions[0].Leave? && Possible(s, actions[0]) ==> actions[0].w !in owes)
     && Settles(Step(s, key, actions[0]), key, Owing(s, owes, actions[0]), actions[1..]))
  }

  lemma SettledDropsNothing(s: Crew, key: string, owes: set<nat>, a: Action)
    requires OwesOk(s, owes) && s.pool.dropped == {}
    requires a.Leave? && Possible(s, a) ==> a.w !in owes
    ensures Step(s, key, a).pool.dropped == {}
  {
  }

  lemma {:induction false} SettlingDropsNothing(s: Crew, key: string, owes: set<nat>, actions: seq<Action>)
    requires OwesOk(s, owes) && s.pool.dropped == {} && Settles(s, key, owes, actions)
    ensures Run(s, key, actions).pool.dropped == {}
    decreases |actions|
  {
    if actions != [] {
      OwesStep(s, key, owes, actions[0]);
      SettledDropsNothing(s, key, owes, actions[0]);
      SettlingDropsNothing(Step(s, key, actions[0]), key, Owing(s, owes, actions[0]), actions[1..]);
    }
  }

  /**
   A run of the engine's stages in which every request is answered before its worker leaves drops no client, and so
   refuses none to any worker.
   */
  lemma AnsweredInTime(users: seq<nat>, limit: nat, timeout: int, clock: int, key: string, actions: seq<Action>)
    requires Covers(limit, users) && Follows(actions, users)
    requires Settles(Initial(limit, timeout, clock), key, {}, actions)
    ensures var s := Run(Initial(limit, timeout, clock), key, actions); s.pool.dropped == {} && !s.refused
  {
    SettlingDropsNothing(Initial(limit, timeout, clock), key, {}, actions);
    EngineRefusesNobody(users, limit, timeout, clock, key, actions);
  }

  // ----- What the pool does not guard against

  /** A client dropped in flight is never made up for: a later stage within the limit can run out of clients. */
  lemma DropStarvesLaterStage(timeout: int, key: string) returns (past: seq<Action>, actions: seq<Action>)
    ensures AllGone(Run(Initial(1, timeout, 0), key, past).workers)
    ensures forall i :: 0 <= i < |past| ==> !past[i].Throw?
    ensures Run(NextCrew(Run(Initial(1, timeout, 0), key, past), 1), key, actions).refused
  {
    var s0 := Initial(1, timeout, 0);
    var s1 := NextCrew(s0, 1);
    var s2 := Acquiring(s1, key, 0);
    var s3 := Sending(s2, 0);
    var s4 := Leaving(s3, key, 0, 0);
    RunCons(s3, key, Leave(0, 0), s4, []);
    RunCons(s2, key, Send(0), s3, [Leave(0, 0)] + []);
    RunCons(s1, key, TryAcquire(0), s2, [Send(0)] + ([Leave(0, 0)] + []));
    past := [NextStage(1)] + ([TryAcquire(0)] + ([Send(0)] + ([Leave(0, 0)] + [])));
    RunCons(s0, key, NextStage(1), s1, [TryAcquire(0)] + ([Send(0)] + ([Leave(0, 0)] + [])));
    assert Run(s0, key, past) == s4;
    var s5 := NextCrew(s4, 1);
    actions := [TryAcquire(0)] + [];
    RunCons(s5, key, TryAcquire(0), Acquiring(s5, key, 0), []);
  }

  /** An exception returns a client to the pool with its request still under way. */
  lemma ThrowTaints(timeout: int, key: string) returns (actions: seq<Action>)
    ensures var s := Run(Initial(1, timeout, 0), key, actions);
            0 in IdleClients(s.pool.queues) && 0 in s.unanswered
  {
    var s0 := Initial(1, timeout, 0);
    var s1 := NextCrew(s0, 1);
    var s2 := Acquiring(s1, key, 0);
    var s3 := Sending(s2, 0);
    var s4 := Throwing(s3, key, 0, 0);
    RunCons(s3, key, Throw(0, 0), s4, []);
    RunCons(s2, key, Send(0), s3, [Throw(0, 0)] + []);
    RunCons(s1, key, TryAcquire(0), s2, [Send(0)] + ([Throw(0, 0)] + []));
    actions := [NextStage(1)] + ([TryAcquire(0)] + ([Send(0)] + ([Throw(0, 0)] + [])));
    RunCons(s0, key, NextStage(1), s1, [TryAcquire(0)] + ([Send(0)] + ([Throw(0, 0)] + [])));
    assert s4.pool.queues[key][0].client == 0;
  }
}
