/**
 Progress of the latency ring: when an undisturbed record completes, when it evicts, and when it cannot go on.
 */
module RingProgress {
  import opened Registers
  import opened LatencyRing
  import opened RingSafety
  import opened RingScan

  // ----- Progress and eviction

  ghost predicate Full(s: State) {
    s.tail == s.head + CAPACITY
  }

  /** `n` uninterrupted steps of producer `p`. */
  function Solo(p: nat, n: nat): seq<Action> {
    seq(n, _ => Step(p, false))
  }

  /** Producer `p` alone leads the ring through these states, one step each. */
  ghost predicate Path(p: nat, path: seq<State>) {
    && |path| > 0
    && forall i :: 0 <= i < |path| - 1 ==>
         p < |path[i].producers| && path[i + 1] == ProducerStep(path[i], p, false)
  }

  lemma {:induction false} PathIsSchedule(p: nat, path: seq<State>)
    requires Path(p, path)
    ensures Run(path[0], Solo(p, |path| - 1)) == path[|path| - 1]
    decreases |path|
  {
    if |path| > 1 {
      assert Solo(p, |path| - 1)[1..] == Solo(p, |path| - 2);
      assert path[1] == ProducerStep(path[0], p, false);
      PathIsSchedule(p, path[1..]);
    }
  }

  /** The oldest ticket, once published, is evicted by the retry loop; the tail value is then loaded afresh. */
  lemma EvictionPath(s: State, p: nat, v: int, t: nat) returns (path: seq<State>)
    requires p < |s.producers| && s.producers[p] == LoadHead(v, t) && Low(t - s.head) >= CAPACITY
    requires s.cells[Slot(s.head)].seqno == s.head + 1
    ensures |path| == 5 && Path(p, path) && path[0] == s
    ensures path[4] == SetProducer(s, p, LoadHead(v, s.tail)).(head := s.head + 1)
  {
    path := [
      s,
      SetProducer(s, p, CheckSeq(v, s.head)),
      SetProducer(s, p, CasHead(v, s.head)),
      SetProducer(s, p, ReloadTail(v)).(head := s.head + 1),
      SetProducer(s, p, LoadHead(v, s.tail)).(head := s.head + 1)
    ];
    assert path[1] == ProducerStep(path[0], p, false) && path[2] == ProducerStep(path[1], p, false);
    assert path[3] == ProducerStep(path[2], p, false) && path[4] == ProducerStep(path[3], p, false);
  }

  lemma ClaimPath(s: State, p: nat, v: int) returns (path: seq<State>)
    requires |s.log| == s.tail && s.head <= s.tail < s.head + CAPACITY
    requires p < |s.producers| && s.producers[p] == LoadHead(v, s.tail)
    ensures |path| == 5 && Path(p, path) && path[0] == s && path[4] == Claimed(s, p, v)
  {
    var s2 := SetProducer(s.(tail := s.tail + 1, log := s.log + [Ticket(v, false)]), p, WriteValue(v, s.tail));
    var s3 := SetProducer(s2.(cells := s2.cells[Slot(s.tail) := s2.cells[Slot(s.tail)].(value := v)]),
                          p, Publish(v, s.tail));
    assert s3.log[s.tail := Ticket(v, true)] == s.log + [Ticket(v, true)];
    path := [s, SetProducer(s, p, CasTail(v, s.tail, s.head)), s2, s3, Claimed(s, p, v)];
    assert path[1] == ProducerStep(path[0], p, false) && path[2] == ProducerStep(path[1], p, false);
    assert path[3] == ProducerStep(path[2], p, false) && path[4] == ProducerStep(path[3], p, false);
  }

  /** `s` with one more published ticket, and its producer done. */
  function Claimed(s: State, p: nat, v: int): State
    requires p < |s.producers|
  {
    s.(tail := s.tail + 1,
       log := s.log + [Ticket(v, true)],
       cells := s.cells[Slot(s.tail) := Cell(s.tail + 1, v)],
       producers := s.producers[p := Idle])
  }

  /** The schedule of one record that no other thread interrupts. */
  ghost function SoloRecord(s: State, p: nat, v: int): seq<Action> {
    [Record(p, v)] + Solo(p, if Full(s) then 8 else 4)
  }

  lemma RecordThenSolo(p: nat, v: int, s: State, path: seq<State>)
    requires Path(p, path) && p < |s.producers| && s.producers[p].Idle? && path[0] == Begin(s, p, v)
    ensures Run(s, [Record(p, v)] + Solo(p, |path| - 1)) == path[|path| - 1]
  {
    PathIsSchedule(p, path);
    assert ([Record(p, v)] + Solo(p, |path| - 1))[1..] == Solo(p, |path| - 1);
  }

  lemma PathJoin(p: nat, first: seq<State>, second: seq<State>)
    requires Path(p, first) && Path(p, second) && first[|first| - 1] == second[0]
    ensures Path(p, first + second[1..])
  {
    var path := first + second[1..];
    forall i | 0 <= i < |path| - 1
      ensures p < |path[i].producers| && path[i + 1] == ProducerStep(path[i], p, false)
    {
      if i >= |first| - 1 {
        var j := i - |first| + 1;
        assert path[i] == second[j] && path[i + 1] == second[j + 1];
      }
    }
  }

  lemma FullRecordPath(s: State, p: nat, v: int) returns (path: seq<State>)
    requires |s.log| == s.tail && Full(s) && s.cells[Slot(s.head)].seqno == s.head + 1
    requires p < |s.producers| && s.producers[p] == LoadHead(v, s.tail)
    ensures |path| == 9 && Path(p, path) && path[0] == s
    ensures path[8] == Claimed(s, p, v).(head := s.head + 1)
  {
    var s1 := s.(head := s.head + 1);
    var evict := EvictionPath(s, p, v, s.tail);
    assert evict[4] == s1;
    var claim := ClaimPath(s1, p, v);
    PathJoin(p, evict, claim);
    path := evict + claim[1..];
  }

  lemma FullSoloRecord(s: State, p: nat, v: int)
    requires |s.log| == s.tail && Full(s) && s.cells[Slot(s.head)].seqno == s.head + 1
    requires p < |s.producers| && s.producers[p].Idle?
    ensures Run(s, [Record(p, v)] + Solo(p, 8)) == Claimed(s, p, v).(head := s.head + 1)
  {
    var path := FullRecordPath(Begin(s, p, v), p, v);
    RecordThenSolo(p, v, s, path);
    assert path[8] == Claimed(s, p, v).(head := s.head + 1);
  }

  lemma RoomySoloRecord(s: State, p: nat, v: int)
    requires |s.log| == s.tail && s.head <= s.tail < s.head + CAPACITY
    requires p < |s.producers| && s.producers[p].Idle?
    ensures Run(s, [Record(p, v)] + Solo(p, 4)) == Claimed(s, p, v)
  {
    var path := ClaimPath(Begin(s, p, v), p, v);
    RecordThenSolo(p, v, s, path);
    assert path[4] == Claimed(s, p, v);
  }

  /** The oldest ticket of a full ring carries its own sequence number once it is published. */
  lemma OldestIsReady(s: State)
    requires Inv(s) && Full(s) && s.log[s.head].published
    ensures s.cells[Slot(s.head)].seqno == s.head + 1
  {
    assert CellOk(s, s.head);
  }

  /**
   An uninterrupted record appends exactly one published ticket, and evicts one only if the ring was full. It needs
   nothing of the other producers except that, in a full ring, the oldest ticket is not still being written.
   */
  lemma SoloRecordTheorem(s: State, p: nat, v: int)
    requires Inv(s) && p < |s.producers| && s.producers[p].Idle?
    requires Full(s) ==> s.log[s.head].published
    ensures Run(s, SoloRecord(s, p, v)) == Claimed(s, p, v).(head := if Full(s) then s.head + 1 else s.head)
  {
    if Full(s) {
      OldestIsReady(s);
      FullSoloRecord(s, p, v);
    } else {
      RoomySoloRecord(s, p, v);
    }
  }

  // ----- What the retry loop finds

  /** The fullness test succeeds for a full ring, and by wrap-around for a tail value older than the head. */
  lemma LooksFullExactly(s: State, p: nat, v: int, t: nat)
    requires Inv(s) && Fresh(s) && p < |s.producers| && s.producers[p] == LoadHead(v, t)
    ensures Low(t - s.head) >= CAPACITY <==> t < s.head || (Full(s) && t == s.tail)
    ensures ProducerStep(s, p, false).producers[p].CheckSeq? <==> t < s.head || (Full(s) && t == s.tail)
  {
    assert RecentProducer(s, s.producers[p]) && ProducerOk(s, s.producers[p]);
  }

  /** The cell of the oldest ticket matches exactly when that ticket is live and published. */
  lemma OldestMatchesExactly(s: State)
    requires Inv(s)
    ensures Low(s.cells[Slot(s.head)].seqno) == Low(s.head + 1) <==> s.head < s.tail && s.log[s.head].published
    ensures s.head < s.tail && s.log[s.head].published ==> s.cells[Slot(s.head)].seqno == s.head + 1
  {
    if s.head < s.tail {
      assert CellOk(s, s.head);
    } else {
      var k := s.head - CAPACITY;
      assert CellOk(s, k) && Slot(k) == Slot(s.head);
    }
  }

  lemma LowApart(a: int, b: int)
    requires a != b && -WORD < a - b < WORD
    ensures Low(a) != Low(b)
  {
    if Low(a) == Low(b) {
      LowInjective(a, b);
    }
  }

  lemma SoloStep(s: State, p: nat, n: nat)
    requires p < |s.producers| && n > 0
    ensures Run(s, Solo(p, n)) == Run(ProducerStep(s, p, false), Solo(p, n - 1))
  {
    assert Solo(p, n)[1..] == Solo(p, n - 1);
  }

  // ----- Evictions from a ring that is not full

  lemma MismatchPath(s: State, p: nat, v: int, t: nat) returns (path: seq<State>)
    requires p < |s.producers| && s.producers[p] == LoadHead(v, t) && s.head <= s.tail < s.head + CAPACITY
    requires Low(t - s.head) >= CAPACITY && Low(s.cells[Slot(s.head)].seqno) != Low(s.head + 1)
    ensures |path| == 5 && Path(p, path) && path[0] == s && path[4].head == s.head
  {
    path := [
      s,
      SetProducer(s, p, CheckSeq(v, s.head)),
      SetProducer(s, p, ReloadTail(v)),
      SetProducer(s, p, LoadHead(v, s.tail)),
      SetProducer(s, p, CasTail(v, s.tail, s.head))
    ];
    assert path[1] == ProducerStep(path[0], p, false) && path[2] == ProducerStep(path[1], p, false);
    assert path[3] == ProducerStep(path[2], p, false) && path[4] == ProducerStep(path[3], p, false);
  }

  lemma FailedClaimPath(s: State, p: nat, v: int, t: nat) returns (path: seq<State>)
    requires p < |s.producers| && s.producers[p] == LoadHead(v, t) && s.head <= s.tail < s.head + CAPACITY
    requires Low(t - s.head) < CAPACITY && Low(t) != Low(s.tail)
    ensures |path| == 5 && Path(p, path) && path[0] == s && path[4].head == s.head
  {
    path := [
      s,
      SetProducer(s, p, CasTail(v, t, s.head)),
      SetProducer(s, p, LoadHead(v, s.tail)),
      SetProducer(s, p, CasTail(v, s.tail, s.head)),
      SetProducer(s.(tail := s.tail + 1, log := s.log + [Ticket(v, false)]), p, WriteValue(v, s.tail))
    ];
    assert path[1] == ProducerStep(path[0], p, false) && path[2] == ProducerStep(path[1], p, false);
    assert path[3] == ProducerStep(path[2], p, false) && path[4] == ProducerStep(path[3], p, false);
  }

  /**
   A record at its fullness test evicts a ticket of a ring that is not full exactly when the tail value it works with
   is older than the head, and the oldest live ticket is published.
   */
  lemma EvictsEarlyExactly(s: State, p: nat, v: int, t: nat)
    requires Inv(s) && Fresh(s) && p < |s.producers| && s.producers[p] == LoadHead(v, t) && !Full(s)
    ensures Run(s, Solo(p, 4)).head ==
            if t < s.head && s.head < s.tail && s.log[s.head].published then s.head + 1 else s.head
  {
    LooksFullExactly(s, p, v, t);
    OldestMatchesExactly(s);
    if t < s.head {
      if s.head < s.tail && s.log[s.head].published {
        var path := EvictionPath(s, p, v, t);
        PathIsSchedule(p, path);
      } else {
        var path := MismatchPath(s, p, v, t);
        PathIsSchedule(p, path);
      }
    } else if t == s.tail {
      var path := ClaimPath(s, p, v);
      PathIsSchedule(p, path);
    } else {
      assert ProducerOk(s, s.producers[p]) && RecentProducer(s, s.producers[p]);
      LowApart(t, s.tail);
      var path := FailedClaimPath(s, p, v, t);
      PathIsSchedule(p, path);
    }
  }

  // ----- From any point of a record to its end

  /** The writer of the oldest ticket of a full ring has not published it yet. */
  ghost predicate Blocked(s: State)
    requires Inv(s)
  {
    Full(s) && !s.log[s.head].published
  }

  /** Steps to the end from the head of the retry loop, with the tail just loaded. */
  function FromLoop(s: State): nat {
    if s.tail == s.head + CAPACITY then 8 else 4
  }

  /** An upper bound on the steps that a record of its own still takes, if it is not blocked. */
  ghost function Left(s: State, p: Producer): nat
    requires Inv(s)
  {
    match p
    case Idle => 0
    case Publish(_, _) => 1
    case WriteValue(_, _) => 2
    case CasTail(_, t, _) => if t == s.tail then 3 else 1 + FromLoop(s)
    case ReloadTail(_) => 1 + FromLoop(s)
    case CasHead(_, h) => if h == s.head then 6 else 2 + FromLoop(s)
    case CheckSeq(_, h) => LeftAtCheck(s, h)
    case LoadHead(_, t) =>
      if t == s.tail then FromLoop(s) else if t < s.head then 1 + LeftAtCheck(s, s.head) else 2 + FromLoop(s)
  }

  ghost function LeftAtCheck(s: State, h: nat): nat
    requires Inv(s)
  {
    if h == s.head && s.head < s.tail && s.log[s.head].published then 7 else 3 + FromLoop(s)
  }

  /** A record under way that nothing keeps from going on. */
  ghost predicate Going(s: State, p: nat)
    requires p < |s.producers|
  {
    && Inv(s)
    && (s.producers[p].Idle? || s.producers[p].Writing() || (Fresh(s) && !Blocked(s)))
  }

  /** Loading a counter anew leaves no stale value behind. */
  lemma FreshLocal(s: State, p: nat, local: Producer)
    requires Inv(s) && Fresh(s) && p < |s.producers| && RecentProducer(s, local)
    ensures Fresh(SetProducer(s, p, local))
  {
  }

  lemma StepFromLoadHead(s: State, p: nat)
    requires p < |s.producers| && s.producers[p].LoadHead? && Inv(s) && Fresh(s) && !Blocked(s)
    ensures var s' := ProducerStep(s, p, false);
            Going(s', p) && Left(s', s'.producers[p]) < Left(s, s.producers[p])
  {
    var LoadHead(v, t) := s.producers[p];
    LooksFullExactly(s, p, v, t);
    ProducerStepInv(s, p, false);
    assert ProducerOk(s, s.producers[p]) && RecentProducer(s, s.producers[p]);
    FreshLocal(s, p, ProducerStep(s, p, false).producers[p]);
  }

  lemma StepFromCheckSeq(s: State, p: nat)
    requires p < |s.producers| && s.producers[p].CheckSeq? && Inv(s) && Fresh(s) && !Blocked(s)
    ensures var s' := ProducerStep(s, p, false);
            Going(s', p) && Left(s', s'.producers[p]) < Left(s, s.producers[p])
  {
    OldestMatchesExactly(s);
    ProducerStepInv(s, p, false);
    assert RecentProducer(s, s.producers[p]);
    FreshLocal(s, p, ProducerStep(s, p, false).producers[p]);
  }

  lemma StepFromCasHead(s: State, p: nat)
    requires p < |s.producers| && s.producers[p].CasHead? && Inv(s) && Fresh(s) && !Blocked(s)
    ensures var s' := ProducerStep(s, p, false);
            Going(s', p) && Left(s', s'.producers[p]) < Left(s, s.producers[p])
  {
    var CasHead(v, h) := s.producers[p];
    ProducerStepInv(s, p, false);
    assert ProducerOk(s, s.producers[p]) && RecentProducer(s, s.producers[p]);
    FreshLocal(s, p, ReloadTail(v));
    if Low(h) == Low(s.head) {
      LowInjective(h, s.head);
    }
  }

  lemma StepFromCasTail(s: State, p: nat)
    requires p < |s.producers| && s.producers[p].CasTail? && Inv(s) && Fresh(s) && !Blocked(s)
    ensures var s' := ProducerStep(s, p, false);
            Going(s', p) && Left(s', s'.producers[p]) < Left(s, s.producers[p])
  {
    var CasTail(v, t, h) := s.producers[p];
    ProducerStepInv(s, p, false);
    assert ProducerOk(s, s.producers[p]) && RecentProducer(s, s.producers[p]);
    if Low(t) == Low(s.tail) {
      LowInjective(t, s.tail);
    } else {
      FreshLocal(s, p, LoadHead(v, s.tail));
    }
  }

  /** Every step of a record that is not blocked brings it nearer to its end. */
  lemma StepNearer(s: State, p: nat)
    requires p < |s.producers| && Going(s, p) && !s.producers[p].Idle?
    ensures var s' := ProducerStep(s, p, false);
            Going(s', p) && Left(s', s'.producers[p]) < Left(s, s.producers[p])
  {
    match s.producers[p]
    case LoadHead(_, _) => StepFromLoadHead(s, p);
    case CheckSeq(_, _) => StepFromCheckSeq(s, p);
    case CasHead(_, _) => StepFromCasHead(s, p);
    case CasTail(_, _, _) => StepFromCasTail(s, p);
    case ReloadTail(v) =>
      ProducerStepInv(s, p, false);
      FreshLocal(s, p, LoadHead(v, s.tail));
    case WriteValue(_, _) => WriteValueStep(s, p, false);
    case Publish(_, _) => PublishStep(s, p, false);
  }

  /** The ticket that the record has or will get if nobody else claims one before it. */
  function TicketOf(s: State, p: Producer): nat {
    if p.Writing() then p.t else s.tail
  }

  /** The record's latency is the published value of its ticket. */
  ghost predicate Recorded(s: State, k: nat, v: int) {
    k < |s.log| && s.log[k] == Ticket(v, true)
  }

  /** What a step does to the ticket. */
  lemma StepKeepsTicket(s: State, p: nat)
    requires p < |s.producers| && Going(s, p) && !s.producers[p].Idle?
    ensures var s' := ProducerStep(s, p, false);
            if s'.producers[p].Idle? then Recorded(s', TicketOf(s, s.producers[p]), s.producers[p].v)
            else TicketOf(s', s'.producers[p]) == TicketOf(s, s.producers[p]) && s'.producers[p].v == s.producers[p].v
  {
    assert ProducerOk(s, s.producers[p]);
  }

  lemma {:induction false} IdleStays(s: State, p: nat, n: nat)
    requires p < |s.producers| && s.producers[p].Idle?
    ensures Run(s, Solo(p, n)) == s
    decreases n
  {
    if n > 0 {
      SoloStep(s, p, n);
      IdleStays(s, p, n - 1);
    }
  }

  lemma {:induction false} Completes(s: State, p: nat, n: nat)
    requires p < |s.producers| && Going(s, p) && !s.producers[p].Idle? && Left(s, s.producers[p]) <= n
    ensures var s' := Run(s, Solo(p, n));
            && p < |s'.producers| && s'.producers[p].Idle?
            && Recorded(s', TicketOf(s, s.producers[p]), s.producers[p].v)
    decreases n
  {
    SoloStep(s, p, n);
    StepNearer(s, p);
    StepKeepsTicket(s, p);
    var s' := ProducerStep(s, p, false);
    if s'.producers[p].Idle? {
      IdleStays(s', p, n - 1);
    } else {
      Completes(s', p, n - 1);
    }
  }

  // ----- A record that is blocked

  /** It keeps turning in the retry loop. */
  ghost predicate Stuck(s: State, p: nat)
    requires p < |s.producers|
  {
    Inv(s) && Fresh(s) && Blocked(s) && !s.producers[p].Idle? && !s.producers[p].Writing()
  }

  lemma StuckStep(s: State, p: nat)
    requires p < |s.producers| && Stuck(s, p)
    ensures var s' := ProducerStep(s, p, false);
            Stuck(s', p) && s' == s.(producers := s'.producers)
  {
    var local := s.producers[p];
    assert ProducerOk(s, local) && RecentProducer(s, local);
    ProducerStepInv(s, p, false);
    OldestMatchesExactly(s);
    var s' := ProducerStep(s, p, false);
    if local.CasHead? {
      LowApart(local.h, s.head);
    } else if local.CasTail? {
      LowApart(local.t, s.tail);
    }
    FreshLocal(s, p, s'.producers[p]);
  }

  lemma {:induction false} StaysStuck(s: State, p: nat, n: nat)
    requires p < |s.producers| && Stuck(s, p)
    ensures var s' := Run(s, Solo(p, n));
            p < |s'.producers| && Stuck(s', p) && s' == s.(producers := s'.producers)
    decreases n
  {
    if n > 0 {
      SoloStep(s, p, n);
      StuckStep(s, p);
      StaysStuck(ProducerStep(s, p, false), p, n - 1);
    }
  }

  /**
   From every point of a record, with the other threads standing still: it completes within eleven steps, its latency
   the published value of its ticket, exactly when it has its ticket already or the ring is not blocked. If neither
   holds, any number of its steps changes neither the counters nor the cells.
   */
  lemma ProgressTheorem(s: State, p: nat)
    requires Inv(s) && Fresh(s) && p < |s.producers| && !s.producers[p].Idle?
    ensures p < |Run(s, Solo(p, 11)).producers|
    ensures Run(s, Solo(p, 11)).producers[p].Idle? <==> s.producers[p].Writing() || !Blocked(s)
    ensures s.producers[p].Writing() || !Blocked(s) ==>
              Recorded(Run(s, Solo(p, 11)), TicketOf(s, s.producers[p]), s.producers[p].v)
    ensures !s.producers[p].Writing() && Blocked(s) ==>
              forall n: nat :: Run(s, Solo(p, n)) == s.(producers := Run(s, Solo(p, n)).producers)
  {
    if s.producers[p].Writing() || !Blocked(s) {
      Completes(s, p, 11);
    } else {
      StaysStuck(s, p, 11);
      forall n: nat
        ensures Run(s, Solo(p, n)) == s.(producers := Run(s, Solo(p, n)).producers)
      {
        StaysStuck(s, p, n);
      }
    }
  }

  // ----- Both situations arise

  lemma {:induction false} RunJoin(s: State, a: seq<Action>, b: seq<Action>)
    ensures Run(s, a + b) == Run(Run(s, a), b)
    decreases |a|
  {
    if a == [] {
      assert a + b == b;
    } else {
      assert (a + b)[1..] == a[1..] + b;
      RunJoin(Apply(s, a[0]), a[1..], b);
    }
  }

  /** A sound state far from the first overflow of a register. */
  ghost predicate Early(s: State) {
    Inv(s) && ReaderOk(s) && s.tail < WORD - 2 * CAPACITY
  }

  lemma EarlyIsFresh(s: State)
    requires Early(s)
    ensures Fresh(s)
  {
  }

  lemma StaysEarly(s: State, schedule: seq<Action>)
    requires Early(s) && Run(s, schedule).tail < WORD - 2 * CAPACITY
    ensures Early(Run(s, schedule))
  {
    ShortRunsAreFresh(s, schedule);
    RunOk(s, schedule);
  }

  lemma InitEarly(n: nat)
    ensures Early(Init(n))
  {
    InitInv(n);
  }

  /** What `n` more records leave where there is room for them. */
  ghost predicate RecordedMore(s: State, t: State, n: nat) {
    && t.head == s.head && t.tail == s.tail + n && t.producers == s.producers
    && |t.log| == t.tail && |s.log| == s.tail && t.log[..s.tail] == s.log
    && forall k :: s.tail <= k < t.tail ==> t.log[k].published
  }

  lemma OneRecord(s: State, p: nat) returns (schedule: seq<Action>, t: State)
    requires Early(s) && p < |s.producers| && s.producers[p].Idle?
    requires s.tail < s.head + CAPACITY && s.tail + 1 < WORD - 2 * CAPACITY
    ensures Run(s, schedule) == t && Early(t) && RecordedMore(s, t, 1)
  {
    schedule := SoloRecord(s, p, 0);
    t := Claimed(s, p, 0);
    SoloRecordTheorem(s, p, 0);
    StaysEarly(s, schedule);
    assert t.producers == s.producers;
  }

  lemma {:induction false} ManyRecords(s: State, p: nat, n: nat) returns (schedule: seq<Action>, t: State)
    requires Early(s) && p < |s.producers| && s.producers[p].Idle?
    requires s.tail + n <= s.head + CAPACITY && s.tail + n < WORD - 2 * CAPACITY
    ensures Run(s, schedule) == t && Early(t) && RecordedMore(s, t, n)
    decreases n
  {
    if n == 0 {
      schedule, t := [], s;
      assert s.log[..s.tail] == s.log;
    } else {
      var first, u := OneRecord(s, p);
      var rest;
      rest, t := ManyRecords(u, p, n - 1);
      schedule := first + rest;
      RunJoin(s, first, rest);
      assert t.log[..s.tail] == t.log[..u.tail][..s.tail];
      forall k | s.tail <= k < t.tail
        ensures t.log[k].published
      {
        if k < u.tail {
          assert t.log[k] == t.log[..u.tail][k];
        }
      }
    }
  }

  /** One producer evicts from the ring it has filled; another one has held the first tail value all the time. */
  lemma EarlyEvictionHappens() returns (schedule: seq<Action>)
    ensures var s := Run(Init(2), schedule);
            && |s.producers| == 2 && Early(s) && !Full(s)
            && Run(s, Solo(1, 4)).head == s.head + 1
  {
    InitEarly(2);
    var s1 := Begin(Init(2), 1, 0);
    assert Run(Init(2), [Record(1, 0)]) == s1;
    StaysEarly(Init(2), [Record(1, 0)]);
    var records, s2 := ManyRecords(s1, 0, CAPACITY);
    var evict, s3 := BeginsEviction(s2);
    RunJoin(Init(2), [Record(1, 0)], records);
    RunJoin(Init(2), [Record(1, 0)] + records, evict);
    schedule := [Record(1, 0)] + records + evict;
    EarlyIsFresh(s3);
    EvictsEarlyExactly(s3, 1, 0, 0);
  }

  /** The first producer finds the ring full and has just moved the head. */
  lemma BeginsEviction(s: State) returns (schedule: seq<Action>, t: State)
    requires Early(s) && |s.producers| == 2 && s.producers[0].Idle? && s.producers[1] == LoadHead(0, 0)
    requires s.head == 0 && Full(s) && s.log[0].published && s.log[1].published
    ensures Run(s, schedule) == t && Early(t) && |t.producers| == 2
    ensures t.producers[1] == LoadHead(0, 0) && t.head == 1 && t.tail == s.tail && t.log == s.log
  {
    var b := Begin(s, 0, 0);
    OldestIsReady(s);
    var path := EvictionPath(b, 0, 0, s.tail);
    PathIsSchedule(0, path);
    schedule := [Record(0, 0)] + Solo(0, 4);
    t := path[4];
    assert schedule[1..] == Solo(0, 4);
    StaysEarly(s, schedule);
  }

  /** A writer stalls with the first ticket, another producer fills the ring behind it, and can then never go on. */
  lemma BlockedRecordHappens() returns (schedule: seq<Action>)
    ensures var s := Run(Init(2), schedule);
            && |s.producers| == 2 && Early(s) && s.producers[0] == LoadHead(0, s.tail) && s.producers[1].WriteValue?
            && forall n: nat :: Run(s, Solo(0, n)) == s.(producers := Run(s, Solo(0, n)).producers)
  {
    InitEarly(2);
    var start, s1 := StallsAtOnce();
    var records, s2 := ManyRecords(s1, 0, CAPACITY - 1);
    var s3 := Begin(s2, 0, 0);
    assert Run(s2, [Record(0, 0)]) == s3;
    StaysEarly(s2, [Record(0, 0)]);
    RunJoin(Init(2), start, records);
    RunJoin(Init(2), start + records, [Record(0, 0)]);
    schedule := start + records + [Record(0, 0)];
    assert s3.log[0] == s3.log[..1][0];
    EarlyIsFresh(s3);
    ProgressTheorem(s3, 0);
  }

  lemma StallsAtOnce() returns (schedule: seq<Action>, t: State)
    ensures Run(Init(2), schedule) == t && Early(t) && |t.producers| == 2 && t.producers[0].Idle?
    ensures t.producers[1] == WriteValue(0, 0) && t.head == 0 && t.tail == 1 && t.log == [Ticket(0, false)]
  {
    InitEarly(2);
    var s := Begin(Init(2), 1, 0);
    t := SetProducer(s.(tail := 1, log := s.log + [Ticket(0, false)]), 1, WriteValue(0, 0));
    var path := [s, SetProducer(s, 1, CasTail(0, 0, 0)), t];
    PathIsSchedule(1, path);
    schedule := [Record(1, 0)] + Solo(1, 2);
    assert schedule[1..] == Solo(1, 2);
    StaysEarly(Init(2), schedule);
  }
}
