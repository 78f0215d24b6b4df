/**
 The lock-free latency ring of the metrics collector, as a step machine.

 Any number of producers push latencies: each claims a ticket by a compare-and-swap on `tail`, writes the cell of
 that ticket and publishes it through the cell's sequence number. A full ring evicts its oldest published ticket by
 a compare-and-swap on `head`. One reader scans the ring without a lock. Every atomic load, store and
 compare-and-swap of the source is one step, and steps of different threads interleave arbitrarily.

 Tickets are unbounded numbers here, while the source keeps them in 64-bit registers. Every comparison and
 subtraction of the machine therefore goes through `Low`, the register's contents.
 */
module LatencyRing {

  import opened Registers

  datatype Cell = Cell(seqno: int, value: int)

  type Cells = cells: seq<Cell> | |cells| == CAPACITY witness seq(CAPACITY, _ => Cell(0, 0))

  /** A ticket's history: the latency it was claimed for, and whether its sequence number has been stored. */
  datatype Ticket = Ticket(value: int, published: bool)

  /** Where a producer stands in `record_request`, with the local variables that are live there. */
  datatype Producer =
    | Idle
    | LoadHead(v: int, t: nat)
    | CheckSeq(v: int, h: nat)
    | CasHead(v: int, h: nat)
    | ReloadTail(v: int)
    | CasTail(v: int, t: nat, h: nat)
    | WriteValue(v: int, t: nat)
    | Publish(v: int, t: nat)
  {
    /** The producer owns a claimed ticket that it has not published yet. */
    predicate Writing() {
      WriteValue? || Publish?
    }
  }

  /** Where the reader stands in `collect_ring_samples`. */
  datatype Reader =
    | NoScan
    | ScanLoadTail(h: nat)
    | ScanSeq(start: nat, end: nat, i: nat, samples: seq<int>)
    | ScanValue(start: nat, end: nat, i: nat, samples: seq<int>)
    | ScanDone(start: nat, end: nat, samples: seq<int>)

  /** `log` (one entry a ticket) and `base` (the tail at the last reset) are history; the code has no such fields. */
  datatype State = State(
    head: nat,
    tail: nat,
    cells: Cells,
    producers: seq<Producer>,
    reader: Reader,
    log: seq<Ticket>,
    base: nat)

  function Init(producers: nat): (s: State) {
    State(0, 0, seq(CAPACITY, i => Cell(i, 0)), seq(producers, _ => Idle), NoScan, [], 0)
  }

  function SetProducer(s: State, p: nat, local: Producer): State
    requires p < |s.producers|
  {
    s.(producers := s.producers[p := local])
  }

  /** A producer enters the ring part of `record_request` and loads the tail. */
  function Begin(s: State, p: nat, v: int): State
    requires p < |s.producers| && s.producers[p].Idle?
  {
    SetProducer(s, p, LoadHead(v, s.tail))
  }

  function MarkPublished(log: seq<Ticket>, t: nat): seq<Ticket> {
    if t < |log| then log[t := log[t].(published := true)] else log
  }

  /** The next atomic step of producer `p`. A weak compare-and-swap may fail although the values agree. */
  function ProducerStep(s: State, p: nat, weakFail: bool): State
    requires p < |s.producers|
  {
    match s.producers[p]
    case Idle => s
    case LoadHead(v, t) =>
      SetProducer(s, p, if Low(t - s.head) >= CAPACITY then CheckSeq(v, s.head) else CasTail(v, t, s.head))
    case CheckSeq(v, h) =>
      SetProducer(s, p, if Low(s.cells[Slot(h)].seqno) != Low(h + 1) then ReloadTail(v) else CasHead(v, h))
    case CasHead(v, h) =>
      SetProducer(if !weakFail && Low(h) == Low(s.head) then s.(head := s.head + 1) else s, p, ReloadTail(v))
    case ReloadTail(v) =>
      SetProducer(s, p, LoadHead(v, s.tail))
    case CasTail(v, t, h) =>
      if !weakFail && Low(t) == Low(s.tail) then
        SetProducer(s.(tail := s.tail + 1, log := s.log + [Ticket(v, false)]), p, WriteValue(v, s.tail))
      else
        SetProducer(s, p, LoadHead(v, s.tail))
    case WriteValue(v, t) =>
      SetProducer(s.(cells := s.cells[Slot(t) := s.cells[Slot(t)].(value := v)]), p, Publish(v, t))
    case Publish(v, t) =>
      SetProducer(
        s.(cells := s.cells[Slot(t) := s.cells[Slot(t)].(seqno := t + 1)],
           log := MarkPublished(s.log, t)), p, Idle)
  }

  /** The next atomic step of the scan. */
  function ScanStep(s: State): State {
    match s.reader
    case NoScan => s
    case ScanLoadTail(h) =>
      if Low(s.tail) > Low(h) then
        var start: nat := if Low(s.tail) - Low(h) > MAX_SNAPSHOT then s.tail - MAX_SNAPSHOT else h;
        s.(reader := ScanSeq(start, s.tail, start, []))
      else
        s.(reader := ScanDone(s.tail, s.tail, []))
    case ScanSeq(start, end, i, samples) =>
      if i >= end || Low(s.cells[Slot(i)].seqno) != Low(i + 1) then
        s.(reader := ScanDone(start, end, samples))
      else
        s.(reader := ScanValue(start, end, i, samples))
    case ScanValue(start, end, i, samples) =>
      s.(reader := ScanSeq(start, end, i + 1, samples + [s.cells[Slot(i)].value]))
    case ScanDone(_, _, _) => s
  }

  predicate Quiescent(s: State) {
    forall p :: 0 <= p < |s.producers| ==> s.producers[p].Idle?
  }

  /** The cells after `reset`: every live ticket `i` leaves `i + CAPACITY` in its cell. */
  function ClearedCells(s: State): Cells {
    seq(CAPACITY, (c: int) requires 0 <= c < CAPACITY =>
      var i := s.head + (c - s.head) % CAPACITY;
      if i < s.tail then Cell(i + CAPACITY, s.cells[c].value) else s.cells[c])
  }

  function Reset(s: State): State {
    s.(cells := ClearedCells(s), head := s.tail, base := s.tail)
  }

  datatype Action =
    | Record(p: nat, v: int)
    | Step(p: nat, weakFail: bool)
    | StartScan
    | Scan
    | ResetQuiescent

  /** One action of some thread. An action whose thread is not there, or not at that point, changes nothing. */
  function Apply(s: State, a: Action): State {
    match a
    case Record(p, v) => if p < |s.producers| && s.producers[p].Idle? then Begin(s, p, v) else s
    case Step(p, weakFail) => if p < |s.producers| then ProducerStep(s, p, weakFail) else s
    case StartScan =>
      if s.reader.NoScan? || s.reader.ScanDone? then s.(reader := ScanLoadTail(s.head)) else s
    case Scan => ScanStep(s)
    case ResetQuiescent => if Quiescent(s) then Reset(s) else s
  }

  /** The state after a schedule of actions. */
  function Run(s: State, schedule: seq<Action>): State
    decreases |schedule|
  {
    if schedule == [] then s else Run(Apply(s, schedule[0]), schedule[1..])
  }
}
