/**
 What the lock-free scan returns, and the theorems about whole schedules of producers, scans and quiescent resets.
 */
module RingScan {
  import opened Registers
  import opened LatencyRing
  import opened RingSafety

  // ----- Samples

  /** `x` is the latency of ticket `j` or of a later ticket of the same cell. */
  ghost predicate RecordedFrom(s: State, j: nat, x: int)
    requires |s.log| == s.tail
  {
    exists k :: j <= k < s.tail && Slot(k) == Slot(j) && s.log[k].value == x
  }

  /** What is known of the samples copied so far. */
  ghost predicate SamplesOk(s: State, start: nat, samples: seq<int>)
    requires |s.log| == s.tail
  {
    && start + |samples| <= s.tail
    && (forall j :: 0 <= j < |samples| ==> RecordedFrom(s, start + j, samples[j]))
    && (s.tail <= start + CAPACITY ==>
          forall j :: 0 <= j < |samples| ==> s.log[start + j] == Ticket(samples[j], true))
  }

  ghost predicate ReaderOk(s: State)
    requires CountersOk(s)
  {
    match s.reader
    case NoScan => true
    case ScanLoadTail(h) => h <= s.head
    case ScanSeq(start, end, i, samples) =>
      start <= i <= end <= s.tail && i == start + |samples| && SamplesOk(s, start, samples)
    case ScanValue(start, end, i, samples) =>
      && start <= i < end <= s.tail && i == start + |samples| && SamplesOk(s, start, samples)
      && s.log[i].published
    case ScanDone(start, end, samples) =>
      start + |samples| <= end <= s.tail && SamplesOk(s, start, samples)
  }

  /** Tickets are only added and published, so what the reader has copied stays explained. */
  ghost predicate Extends(s: State, s': State)
    requires CountersOk(s) && CountersOk(s')
  {
    && s.tail <= s'.tail
    && s.head <= s'.head
    && forall k :: 0 <= k < s.tail ==>
         s'.log[k].value == s.log[k].value && (s.log[k].published ==> s'.log[k].published)
  }

  lemma SamplesKept(s: State, s': State, start: nat, samples: seq<int>)
    requires CountersOk(s) && CountersOk(s') && Extends(s, s') && SamplesOk(s, start, samples)
    ensures SamplesOk(s', start, samples)
  {
    forall j | 0 <= j < |samples|
      ensures RecordedFrom(s', start + j, samples[j])
    {
      var k :| start + j <= k < s.tail && Slot(k) == Slot(start + j) && s.log[k].value == samples[j];
      assert s'.log[k].value == samples[j];
    }
  }

  lemma ReaderKept(s: State, s': State)
    requires CountersOk(s) && CountersOk(s') && Extends(s, s') && ReaderOk(s) && s'.reader == s.reader
    ensures ReaderOk(s')
  {
    match s.reader
    case NoScan =>
    case ScanLoadTail(_) =>
    case ScanSeq(start, _, _, samples) => SamplesKept(s, s', start, samples);
    case ScanValue(start, _, _, samples) => SamplesKept(s, s', start, samples);
    case ScanDone(start, _, samples) => SamplesKept(s, s', start, samples);
  }

  // ----- The scan's steps

  /** The newest ticket that shares a cell with ticket `i`. */
  function NewestInCell(s: State, i: nat): (k: nat)
    requires i < s.tail
    ensures s.tail - CAPACITY <= k < s.tail && i <= k && Slot(k) == Slot(i)
    ensures k != i ==> i <= k - CAPACITY && Slot(k - CAPACITY) == Slot(i)
    ensures s.tail <= i + CAPACITY ==> k == i
    decreases s.tail - i
  {
    if s.tail <= i + CAPACITY then i else NewestInCell(s, i + CAPACITY)
  }

  /** A sequence number that matches ticket `i` proves that `i` has been published. */
  lemma MatchMeansPublished(s: State, i: nat)
    requires Inv(s) && i < s.tail && Recent(s, i)
    requires Low(s.cells[Slot(i)].seqno) == Low(i + 1)
    ensures s.log[i].published
  {
    if s.tail <= i + CAPACITY {
      assert CellOk(s, i);
      if !s.log[i].published {
        LowInjective(s.cells[Slot(i)].seqno, i + 1);
        assert false;
      }
    }
  }

  /** Unless the ring was reset past `i`, a mismatch within one capacity means ticket `i` is still being written. */
  lemma MismatchMeansBeingWritten(s: State, i: nat)
    requires Inv(s) && s.base <= i < s.tail <= i + CAPACITY
    requires Low(s.cells[Slot(i)].seqno) != Low(i + 1)
    ensures !s.log[i].published
    ensures exists p :: 0 <= p < |s.producers| && Owns(s.producers[p], i)
  {
    assert CellOk(s, i);
  }

  /** A reset hides every sample that was live: a scan that has reached one of them ends there. */
  lemma ResetEndsScan(s: State, start: nat, end: nat, i: nat, samples: seq<int>)
    requires Inv(s) && s.reader == ScanSeq(start, end, i, samples) && s.head <= i < s.tail
    ensures ScanStep(Reset(s)).reader == ScanDone(start, end, samples)
  {
    var c := Slot(i);
    SlotInjective(s.head + (c - s.head) % CAPACITY, i);
    assert Reset(s).cells[c].seqno == i + CAPACITY;
    if Low(i + CAPACITY) == Low(i + 1) {
      LowInjective(i + CAPACITY, i + 1);
      assert false;
    }
  }

  lemma ValueIsRecorded(s: State, i: nat)
    requires Inv(s) && i < s.tail && s.log[i].published
    ensures RecordedFrom(s, i, s.cells[Slot(i)].value)
    ensures s.tail <= i + CAPACITY ==> s.cells[Slot(i)].value == s.log[i].value
  {
    var k := NewestInCell(s, i);
    assert CellOk(s, k);
    if s.log[k].published || s.cells[Slot(i)].value == s.log[k].value {
      assert s.log[k].value == s.cells[Slot(i)].value;
    } else {
      assert s.log[k - CAPACITY].value == s.cells[Slot(i)].value;
    }
  }

  lemma SampleAppended(s: State, start: nat, samples: seq<int>, x: int)
    requires |s.log| == s.tail && SamplesOk(s, start, samples)
    requires RecordedFrom(s, start + |samples|, x)
    requires s.tail <= start + CAPACITY ==>
               start + |samples| < s.tail && s.log[start + |samples|] == Ticket(x, true)
    ensures SamplesOk(s, start, samples + [x])
  {
    var more := samples + [x];
    forall j | 0 <= j < |more|
      ensures RecordedFrom(s, start + j, more[j])
    {
      if j < |samples| {
        assert RecordedFrom(s, start + j, samples[j]);
      }
    }
  }

  lemma ScanValueOk(s: State)
    requires Inv(s) && ReaderOk(s) && s.reader.ScanValue?
    ensures ReaderOk(ScanStep(s))
  {
    var ScanValue(start, end, i, samples) := s.reader;
    var x := s.cells[Slot(i)].value;
    ValueIsRecorded(s, i);
    SampleAppended(s, start, samples, x);
    SamplesKept(s, ScanStep(s), start, samples + [x]);
  }

  lemma ScanSeqOk(s: State)
    requires Inv(s) && Fresh(s) && ReaderOk(s) && s.reader.ScanSeq?
    ensures ReaderOk(ScanStep(s))
  {
    var ScanSeq(start, end, i, samples) := s.reader;
    SamplesKept(s, ScanStep(s), start, samples);
    if i < end && Low(s.cells[Slot(i)].seqno) == Low(i + 1) {
      MatchMeansPublished(s, i);
    }
  }

  lemma ScanStepOk(s: State)
    requires Inv(s) && Fresh(s) && ReaderOk(s)
    ensures Inv(ScanStep(s)) && ReaderOk(ScanStep(s))
  {
    SameRing(s, ScanStep(s));
    match s.reader
    case NoScan =>
    case ScanDone(_, _, _) =>
    case ScanLoadTail(h) =>
      if Low(s.tail) > Low(h) {
        StartIsBelowTail(s, h);
      }
    case ScanSeq(_, _, _, _) => ScanSeqOk(s);
    case ScanValue(_, _, _, _) => ScanValueOk(s);
  }

  lemma StartIsBelowTail(s: State, h: nat)
    requires Inv(s) && h <= s.head && Recent(s, h) && Low(s.tail) > Low(h)
    ensures Low(s.tail) - Low(h) == s.tail - h
  {
    RegistersSuffice(s.tail, h);
    LowInjective(Low(s.tail) - Low(h), s.tail - h);
  }

  /** The invariant speaks of the ring only. */
  lemma SameRing(s: State, s': State)
    requires Inv(s) && s' == s.(reader := s'.reader)
    ensures Inv(s')
  {
    assert forall k :: s.tail - CAPACITY <= k < s.tail ==> CellOk(s, k) ==> CellOk(s', k);
    assert forall p :: 0 <= p < |s.producers| ==> ProducerOk(s, s.producers[p]) ==> ProducerOk(s', s.producers[p]);
    OwnersSame(s, s');
  }

  lemma OwnersSame(s: State, s': State)
    requires CountersOk(s) && UnpublishedAreOwned(s) && s' == s.(reader := s'.reader)
    ensures UnpublishedAreOwned(s')
  {
    forall k | 0 <= k < s'.tail && !s'.log[k].published
      ensures exists p :: 0 <= p < |s'.producers| && Owns(s'.producers[p], k)
    {
      assert !s.log[k].published;
    }
  }

  // ----- Whole schedules

  lemma ProducerStepExtends(s: State, p: nat, weakFail: bool)
    requires Inv(s) && Fresh(s) && p < |s.producers|
    ensures Inv(ProducerStep(s, p, weakFail)) && Extends(s, ProducerStep(s, p, weakFail))
    ensures ProducerStep(s, p, weakFail).reader == s.reader
  {
    ProducerStepInv(s, p, weakFail);
  }

  lemma ApplyOk(s: State, a: Action)
    requires Inv(s) && Fresh(s) && ReaderOk(s)
    ensures Inv(Apply(s, a)) && ReaderOk(Apply(s, a)) && Extends(s, Apply(s, a))
  {
    match a
    case Record(p, v) =>
      if p < |s.producers| && s.producers[p].Idle? {
        LocalStep(s, p, LoadHead(v, s.tail));
        ReaderKept(s, Apply(s, a));
      }
    case Step(p, weakFail) =>
      if p < |s.producers| {
        ProducerStepExtends(s, p, weakFail);
        ReaderKept(s, Apply(s, a));
      }
    case StartScan => SameRing(s, Apply(s, a));
    case Scan => ScanStepOk(s);
    case ResetQuiescent =>
      if Quiescent(s) {
        ResetInv(s);
        ReaderKept(s, Apply(s, a));
      }
  }

  /** Every state the schedule passes through, the last one left out, is fresh. */
  ghost predicate FreshThroughout(s: State, schedule: seq<Action>)
    decreases |schedule|
  {
    schedule == [] || (Fresh(s) && FreshThroughout(Apply(s, schedule[0]), schedule[1..]))
  }

  lemma {:induction false} RunOk(s: State, schedule: seq<Action>)
    requires Inv(s) && ReaderOk(s) && FreshThroughout(s, schedule)
    ensures Inv(Run(s, schedule)) && ReaderOk(Run(s, schedule)) && Extends(s, Run(s, schedule))
    decreases |schedule|
  {
    if schedule != [] {
      ApplyOk(s, schedule[0]);
      RunOk(Apply(s, schedule[0]), schedule[1..]);
    }
  }

  /**
   In every schedule of any number of producers, scans and quiescent resets: the ring never holds more than its
   capacity, what has been evicted had been published, and two producers never write the same cell.
   */
  lemma SafetyTheorem(producers: nat, schedule: seq<Action>)
    requires FreshThroughout(Init(producers), schedule)
    ensures var s := Run(Init(producers), schedule);
            && s.head <= s.tail <= s.head + CAPACITY
            && |s.log| == s.tail
            && (forall k :: 0 <= k < s.head ==> s.log[k].published)
            && (forall p, q :: 0 <= p < q < |s.producers| && s.producers[p].Writing() && s.producers[q].Writing()
                  ==> Slot(s.producers[p].t) != Slot(s.producers[q].t))
  {
    InitInv(producers);
    RunOk(Init(producers), schedule);
    var s := Run(Init(producers), schedule);
    forall p, q | 0 <= p < q < |s.producers| && s.producers[p].Writing() && s.producers[q].Writing()
      ensures Slot(s.producers[p].t) != Slot(s.producers[q].t)
    {
      assert ProducerOk(s, s.producers[p]) && ProducerOk(s, s.producers[q]);
      if Slot(s.producers[p].t) == Slot(s.producers[q].t) {
        SlotInjective(s.producers[p].t, s.producers[q].t);
        assert false;
      }
    }
  }

  /**
   A scan that raced with any schedule returns only recorded latencies; if the tail has not passed `start` by more
   than the capacity, it returns the latencies of the consecutive published tickets from `start`, in order.
   */
  lemma ScanTheorem(producers: nat, schedule: seq<Action>)
    requires FreshThroughout(Init(producers), schedule)
    requires Run(Init(producers), schedule).reader.ScanDone?
    ensures var s := Run(Init(producers), schedule);
            && |s.log| == s.tail
            && s.reader.start + |s.reader.samples| <= s.reader.end <= s.tail
            && (forall x :: x in s.reader.samples ==> exists k :: 0 <= k < s.tail && s.log[k].value == x)
            && (s.tail <= s.reader.start + CAPACITY ==>
                  forall j :: 0 <= j < |s.reader.samples| ==>
                    s.log[s.reader.start + j] == Ticket(s.reader.samples[j], true))
  {
    InitInv(producers);
    RunOk(Init(producers), schedule);
    var s := Run(Init(producers), schedule);
    forall x | x in s.reader.samples
      ensures exists k :: 0 <= k < s.tail && s.log[k].value == x
    {
      var j :| 0 <= j < |s.reader.samples| && s.reader.samples[j] == x;
      assert RecordedFrom(s, s.reader.start + j, x);
    }
  }

  /** A run that stays below 2^64 - 2^21 tickets is fresh throughout, so the theorems need no more of it. */
  lemma {:induction false} ShortRunsAreFresh(s: State, schedule: seq<Action>)
    requires Inv(s) && ReaderOk(s) && Run(s, schedule).tail < WORD - 2 * CAPACITY
    ensures FreshThroughout(s, schedule)
    decreases |schedule|
  {
    if schedule != [] {
      TailGrows(s, schedule);
      assert Fresh(s);
      ApplyOk(s, schedule[0]);
      ShortRunsAreFresh(Apply(s, schedule[0]), schedule[1..]);
    }
  }

  lemma {:induction false} TailGrows(s: State, schedule: seq<Action>)
    ensures s.tail <= Run(s, schedule).tail
    decreases |schedule|
  {
    if schedule != [] {
      TailGrows(Apply(s, schedule[0]), schedule[1..]);
    }
  }

  // ----- A scan that nothing interrupts

  function Scans(n: nat): seq<Action> {
    seq(n, _ => Scan)
  }

  lemma ScansStep(s: State, n: nat)
    requires n > 0
    ensures Run(s, Scans(n)) == Run(ScanStep(s), Scans(n - 1))
  {
    assert Scans(n)[1..] == Scans(n - 1);
  }

  ghost function Values(log: seq<Ticket>): (values: seq<int>)
    ensures |values| == |log|
  {
    seq(|log|, i requires 0 <= i < |log| => log[i].value)
  }

  /** One uninterrupted turn of the scan's loop copies the latency of ticket `i`. */
  lemma QuietTurn(s: State, start: nat, end: nat, i: nat, samples: seq<int>)
    requires Inv(s) && s.reader == ScanSeq(start, end, i, samples)
    requires s.base <= i < end <= s.tail <= i + CAPACITY && s.log[i].published
    ensures ScanStep(ScanStep(s)) == s.(reader := ScanSeq(start, end, i + 1, samples + [s.log[i].value]))
  {
    assert CellOk(s, i);
  }

  lemma {:induction false} QuietLoop(s: State, start: nat, end: nat, i: nat, samples: seq<int>)
    requires Inv(s) && s.reader == ScanSeq(start, end, i, samples)
    requires s.base <= i <= end <= s.tail <= i + CAPACITY
    requires forall k :: i <= k < end ==> s.log[k].published
    ensures Run(s, Scans(2 * (end - i) + 1)) ==
            s.(reader := ScanDone(start, end, samples + Values(s.log[i..end])))
    decreases end - i
  {
    var n := 2 * (end - i) + 1;
    ScansStep(s, n);
    if i == end {
      assert samples + Values(s.log[i..end]) == samples;
    } else {
      ScansStep(ScanStep(s), n - 1);
      QuietTurn(s, start, end, i, samples);
      var s2 := s.(reader := ScanSeq(start, end, i + 1, samples + [s.log[i].value]));
      SameRing(s, s2);
      QuietLoop(s2, start, end, i + 1, samples + [s.log[i].value]);
      assert samples + [s.log[i].value] + Values(s.log[i + 1..end]) == samples + Values(s.log[i..end]);
    }
  }

  /** The window a scan of a quiet ring covers. */
  ghost function NewestWindow(s: State): (start: nat)
    requires s.head <= s.tail
  {
    if s.tail - s.head > MAX_SNAPSHOT then s.tail - MAX_SNAPSHOT else s.head
  }

  lemma QuietStart(s: State)
    requires Inv(s) && s.reader == ScanLoadTail(s.head) && Low(s.head) <= Low(s.tail)
    ensures ScanStep(s) == s.(reader :=
              if s.head == s.tail then ScanDone(s.tail, s.tail, [])
              else ScanSeq(NewestWindow(s), s.tail, NewestWindow(s), []))
  {
    RegistersSuffice(s.tail, s.head);
    LowInjective(Low(s.tail) - Low(s.head), s.tail - s.head);
  }

  lemma {:induction false} DoneStays(s: State, n: nat)
    requires s.reader.ScanDone?
    ensures Run(s, Scans(n)) == s
    decreases n
  {
    if n > 0 {
      ScansStep(s, n);
      DoneStays(s, n - 1);
    }
  }

  /** The schedule of one whole scan of a quiet ring. */
  ghost function QuietScan(s: State): seq<Action>
    requires s.head <= s.tail
  {
    [StartScan] + Scans(2 * (s.tail - NewestWindow(s)) + 2)
  }

  lemma StartThenScans(s: State, n: nat)
    requires s.reader.NoScan? && n > 0
    ensures Run(s, [StartScan] + Scans(n)) == Run(ScanStep(s.(reader := ScanLoadTail(s.head))), Scans(n - 1))
  {
    assert ([StartScan] + Scans(n))[1..] == Scans(n);
    ScansStep(s.(reader := ScanLoadTail(s.head)), n);
  }

  lemma QuietLoopFromStart(s: State, start: nat)
    requires Inv(s) && s.head < s.tail && start == NewestWindow(s)
    requires s.reader == ScanSeq(start, s.tail, start, [])
    requires forall k :: s.head <= k < s.tail ==> s.log[k].published
    ensures Run(s, Scans(2 * (s.tail - start) + 1)) ==
            s.(reader := ScanDone(start, s.tail, Values(s.log[start..s.tail])))
  {
    QuietLoop(s, start, s.tail, start, []);
    assert [] + Values(s.log[start..s.tail]) == Values(s.log[start..s.tail]);
  }

  /**
   An uninterrupted scan of a ring with no ticket being written returns every live latency, or the newest
   `MAX_SNAPSHOT` of them, as long as the two counters have not parted at a multiple of 2^64.
   */
  lemma QuietScanTheorem(s: State)
    requires Inv(s) && s.reader.NoScan? && Low(s.head) <= Low(s.tail)
    requires forall k :: s.head <= k < s.tail ==> s.log[k].published
    ensures Run(s, QuietScan(s)) ==
            s.(reader := ScanDone(NewestWindow(s), s.tail, Values(s.log[NewestWindow(s)..s.tail])))
  {
    var start := NewestWindow(s);
    var s1 := s.(reader := ScanLoadTail(s.head));
    var s2 := ScanStep(s1);
    assert Run(s, QuietScan(s)) == Run(s2, Scans(2 * (s.tail - start) + 1)) by {
      StartThenScans(s, 2 * (s.tail - start) + 2);
    }
    SameRing(s, s1);
    QuietStart(s1);
    if s.head == s.tail {
      DoneStays(s2, 1);
      assert Values(s.log[start..s.tail]) == [];
    } else {
      SameRing(s, s2);
      QuietLoopFromStart(s2, start);
    }
  }
}
