/**
 Safety of the latency ring over every schedule: the counters stay within one capacity of each other, only published
 tickets are evicted, and no cell ever has two writers.
 */
module RingSafety {
  import opened Registers
  import opened LatencyRing

  // ----- Invariant

  /** No thread acts on a counter value that nearly 2^64 claims have since overtaken. */
  ghost predicate Recent(s: State, x: nat) {
    s.tail - x < WORD - 2 * CAPACITY
  }

  ghost predicate RecentProducer(s: State, p: Producer) {
    match p
    case LoadHead(_, t) => Recent(s, t)
    case CheckSeq(_, h) => Recent(s, h)
    case CasHead(_, h) => Recent(s, h)
    case CasTail(_, t, h) => Recent(s, t) && Recent(s, h)
    case _ => true
  }

  ghost predicate RecentReader(s: State, r: Reader) {
    match r
    case ScanLoadTail(h) => Recent(s, h)
    case ScanSeq(start, _, _, _) => Recent(s, start)
    case ScanValue(start, _, _, _) => Recent(s, start)
    case _ => true
  }

  ghost predicate Fresh(s: State) {
    && (forall p :: 0 <= p < |s.producers| ==> RecentProducer(s, s.producers[p]))
    && RecentReader(s, s.reader)
  }

  ghost predicate CountersOk(s: State) {
    && |s.log| == s.tail
    && s.base <= s.head <= s.tail <= s.head + CAPACITY
  }

  ghost predicate EvictedArePublished(s: State)
    requires CountersOk(s)
  {
    forall k :: 0 <= k < s.head ==> s.log[k].published
  }

  ghost predicate ProducerOk(s: State, p: Producer)
    requires CountersOk(s)
  {
    match p
    case Idle => true
    case ReloadTail(_) => true
    case LoadHead(_, t) => t <= s.tail
    case CheckSeq(_, h) => h <= s.head
    case CasHead(_, h) => h <= s.head && (h == s.head ==> h < s.tail && s.log[h].published)
    case CasTail(_, t, h) => t <= s.tail && h <= s.head && Low(t - h) < CAPACITY
    case WriteValue(v, t) => s.head <= t < s.tail && s.log[t] == Ticket(v, false)
    case Publish(v, t) => s.head <= t < s.tail && s.log[t] == Ticket(v, false) && s.cells[Slot(t)].value == v
  }

  ghost predicate OneOwner(s: State) {
    forall p, q :: 0 <= p < q < |s.producers| && s.producers[p].Writing() && s.producers[q].Writing()
      ==> s.producers[p].t != s.producers[q].t
  }

  ghost predicate Owns(p: Producer, k: int) {
    p.Writing() && p.t == k
  }

  /** An unpublished ticket belongs to a producer that is about to publish it. */
  ghost predicate UnpublishedAreOwned(s: State)
    requires CountersOk(s)
  {
    forall k :: 0 <= k < s.tail && !s.log[k].published
      ==> exists p :: 0 <= p < |s.producers| && Owns(s.producers[p], k)
  }

  /** What cell `Slot(k)` holds, where `k` is the newest ticket of that cell (negative: the cell was never used). */
  ghost predicate CellOk(s: State, k: int)
    requires CountersOk(s) && k < s.tail
  {
    var c := s.cells[Slot(k)];
    if k < 0 then
      c.seqno == k + CAPACITY
    else if s.log[k].published then
      c.value == s.log[k].value && (c.seqno == k + 1 || (k < s.base && c.seqno == k + CAPACITY))
    else
      && (c.seqno == k || c.seqno == k - CAPACITY + 1)
      && (k < CAPACITY || c.value == s.log[k].value || c.value == s.log[k - CAPACITY].value)
  }

  ghost predicate CellsOk(s: State)
    requires CountersOk(s)
  {
    forall k :: s.tail - CAPACITY <= k < s.tail ==> CellOk(s, k)
  }

  ghost predicate ProducersOk(s: State)
    requires CountersOk(s)
  {
    forall p :: 0 <= p < |s.producers| ==> ProducerOk(s, s.producers[p])
  }

  ghost predicate Inv(s: State) {
    && CountersOk(s)
    && EvictedArePublished(s)
    && ProducersOk(s)
    && OneOwner(s)
    && UnpublishedAreOwned(s)
    && CellsOk(s)
  }

  // ----- Every step keeps the invariant

  lemma InitInv(n: nat)
    ensures Inv(Init(n))
  {
    var s := Init(n);
    forall k | -CAPACITY <= k < 0
      ensures CellOk(s, k)
    {
      assert Slot(k) == k + CAPACITY;
    }
  }

  /** Owners other than `p` still own their tickets when only `p` has moved. */
  lemma OwnersKept(s: State, s': State, p: nat)
    requires CountersOk(s) && UnpublishedAreOwned(s) && p < |s.producers| == |s'.producers|
    requires forall q :: 0 <= q < |s.producers| && q != p ==> s'.producers[q] == s.producers[q]
    ensures forall k ::
              0 <= k < s.tail && !s.log[k].published && !Owns(s.producers[p], k) ==>
                exists q :: 0 <= q < |s'.producers| && Owns(s'.producers[q], k)
  {
    forall k | 0 <= k < s.tail && !s.log[k].published && !Owns(s.producers[p], k)
      ensures exists q :: 0 <= q < |s'.producers| && Owns(s'.producers[q], k)
    {
      var q :| 0 <= q < |s.producers| && Owns(s.producers[q], k);
      assert Owns(s'.producers[q], k);
    }
  }

  /** A step that leaves the shared fields alone and moves `p` to a local state that does not own a ticket. */
  lemma LocalStep(s: State, p: nat, local: Producer)
    requires Inv(s) && p < |s.producers| && ProducerOk(s, local)
    requires !s.producers[p].Writing() && !local.Writing()
    ensures Inv(SetProducer(s, p, local))
  {
    var s' := SetProducer(s, p, local);
    OwnersKept(s, s', p);
    assert forall k :: s.tail - CAPACITY <= k < s.tail ==> CellOk(s, k) ==> CellOk(s', k);
  }

  /** The sequence check lets only a published oldest ticket through. */
  lemma CheckSeqStep(s: State, p: nat, weakFail: bool)
    requires Inv(s) && p < |s.producers| && s.producers[p].CheckSeq?
    ensures Inv(ProducerStep(s, p, weakFail))
  {
    var CheckSeq(v, h) := s.producers[p];
    assert ProducerOk(s, s.producers[p]);
    if Low(s.cells[Slot(h)].seqno) == Low(h + 1) && h == s.head {
      var k := if h < s.tail then h else h - CAPACITY;
      assert Slot(k) == Slot(h);
      assert CellOk(s, k);
      if k < h || !s.log[k].published {
        LowInjective(s.cells[Slot(h)].seqno, h + 1);
        assert false;
      }
    }
    LocalStep(s, p, if Low(s.cells[Slot(h)].seqno) != Low(h + 1) then ReloadTail(v) else CasHead(v, h));
  }

  lemma CasHeadStep(s: State, p: nat, weakFail: bool)
    requires Inv(s) && Fresh(s) && p < |s.producers| && s.producers[p].CasHead?
    ensures Inv(ProducerStep(s, p, weakFail))
  {
    var CasHead(v, h) := s.producers[p];
    assert ProducerOk(s, s.producers[p]) && RecentProducer(s, s.producers[p]);
    if !weakFail && Low(h) == Low(s.head) {
      LowInjective(h, s.head);
      var s1 := s.(head := s.head + 1);
      forall q | 0 <= q < |s1.producers|
        ensures ProducerOk(s1, s1.producers[q])
      {
        assert ProducerOk(s, s.producers[q]);
      }
      assert forall k :: s.tail - CAPACITY <= k < s.tail ==> CellOk(s, k) ==> CellOk(s1, k);
      LocalStep(s1, p, ReloadTail(v));
    } else {
      LocalStep(s, p, ReloadTail(v));
    }
  }

  /** A claim never runs more than one capacity ahead of the head, however old the local counters are. */
  lemma ClaimStep(s: State, p: nat)
    requires Inv(s) && Fresh(s) && p < |s.producers| && s.producers[p].CasTail?
    requires Low(s.producers[p].t) == Low(s.tail)
    ensures Inv(ProducerStep(s, p, false))
  {
    var CasTail(v, t, h) := s.producers[p];
    assert ProducerOk(s, s.producers[p]) && RecentProducer(s, s.producers[p]);
    LowInjective(t, s.tail);
    assert s.tail < h + CAPACITY;
    var s' := ProducerStep(s, p, false);
    OwnersKept(s, s', p);
    assert Owns(s'.producers[p], s'.producers[p].t);
    forall q | 0 <= q < |s'.producers|
      ensures ProducerOk(s', s'.producers[q])
    {
      assert ProducerOk(s, s.producers[q]);
    }
    forall k | s'.tail - CAPACITY <= k < s'.tail
      ensures CellOk(s', k)
    {
      if k == s.tail {
        assert Slot(k) == Slot(k - CAPACITY) && CellOk(s, k - CAPACITY);
      } else {
        assert CellOk(s, k);
      }
    }
  }

  lemma WriteValueStep(s: State, p: nat, weakFail: bool)
    requires Inv(s) && p < |s.producers| && s.producers[p].WriteValue?
    ensures Inv(ProducerStep(s, p, weakFail))
  {
    var WriteValue(v, t) := s.producers[p];
    assert ProducerOk(s, s.producers[p]);
    var s' := ProducerStep(s, p, weakFail);
    OwnersKept(s, s', p);
    assert Owns(s'.producers[p], s'.producers[p].t);
    forall q | 0 <= q < |s'.producers|
      ensures ProducerOk(s', s'.producers[q])
    {
      assert ProducerOk(s, s.producers[q]);
      if q != p && s.producers[q].Publish? && Slot(s.producers[q].t) == Slot(t) {
        SlotInjective(s.producers[q].t, t);
        assert false;
      }
    }
    forall k | s.tail - CAPACITY <= k < s.tail
      ensures CellOk(s', k)
    {
      assert CellOk(s, k);
      if k != t && Slot(k) == Slot(t) {
        SlotInjective(k, t);
        assert false;
      }
    }
  }

  lemma PublishStep(s: State, p: nat, weakFail: bool)
    requires Inv(s) && p < |s.producers| && s.producers[p].Publish?
    ensures Inv(ProducerStep(s, p, weakFail))
  {
    var Publish(v, t) := s.producers[p];
    assert ProducerOk(s, s.producers[p]);
    var s' := ProducerStep(s, p, weakFail);
    OwnersKept(s, s', p);
    forall q | 0 <= q < |s'.producers|
      ensures ProducerOk(s', s'.producers[q])
    {
      assert ProducerOk(s, s.producers[q]);
    }
    forall k | s.tail - CAPACITY <= k < s.tail
      ensures CellOk(s', k)
    {
      assert CellOk(s, k);
      if k != t && Slot(k) == Slot(t) {
        SlotInjective(k, t);
        assert false;
      }
    }
  }

  lemma ProducerStepInv(s: State, p: nat, weakFail: bool)
    requires Inv(s) && Fresh(s) && p < |s.producers|
    ensures Inv(ProducerStep(s, p, weakFail))
  {
    assert ProducerOk(s, s.producers[p]);
    match s.producers[p]
    case Idle =>
    case LoadHead(v, t) =>
      LocalStep(s, p, if Low(t - s.head) >= CAPACITY then CheckSeq(v, s.head) else CasTail(v, t, s.head));
    case CheckSeq(_, _) => CheckSeqStep(s, p, weakFail);
    case CasHead(_, _) => CasHeadStep(s, p, weakFail);
    case ReloadTail(v) => LocalStep(s, p, LoadHead(v, s.tail));
    case CasTail(v, t, _) =>
      if !weakFail && Low(t) == Low(s.tail) {
        ClaimStep(s, p);
      } else {
        LocalStep(s, p, LoadHead(v, s.tail));
      }
    case WriteValue(_, _) => WriteValueStep(s, p, weakFail);
    case Publish(_, _) => PublishStep(s, p, weakFail);
  }

  /** A reset with no producer under way leaves a ring that later tickets can use as if it were new. */
  lemma ResetInv(s: State)
    requires Inv(s) && Quiescent(s)
    ensures Inv(Reset(s))
  {
    var s' := Reset(s);
    forall k | s.tail - CAPACITY <= k < s.tail
      ensures CellOk(s', k)
    {
      assert CellOk(s, k);
      var c := Slot(k);
      var i := s.head + (c - s.head) % CAPACITY;
      assert Slot(i) == c;
      if i < s.tail {
        SlotInjective(i, k);
      } else if k >= s.head {
        SlotInjective(i, k);
        assert false;
      }
    }
  }
}
