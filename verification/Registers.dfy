/**
 Ticket numbers in 64-bit registers, and the ring slots they map to.
 */
module Registers {

  const CAPACITY: int := 0x10_0000
  const WORD: int := 0x1_0000_0000_0000_0000
  const MAX_SNAPSHOT: int := 100000

  /** The cell that ticket `t` lives in (`t & kRingMask`). */
  function Slot(t: int): (i: nat)
    ensures i < CAPACITY
  {
    t % CAPACITY
  }

  /** The contents of a 64-bit register that holds ticket number `n`. */
  function Low(n: int): nat {
    n % WORD
  }

  /** Two's complement: what a signed 64-bit register holds where `n` was computed. */
  function Signed(n: int): int {
    if Low(n) >= WORD / 2 then Low(n) - WORD else Low(n)
  }

  lemma SlotInjective(a: int, b: int)
    requires Slot(a) == Slot(b) && -CAPACITY < a - b < CAPACITY
    ensures a == b
  {
  }

  lemma LowInjective(a: int, b: int)
    requires Low(a) == Low(b) && -WORD < a - b < WORD
    ensures a == b
  {
  }

  /** What the code computes from registers is what the machine computes from ticket numbers. */
  lemma RegistersSuffice(t: int, h: int)
    ensures Slot(Low(t)) == Slot(t)
    ensures Low(Low(t) - Low(h)) == Low(t - h)
    ensures Low(Low(t) + 1) == Low(t + 1)
  {
    var q, r := t / WORD, h / WORD;
    assert t == q * WORD + Low(t) && h == r * WORD + Low(h);
    assert t - h == (q - r) * WORD + (Low(t) - Low(h));
    Shift(Low(t) - Low(h), q - r);
    Shift(Low(t) + 1, q);
    ShiftSlot(Low(t), q);
  }

  /** A 64-bit accumulator holds the low word of the exact sum. */
  lemma LowAdd(x: int, y: int)
    ensures Low(Low(x) + y) == Low(x + y)
  {
    var q := x / WORD;
    assert x + y == q * WORD + (Low(x) + y);
    Shift(Low(x) + y, q);
  }

  lemma Shift(n: int, k: int)
    ensures (k * WORD + n) % WORD == n % WORD
  {
  }

  lemma ShiftSlot(n: int, k: int)
    ensures (k * WORD + n) % CAPACITY == n % CAPACITY
  {
    assert WORD == CAPACITY * 0x1000_0000_0000;
    assert k * WORD + n == (k * 0x1000_0000_0000) * CAPACITY + n;
    ShiftCapacity(n, k * 0x1000_0000_0000);
  }

  lemma ShiftCapacity(n: int, k: int)
    ensures (k * CAPACITY + n) % CAPACITY == n % CAPACITY
  {
  }
}
