/**
 The two percentiles of a snapshot, found by partial selection in place: p99 first, then p95 inside the prefix that
 the first pass left before it.
 */
module Selection {
  import opened Ordering

  /** What the library's selection guarantees: the same elements, split at position `n`. */
  ghost predicate NthElementOf(before: seq<int>, after: seq<int>, n: nat) {
    multiset(after) == multiset(before) && n < |after| && SplitAt(after, n)
  }

  lemma SameElements(s: seq<int>, t: seq<int>, bound: int)
    requires multiset(s) == multiset(t) && forall i :: 0 <= i < |s| ==> s[i] <= bound
    ensures forall i :: 0 <= i < |t| ==> t[i] <= bound
  {
    forall i | 0 <= i < |t|
      ensures t[i] <= bound
    {
      assert t[i] in multiset(t) && t[i] in multiset(s);
    }
  }

  lemma SameLength(s: seq<int>, t: seq<int>)
    requires multiset(s) == multiset(t)
    ensures |s| == |t|
  {
    assert |multiset(s)| == |s| && |multiset(t)| == |t|;
  }

  /** The arrangement after both passes is split at the upper position ... */
  lemma UpperSplit(first: seq<int>, prefix: seq<int>, upper: nat)
    requires upper < |first| && SplitAt(first, upper) && multiset(prefix) == multiset(first[..upper])
    ensures |prefix| == upper && SplitAt(prefix + first[upper..], upper)
  {
    SameLength(prefix, first[..upper]);
    SameElements(first[..upper], prefix, first[upper]);
    var final := prefix + first[upper..];
    assert forall i :: upper <= i < |final| ==> final[i] == first[i];
  }

  /** ... and at the lower one. */
  lemma LowerSplit(prefix: seq<int>, rest: seq<int>, lower: nat)
    requires lower < |prefix| && SplitAt(prefix, lower) && rest != [] && SplitAt(prefix + rest, |prefix|)
    ensures SplitAt(prefix + rest, lower)
  {
    var final := prefix + rest;
    assert forall i :: 0 <= i < |prefix| ==> final[i] == prefix[i];
    assert final[lower] <= final[|prefix|];
  }

  /**
   Selecting the upper position first and the lower one only inside the prefix before it leaves both positions as in
   the fully sorted order, whatever two selections the library chose.
   */
  lemma TwoPassesAreSorted(s: seq<int>, first: seq<int>, prefix: seq<int>, lower: nat, upper: nat)
    requires NthElementOf(s, first, upper) && NthElementOf(first[..upper], prefix, lower)
    ensures |s| == |first| && |prefix| == upper
    ensures var final := prefix + first[upper..];
            && multiset(final) == multiset(s)
            && final[lower] == Sort(s)[lower]
            && final[upper] == Sort(s)[upper]
            && final[lower] <= final[upper]
  {
    SameLength(s, first);
    UpperSplit(first, prefix, upper);
    LowerSplit(prefix, first[upper..], lower);
    var final := prefix + first[upper..];
    assert multiset(final) == multiset(s) by {
      assert first == first[..upper] + first[upper..];
    }
    SplitIsSorted(s, final, lower);
    SplitIsSorted(s, final, upper);
  }

  /** The position of the least element from `i` on. */
  method LeastFrom(a: array<int>, i: nat, end: nat) returns (m: nat)
    requires i < end <= a.Length
    ensures i <= m < end && forall j :: i <= j < end ==> a[m] <= a[j]
  {
    m := i;
    for j := i + 1 to end
      invariant i <= m < end
      invariant forall k :: i <= k < j ==> a[m] <= a[k]
    {
      if a[j] < a[m] {
        m := j;
      }
    }
  }

  method Swap(a: array<int>, i: nat, m: nat, ghost end: nat)
    requires i <= m < end <= a.Length
    modifies a
    ensures a[i] == old(a[m]) && a[m] == old(a[i])
    ensures forall k :: 0 <= k < a.Length && k != i && k != m ==> a[k] == old(a[k])
    ensures multiset(a[..end]) == old(multiset(a[..end]))
    ensures a[end..] == old(a[end..])
  {
    a[i], a[m] := a[m], a[i];
    assert a[..end] == old(a[..end])[i := a[i]][m := a[m]];
  }

  /** A selection of position `n` of the first `end` elements, in place. */
  method NthElement(a: array<int>, n: nat, end: nat)
    requires n < end <= a.Length
    modifies a
    ensures NthElementOf(old(a[..end]), a[..end], n)
    ensures a[end..] == old(a[end..])
  {
    for i := 0 to n + 1
      invariant multiset(a[..end]) == old(multiset(a[..end]))
      invariant a[end..] == old(a[end..])
      invariant forall x, y :: 0 <= x < i && x < y < end ==> a[x] <= a[y]
    {
      var m := LeastFrom(a, i, end);
      label beforeSwap:
      Swap(a, i, m, end);
      forall x, y | 0 <= x <= i && x < y < end
        ensures a[x] <= a[y]
      {
        if x < i {
          assert a[y] == old@beforeSwap(a[y]) || a[y] == old@beforeSwap(a[i]) || a[y] == old@beforeSwap(a[m]);
        }
      }
    }
  }

  /** The two passes over distinct positions. */
  method SelectApart(a: array<int>, lower: nat, upper: nat)
    requires lower < upper < a.Length
    modifies a
    ensures multiset(a[..]) == old(multiset(a[..]))
    ensures a[lower] == Sort(old(a[..]))[lower] && a[upper] == Sort(old(a[..]))[upper]
    ensures a[lower] <= a[upper]
  {
    ghost var s := a[..];
    assert a[..a.Length] == s;
    NthElement(a, upper, a.Length);
    ghost var first := a[..a.Length];
    assert a[..upper] == first[..upper] && a[upper..] == first[upper..];
    NthElement(a, lower, upper);
    ghost var prefix := a[..upper];
    assert a[..] == prefix + first[upper..];
    TwoPassesAreSorted(s, first, prefix, lower, upper);
  }

  /** The order statistics at two positions, as the snapshot takes them. */
  method SelectTwo(a: array<int>, lower: nat, upper: nat) returns (low: int, high: int)
    requires lower <= upper < a.Length
    modifies a
    ensures multiset(a[..]) == old(multiset(a[..]))
    ensures low == Sort(old(a[..]))[lower] && high == Sort(old(a[..]))[upper]
    ensures low <= high
  {
    if upper > lower {
      SelectApart(a, lower, upper);
      low, high := a[lower], a[upper];
    } else {
      ghost var s := a[..];
      assert a[..a.Length] == s;
      NthElement(a, lower, a.Length);
      assert a[..a.Length] == a[..];
      SplitIsSorted(s, a[..], lower);
      low, high := a[lower], a[lower];
    }
  }
}
