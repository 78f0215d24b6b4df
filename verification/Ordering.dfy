/**
 Order statistics: what it means for a value to be the k-th smallest, independently of any sorting, and the two ways
 the collectors find it (a full sort, and partial selection in place).
 */
module Ordering {

  /** How many elements lie below `v`. */
  function Below(s: seq<int>, v: int): (n: nat)
    ensures n <= |s|
  {
    if s == [] then 0 else (if s[0] < v then 1 else 0) + Below(s[1..], v)
  }

  /** `v` is the value at position `k` of the sorted order of `s`. */
  predicate IsRank(s: seq<int>, k: nat, v: int) {
    Below(s, v) <= k < Below(s, v + 1)
  }

  predicate Sorted(s: seq<int>) {
    forall i, j :: 0 <= i < j < |s| ==> s[i] <= s[j]
  }

  /** Position `k` splits `s`: nothing before it is greater, nothing after it is smaller. */
  predicate SplitAt(s: seq<int>, k: nat)
    requires k < |s|
  {
    && (forall i :: 0 <= i < k ==> s[i] <= s[k])
    && (forall i :: k < i < |s| ==> s[k] <= s[i])
  }

  // ----- Counting

  lemma {:induction false} BelowConcat(s: seq<int>, t: seq<int>, v: int)
    ensures Below(s + t, v) == Below(s, v) + Below(t, v)
    decreases |s|
  {
    if s == [] {
      assert s + t == t;
    } else {
      assert (s + t)[1..] == s[1..] + t;
      BelowConcat(s[1..], t, v);
    }
  }

  lemma {:induction false} BelowNone(s: seq<int>, v: int)
    requires forall i :: 0 <= i < |s| ==> v <= s[i]
    ensures Below(s, v) == 0
    decreases |s|
  {
    if s != [] {
      BelowNone(s[1..], v);
    }
  }

  lemma {:induction false} BelowAll(s: seq<int>, v: int)
    requires forall i :: 0 <= i < |s| ==> s[i] < v
    ensures Below(s, v) == |s|
    decreases |s|
  {
    if s != [] {
      BelowAll(s[1..], v);
    }
  }

  lemma {:induction false} BelowMonotone(s: seq<int>, v: int, w: int)
    requires v <= w
    ensures Below(s, v) <= Below(s, w)
    decreases |s|
  {
    if s != [] {
      BelowMonotone(s[1..], v, w);
    }
  }

  lemma RemoveAt(t: seq<int>, j: nat)
    requires j < |t|
    ensures multiset(t[..j] + t[j + 1..]) == multiset(t) - multiset{t[j]}
  {
    assert t == t[..j] + [t[j]] + t[j + 1..];
  }

  lemma BelowRemoveAt(t: seq<int>, j: nat, v: int)
    requires j < |t|
    ensures Below(t, v) == Below(t[..j] + t[j + 1..], v) + (if t[j] < v then 1 else 0)
  {
    BelowConcat(t[..j], t[j..], v);
    assert t == t[..j] + t[j..] && t[j..][1..] == t[j + 1..];
    BelowConcat(t[..j], t[j + 1..], v);
  }

  /** Taking the first element of `s` out of both leaves permutations of each other. */
  lemma RestPermutation(s: seq<int>, t: seq<int>) returns (j: nat)
    requires s != [] && multiset(s) == multiset(t)
    ensures j < |t| && t[j] == s[0] && multiset(s[1..]) == multiset(t[..j] + t[j + 1..])
  {
    assert s[0] in multiset(t);
    j :| j < |t| && t[j] == s[0];
    RemoveAt(t, j);
    assert s == [s[0]] + s[1..];
  }

  lemma {:induction false} BelowPermutation(s: seq<int>, t: seq<int>, v: int)
    requires multiset(s) == multiset(t)
    ensures Below(s, v) == Below(t, v)
    decreases |s|
  {
    if s == [] {
      assert |multiset(t)| == 0;
    } else {
      var j := RestPermutation(s, t);
      BelowPermutation(s[1..], t[..j] + t[j + 1..], v);
      BelowRemoveAt(t, j, v);
    }
  }

  /** At most one value has a given rank. */
  lemma RankUnique(s: seq<int>, k: nat, v: int, w: int)
    requires IsRank(s, k, v) && IsRank(s, k, w)
    ensures v == w
  {
    if v < w {
      BelowMonotone(s, v + 1, w);
    } else if w < v {
      BelowMonotone(s, w + 1, v);
    }
  }

  lemma SplitGivesRank(s: seq<int>, k: nat)
    requires k < |s| && SplitAt(s, k)
    ensures IsRank(s, k, s[k])
  {
    BelowConcat(s[..k], s[k..], s[k]);
    assert s == s[..k] + s[k..];
    BelowNone(s[k..], s[k]);
    BelowConcat(s[..k + 1], s[k + 1..], s[k] + 1);
    assert s == s[..k + 1] + s[k + 1..];
    BelowAll(s[..k + 1], s[k] + 1);
  }

  // ----- Sorting

  function Insert(x: int, s: seq<int>): seq<int> {
    if s == [] || x <= s[0] then [x] + s else [s[0]] + Insert(x, s[1..])
  }

  lemma SortedCons(x: int, s: seq<int>)
    requires Sorted(s) && (s != [] ==> x <= s[0])
    ensures Sorted([x] + s)
  {
    var r := [x] + s;
    forall i, j | 0 <= i < j < |r|
      ensures r[i] <= r[j]
    {
      assert r[j] == s[j - 1] && s[0] <= s[j - 1];
    }
  }

  lemma {:induction false} InsertOk(x: int, s: seq<int>)
    requires Sorted(s)
    ensures Sorted(Insert(x, s)) && multiset(Insert(x, s)) == multiset(s) + multiset{x}
    decreases |s|
  {
    if s == [] || x <= s[0] {
      SortedCons(x, s);
    } else {
      InsertOk(x, s[1..]);
      SortedCons(s[0], Insert(x, s[1..]));
      assert s == [s[0]] + s[1..];
    }
  }

  function Sort(s: seq<int>): (r: seq<int>)
    ensures Sorted(r) && multiset(r) == multiset(s) && |r| == |s|
  {
    if s == [] then
      []
    else
      var rest := Sort(s[1..]);
      var r := Insert(s[0], rest);
      assert multiset(r) == multiset(s) by {
        InsertOk(s[0], rest);
        assert s == [s[0]] + s[1..];
      }
      assert Sorted(r) by {
        InsertOk(s[0], rest);
      }
      assert |multiset(r)| == |r| && |multiset(s)| == |s|;
      r
  }

  /** The k-th element of the sorted order is the value of rank k. */
  lemma SortedRank(s: seq<int>, k: nat)
    requires k < |s|
    ensures IsRank(s, k, Sort(s)[k])
  {
    SplitGivesRank(Sort(s), k);
    BelowPermutation(s, Sort(s), Sort(s)[k]);
    BelowPermutation(s, Sort(s), Sort(s)[k] + 1);
  }

  /** Any arrangement that is split at `k` has the sorted order's element there. */
  lemma SplitIsSorted(s: seq<int>, arranged: seq<int>, k: nat)
    requires multiset(s) == multiset(arranged) && k < |arranged| && SplitAt(arranged, k)
    ensures |s| == |arranged| && arranged[k] == Sort(s)[k]
  {
    assert |multiset(s)| == |s| && |multiset(arranged)| == |arranged|;
    SplitGivesRank(arranged, k);
    BelowPermutation(s, arranged, arranged[k]);
    BelowPermutation(s, arranged, arranged[k] + 1);
    SortedRank(s, k);
    RankUnique(s, k, arranged[k], Sort(s)[k]);
  }

  /** A value of higher rank is not smaller. */
  lemma RankMonotone(s: seq<int>, k: nat, v: int, l: nat, w: int)
    requires IsRank(s, k, v) && IsRank(s, l, w) && k <= l
    ensures v <= w
  {
    if w < v {
      BelowMonotone(s, w + 1, v);
    }
  }

  lemma {:induction false} RankIsMember(s: seq<int>, v: int)
    requires Below(s, v) < Below(s, v + 1)
    ensures v in s
  {
    if s[0] != v {
      RankIsMember(s[1..], v);
    }
  }
}
