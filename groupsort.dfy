/**
 * The quicksort the estimator uses to order groups by their largest
 * per-process buffer requirement, largest first (static swap and quicksort
 * in the estimator). It works in place on an array of group references.
 *
 * The sort changes only the array, never a group, so each group's key is
 * fixed while it runs; the contracts rank groups through a snapshot map of
 * those keys.
 */
module GroupSort {
  import opened Util
  import opened ScoreGroup

  /** The sort key: what getMaxTraceBufferSize returns. */
  ghost function KeyOf(g: Group): nat
    reads g.slots
  {
    MaxOf(g.slots[..])
  }

  type Ranking = map<Group, nat>

  function Rank(r: Ranking, g: Group): nat
  {
    if g in r then r[g] else 0
  }

  /** One group is valid and ranked by its key. */
  ghost predicate RankedOne(g: Group, r: Ranking)
    reads g, g.slots
  {
    g in r && g.Valid() && r[g] == KeyOf(g)
  }

  /** Every group of s is valid and ranked by its key. */
  ghost predicate RankedBy(s: seq<Group>, r: Ranking)
    reads set g | g in s, set g | g in s :: g.slots
  {
    forall g {:trigger RankedOne(g, r)} :: g in s ==> RankedOne(g, r)
  }

  /** Ranks do not increase over positions lo .. hi-1. */
  ghost predicate Descending(s: seq<Group>, r: Ranking, lo: nat, hi: nat)
    requires lo <= hi <= |s|
  {
    forall i, j :: lo <= i < j < hi ==> Rank(r, s[i]) >= Rank(r, s[j])
  }

  /** s1 is s0 with only the positions lo .. hi-1 rearranged. */
  ghost predicate Permuted(s0: seq<Group>, s1: seq<Group>, lo: nat, hi: nat)
  {
    lo <= hi <= |s0| && |s1| == |s0| && s1[..lo] == s0[..lo] && s1[hi..] == s0[hi..]
    && multiset(s1[lo..hi]) == multiset(s0[lo..hi])
  }

  lemma PermutedRefl(s: seq<Group>, lo: nat, hi: nat)
    requires lo <= hi <= |s|
    ensures Permuted(s, s, lo, hi)
  {
  }

  lemma SwapPermutes(s: seq<Group>, i: nat, j: nat, lo: nat, hi: nat)
    requires lo <= i < hi && lo <= j < hi && hi <= |s|
    ensures Permuted(s, s[i := s[j]][j := s[i]], lo, hi)
  {
    var t := s[i := s[j]][j := s[i]];
    assert t[lo..hi] == s[lo..hi][i - lo := s[j]][j - lo := s[i]];
  }

  lemma PermutedTrans(s0: seq<Group>, s1: seq<Group>, s2: seq<Group>, lo: nat, hi: nat)
    requires Permuted(s0, s1, lo, hi) && Permuted(s1, s2, lo, hi)
    ensures Permuted(s0, s2, lo, hi)
  {
  }

  /** A rearrangement inside a sub-range is one inside any enclosing range. */
  lemma PermutedWiden(s0: seq<Group>, s1: seq<Group>, lo: nat, hi: nat, lo': nat, hi': nat)
    requires Permuted(s0, s1, lo, hi) && lo' <= lo && hi <= hi' <= |s0|
    ensures Permuted(s0, s1, lo', hi')
  {
    assert s0[lo'..hi'] == s0[lo'..lo] + s0[lo..hi] + s0[hi..hi'];
    assert s1[lo'..hi'] == s1[lo'..lo] + s1[lo..hi] + s1[hi..hi'];
    assert s1[lo'..lo] == s1[..lo][lo'..] == s0[..lo][lo'..] == s0[lo'..lo];
    assert s1[hi..hi'] == s1[hi..][..hi' - hi] == s0[hi..][..hi' - hi] == s0[hi..hi'];
  }

  lemma PermutedKeepsMembers(s0: seq<Group>, s1: seq<Group>, lo: nat, hi: nat)
    requires Permuted(s0, s1, lo, hi)
    ensures multiset(s1) == multiset(s0)
    ensures forall g :: g in s1 <==> g in s0
  {
    PermutedWiden(s0, s1, lo, hi, 0, |s0|);
    assert s0[0..|s0|] == s0 && s1[0..|s1|] == s1;
    assert forall g :: g in s1 <==> g in multiset(s1);
  }

  datatype Side = Above | Equal | AtMost

  /** Every rank at positions lo .. hi-1 is above, equal to or at most t. */
  predicate OnSide(rank: nat, t: nat, side: Side)
  {
    match side
    case Above => rank > t
    case Equal => rank == t
    case AtMost => rank <= t
  }

  ghost predicate Bounded(s: seq<Group>, r: Ranking, lo: nat, hi: nat, t: nat, side: Side)
  {
    forall k :: lo <= k < hi && k < |s| ==> OnSide(Rank(r, s[k]), t, side)
  }

  /** s1 holds the same references as s0 at positions lo .. hi-1. */
  ghost predicate Agree(s0: seq<Group>, s1: seq<Group>, lo: nat, hi: nat)
  {
    forall k :: lo <= k < hi && k < |s0| ==> k < |s1| && s1[k] == s0[k]
  }

  lemma PermutedAgreesOutside(s0: seq<Group>, s1: seq<Group>, lo: nat, hi: nat)
    requires Permuted(s0, s1, lo, hi)
    ensures Agree(s0, s1, 0, lo) && Agree(s0, s1, hi, |s0|)
  {
    forall k | 0 <= k < lo
      ensures s1[k] == s0[k]
    {
      assert s1[k] == s1[..lo][k];
    }
    forall k | hi <= k < |s0|
      ensures s1[k] == s0[k]
    {
      assert s1[k] == s1[hi..][k - hi];
    }
  }

  lemma AgreeKeepsOrder(s0: seq<Group>, s1: seq<Group>, r: Ranking, lo: nat, hi: nat)
    requires lo <= hi <= |s0| == |s1| && Agree(s0, s1, lo, hi) && Descending(s0, r, lo, hi)
    ensures Descending(s1, r, lo, hi)
  {
  }

  lemma AgreeKeepsBounds(s0: seq<Group>, s1: seq<Group>, r: Ranking, lo: nat, hi: nat, t: nat, side: Side)
    requires Agree(s0, s1, lo, hi) && Bounded(s0, r, lo, hi, t, side) && |s1| == |s0|
    ensures Bounded(s1, r, lo, hi, t, side)
  {
  }

  lemma DescendingSub(s: seq<Group>, r: Ranking, lo: nat, hi: nat, lo': nat, hi': nat)
    requires lo <= lo' <= hi' <= hi <= |s| && Descending(s, r, lo, hi)
    ensures Descending(s, r, lo', hi')
  {
  }

  /** Ranks above, at and below a threshold put together form a descending range. */
  lemma DescendingJoin(s: seq<Group>, r: Ranking, lo: nat, beg: nat, end: nat, hi: nat, t: nat)
    requires lo <= beg <= end <= hi <= |s|
    requires Descending(s, r, lo, beg) && Descending(s, r, end, hi)
    requires Bounded(s, r, lo, beg, t, Above) && Bounded(s, r, beg, end, t, Equal)
    requires Bounded(s, r, end, hi, t, AtMost)
    ensures Descending(s, r, lo, hi)
  {
  }

  /** A bound on all ranks of a range survives its rearrangement. */
  lemma BoundsSurvive(s0: seq<Group>, s1: seq<Group>, r: Ranking, lo: nat, hi: nat, t: nat, side: Side)
    requires Permuted(s0, s1, lo, hi) && Bounded(s0, r, lo, hi, t, side)
    ensures Bounded(s1, r, lo, hi, t, side)
  {
    forall k | lo <= k < hi
      ensures OnSide(Rank(r, s1[k]), t, side)
    {
      assert s1[k] == s1[lo..hi][k - lo];
      assert s1[k] in multiset(s0[lo..hi]);
      var k' :| lo <= k' < hi && s0[k'] == s1[k] by {
        assert s1[k] in s0[lo..hi];
        var i :| 0 <= i < hi - lo && s0[lo..hi][i] == s1[k];
        assert s0[lo + i] == s1[k];
      }
    }
  }

  /** swap: exchanges the references at two positions. */
  method Swap(items: array<Group>, pos1: nat, pos2: nat)
    requires pos1 < items.Length && pos2 < items.Length
    modifies items
    ensures items[..] == old(items[..])[pos1 := old(items[pos2])][pos2 := old(items[pos1])]
  {
    var helper := items[pos1];
    items[pos1] := items[pos2];
    items[pos2] := helper;
  }

  /** The key of one item, read through getMaxTraceBufferSize. */
  method KeyAt(items: array<Group>, i: nat, ghost a0: seq<Group>, ghost r: Ranking) returns (key: nat)
    requires i < items.Length && RankedBy(a0, r) && multiset(items[..]) == multiset(a0)
    ensures key == Rank(r, items[i])
  {
    assert items[i] in multiset(items[..]);
    assert RankedOne(items[i], r);
    key := items[i].GetMaxTraceBufferSize();
  }

  /** Swap inside a range keeps the range a rearrangement of a0. */
  method SwapIn(items: array<Group>, pos1: nat, pos2: nat, lo: nat, hi: nat, ghost a0: seq<Group>, ghost r: Ranking)
    requires lo <= pos1 < hi && lo <= pos2 < hi && hi <= items.Length
    requires Permuted(a0, items[..], lo, hi) && RankedBy(a0, r)
    modifies items
    ensures items[pos1] == old(items[pos2]) && items[pos2] == old(items[pos1])
    ensures forall k :: 0 <= k < items.Length && k != pos1 && k != pos2 ==> items[k] == old(items[k])
    ensures Permuted(a0, items[..], lo, hi) && multiset(items[..]) == multiset(a0) && RankedBy(a0, r)
  {
    ghost var before := items[..];
    Swap(items, pos1, pos2);
    SwapPermutes(before, pos1, pos2, lo, hi);
    PermutedTrans(a0, before, items[..], lo, hi);
    PermutedKeepsMembers(a0, items[..], lo, hi);
  }

  /**
   * The first inner loop: skip items ranked above the threshold. It stops
   * at an item ranked at most the threshold, since one (w) lies ahead.
   */
  method SkipAbove(items: array<Group>, beg: nat, end: nat, t: nat, ghost w: nat, ghost a0: seq<Group>, ghost r: Ranking)
    returns (beg': nat)
    requires beg <= w <= end < items.Length && Rank(r, items[w]) <= t
    requires RankedBy(a0, r) && multiset(items[..]) == multiset(a0)
    ensures beg <= beg' <= w
    ensures Bounded(items[..], r, beg, beg', t, Above)
    ensures Rank(r, items[beg']) <= t
  {
    beg' := beg;
    while beg' < end
      invariant beg <= beg' <= w
      invariant Bounded(items[..], r, beg, beg', t, Above)
    {
      var key := KeyAt(items, beg', a0, r);
      if key <= t { break; }
      beg' := beg' + 1;
    }
  }

  /** The second inner loop: step back over items ranked at most the threshold. */
  method SkipAtMost(items: array<Group>, beg: nat, end: nat, t: nat, ghost a0: seq<Group>, ghost r: Ranking)
    returns (end': nat)
    requires beg <= end < items.Length
    requires RankedBy(a0, r) && multiset(items[..]) == multiset(a0)
    ensures beg <= end' <= end
    ensures Bounded(items[..], r, end' + 1, end + 1, t, AtMost)
    ensures beg < end' ==> Rank(r, items[end']) > t
  {
    end' := end;
    while beg < end'
      invariant beg <= end' <= end
      invariant Bounded(items[..], r, end' + 1, end + 1, t, AtMost)
    {
      var key := KeyAt(items, end', a0, r);
      if key > t { break; }
      end' := end' - 1;
    }
  }

  /** The last loop: step over the run of items ranked exactly the threshold. */
  method SkipEqual(items: array<Group>, end: nat, hi: nat, t: nat, ghost a0: seq<Group>, ghost r: Ranking)
    returns (end': nat)
    requires end < hi <= items.Length && Rank(r, items[end]) == t
    requires RankedBy(a0, r) && multiset(items[..]) == multiset(a0)
    ensures end < end' <= hi
    ensures Bounded(items[..], r, end, end', t, Equal)
  {
    end' := end;
    while end' < hi
      invariant end <= end' <= hi
      invariant Bounded(items[..], r, end, end', t, Equal)
      invariant end' > end || Rank(r, items[end']) == t
    {
      var key := KeyAt(items, end', a0, r);
      if key != t { break; }
      end' := end' + 1;
    }
  }

  /** Rearranging a ranked sequence keeps it ranked. */
  lemma RankedByPermuted(s0: seq<Group>, s1: seq<Group>, r: Ranking)
    requires RankedBy(s0, r) && multiset(s1) == multiset(s0)
    ensures RankedBy(s1, r)
  {
    forall g | g in s1
      ensures RankedOne(g, r)
    {
      assert g in multiset(s1);
    }
  }

  /**
   * What holds between two rounds of the partition loop over lo .. hi-1 of
   * s, which started from a0: items before beg are ranked above t, items
   * after end at most t, w is an item in between ranked at most t, pos holds
   * the threshold item, and a descending a0 has not been touched.
   */
  ghost predicate Partitioning(s: seq<Group>, a0: seq<Group>, r: Ranking, lo: nat, hi: nat,
                               beg: nat, end: nat, pos: nat, w: nat, t: nat, sorted: bool)
  {
    lo <= beg <= w <= end < hi <= |s| && lo <= pos < hi
    && Rank(r, s[pos]) == t && Rank(r, s[w]) <= t
    && Bounded(s, r, lo, beg, t, Above) && Bounded(s, r, end + 1, hi, t, AtMost)
    && Permuted(a0, s, lo, hi) && multiset(s) == multiset(a0)
    && (sorted ==> s == a0)
  }

  /** Decreases with every round of the partition loop. */
  function Progress(s: seq<Group>, r: Ranking, beg: nat, end: nat, t: nat): nat
    requires beg <= end && beg < |s|
  {
    2 * (end - beg) + (if Rank(r, s[beg]) > t then 0 else 1)
  }

  /** One round of the partition loop: both scans and at most one swap. */
  method PartitionRound(items: array<Group>, lo: nat, hi: nat, beg: nat, end: nat, pos: nat, t: nat,
                        ghost w: nat, ghost a0: seq<Group>, ghost r: Ranking, ghost sorted: bool)
    returns (beg': nat, end': nat, pos': nat, ghost w': nat)
    requires beg < end && Partitioning(items[..], a0, r, lo, hi, beg, end, pos, w, t, sorted)
    requires RankedBy(a0, r) && (sorted ==> Descending(a0, r, lo, hi))
    modifies items
    ensures Partitioning(items[..], a0, r, lo, hi, beg', end', pos', w', t, sorted)
    ensures Progress(items[..], r, beg', end', t) < Progress(old(items[..]), r, beg, end, t)
  {
    beg' := SkipAbove(items, beg, end, t, w, a0, r);
    assert Bounded(items[..], r, lo, beg', t, Above) by {
      forall k | lo <= k < beg'
        ensures Rank(r, items[k]) > t
      {
        if k >= beg {}
      }
    }
    w' := beg';
    end' := SkipAtMost(items, beg', end, t, a0, r);
    assert Bounded(items[..], r, end' + 1, hi, t, AtMost) by {
      forall k | end' + 1 <= k < hi
        ensures Rank(r, items[k]) <= t
      {
        if k > end {}
      }
    }
    pos' := pos;
    if beg' < end' {
      assert !sorted;
      ghost var mid := items[..];
      SwapIn(items, beg', end', lo, hi, a0, r);
      AgreeKeepsBounds(mid, items[..], r, lo, beg', t, Above);
      AgreeKeepsBounds(mid, items[..], r, end' + 1, hi, t, AtMost);
      if beg' == pos {
        pos' := end';
      } else if end' == pos {
        pos' := beg';
      }
      w' := end';
    }
  }

  /**
   * The partition step of quicksort for a range of at least three items:
   * items ranked above the threshold, then the run ranked equal to it, then
   * items ranked at most it. An already descending range is left as it is.
   */
  method Partition(items: array<Group>, lo: nat, hi: nat, ghost r: Ranking)
    returns (beg: nat, end: nat, ghost threshold: nat)
    requires lo + 3 <= hi <= items.Length
    requires RankedBy(items[..], r)
    modifies items
    ensures lo <= beg < end <= hi
    ensures Permuted(old(items[..]), items[..], lo, hi)
    ensures Bounded(items[..], r, lo, beg, threshold, Above)
    ensures Bounded(items[..], r, beg, end, threshold, Equal)
    ensures Bounded(items[..], r, end, hi, threshold, AtMost)
    ensures Descending(old(items[..]), r, lo, hi) ==> items[..] == old(items[..])
  {
    ghost var a0 := items[..];
    ghost var sorted := Descending(a0, r, lo, hi);
    beg, end := lo, hi - 1;
    var pos: nat := lo + (hi - lo) / 2;
    var t := KeyAt(items, pos, a0, r);
    threshold := t;
    ghost var w: nat := pos;
    PermutedRefl(a0, lo, hi);
    while beg < end
      invariant Partitioning(items[..], a0, r, lo, hi, beg, end, pos, w, t, sorted)
      invariant RankedBy(a0, r)
      decreases Progress(items[..], r, beg, end, t)
    {
      beg, end, pos, w := PartitionRound(items, lo, hi, beg, end, pos, t, w, a0, r, sorted);
    }
    end := Settle(items, lo, hi, beg, end, pos, t, w, a0, r, sorted);
  }

  /**
   * After the partition loop: puts the threshold item right after the
   * items ranked above it, then steps over the run ranked equal to it.
   */
  method Settle(items: array<Group>, lo: nat, hi: nat, beg: nat, end: nat, pos: nat, t: nat,
                ghost w: nat, ghost a0: seq<Group>, ghost r: Ranking, ghost sorted: bool)
    returns (end': nat)
    requires beg >= end && Partitioning(items[..], a0, r, lo, hi, beg, end, pos, w, t, sorted)
    requires RankedBy(a0, r) && (sorted ==> Descending(a0, r, lo, hi))
    modifies items
    ensures beg == end < end' <= hi
    ensures Permuted(a0, items[..], lo, hi) && multiset(items[..]) == multiset(a0)
    ensures Bounded(items[..], r, lo, beg, t, Above)
    ensures Bounded(items[..], r, beg, end', t, Equal)
    ensures Bounded(items[..], r, end', hi, t, AtMost)
    ensures sorted ==> items[..] == a0
  {
    var key := KeyAt(items, end, a0, r);
    if key < t {
      assert end < pos;
      ghost var mid := items[..];
      SwapIn(items, end, pos, lo, hi, a0, r);
      AgreeKeepsBounds(mid, items[..], r, lo, beg, t, Above);
      assert Bounded(items[..], r, end + 1, hi, t, AtMost) by {
        forall k | end + 1 <= k < hi
          ensures Rank(r, items[k]) <= t
        {
          if k != pos {
            assert items[k] == mid[k];
          }
        }
      }
    }
    end' := SkipEqual(items, end, hi, t, a0, r);
  }

  /**
   * quicksort on the range lo .. hi-1: afterwards the ranks there do not
   * increase, the range holds the same references, nothing outside it moved,
   * and an already descending range is not touched.
   */
  method Quicksort(items: array<Group>, lo: nat, hi: nat, ghost r: Ranking)
    requires lo <= hi <= items.Length
    requires RankedBy(items[..], r)
    modifies items
    ensures Permuted(old(items[..]), items[..], lo, hi)
    ensures Descending(items[..], r, lo, hi)
    ensures Descending(old(items[..]), r, lo, hi) ==> items[..] == old(items[..])
    decreases hi - lo, 1
  {
    ghost var a0 := items[..];
    PermutedRefl(a0, lo, hi);
    if hi - lo < 2 {
      return;
    }
    if hi - lo == 2 {
      var k0 := KeyAt(items, lo, a0, r);
      var k1 := KeyAt(items, lo + 1, a0, r);
      if k0 < k1 {
        SwapIn(items, lo, lo + 1, lo, hi, a0, r);
      }
      return;
    }
    var beg, end, t := Partition(items, lo, hi, r);
    ghost var a1 := items[..];
    PermutedKeepsMembers(a0, a1, lo, hi);
    RankedByPermuted(a0, a1, r);
    if Descending(a0, r, lo, hi) {
      DescendingSub(a1, r, lo, hi, lo, beg);
      DescendingSub(a1, r, lo, hi, end, hi);
    }
    SortParts(items, lo, beg, end, hi, t, r);
    PermutedTrans(a0, a1, items[..], lo, hi);
  }

  /** The two recursive calls of quicksort, around the run ranked equal to the threshold. */
  method SortParts(items: array<Group>, lo: nat, beg: nat, end: nat, hi: nat, ghost t: nat, ghost r: Ranking)
    requires lo <= beg < end <= hi <= items.Length && RankedBy(items[..], r)
    requires Bounded(items[..], r, lo, beg, t, Above)
    requires Bounded(items[..], r, beg, end, t, Equal)
    requires Bounded(items[..], r, end, hi, t, AtMost)
    modifies items
    ensures Permuted(old(items[..]), items[..], lo, hi)
    ensures Descending(items[..], r, lo, hi)
    ensures Descending(old(items[..]), r, lo, beg) && Descending(old(items[..]), r, end, hi) ==>
      items[..] == old(items[..])
    decreases hi - lo, 0
  {
    ghost var a1 := items[..];
    Quicksort(items, lo, beg, r);
    ghost var a2 := items[..];
    PermutedKeepsMembers(a1, a2, lo, beg);
    RankedByPermuted(a1, a2, r);
    BoundsSurvive(a1, a2, r, lo, beg, t, Above);
    PermutedAgreesOutside(a1, a2, lo, beg);
    AgreeKeepsBounds(a1, a2, r, beg, end, t, Equal);
    AgreeKeepsBounds(a1, a2, r, end, hi, t, AtMost);
    Quicksort(items, end, hi, r);
    ghost var a3 := items[..];
    BoundsSurvive(a2, a3, r, end, hi, t, AtMost);
    PermutedAgreesOutside(a2, a3, end, hi);
    AgreeKeepsBounds(a2, a3, r, lo, beg, t, Above);
    AgreeKeepsBounds(a2, a3, r, beg, end, t, Equal);
    AgreeKeepsOrder(a2, a3, r, lo, beg);
    DescendingJoin(a3, r, lo, beg, end, hi, t);
    PermutedWiden(a1, a2, lo, beg, lo, hi);
    PermutedWiden(a2, a3, end, hi, lo, hi);
    PermutedTrans(a1, a2, a3, lo, hi);
  }
}
