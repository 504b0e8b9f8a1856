// The small-array half of BlitSort (code/Core/BlitSort.h): the branchless
// compare-and-swap, the sorting networks for up to sixteen elements, the
// parity merge that fills a block from both ends at once, the insertion
// sort that finishes a short array, and tail_swap, which picks among them.
// Every method works on a range of an integer array and keeps the rest of
// the array as it was.

module BlitSortNetworks {
  import opened SortSpec

  /** `s` with s[i] and s[i + 1] exchanged when they are out of order. */
  function OrderPair(s: seq<int>, i: nat): (r: seq<int>)
    requires i + 1 < |s|
    ensures |r| == |s| && r[i] <= r[i + 1]
    ensures r[i] == Min(s[i], s[i + 1]) && r[i + 1] == Max(s[i], s[i + 1])
    ensures forall k :: 0 <= k < |s| && k != i && k != i + 1 ==> r[k] == s[k]
  {
    if s[i] > s[i + 1] then s[i := s[i + 1]][i + 1 := s[i]] else s
  }

  function Min(x: int, y: int): int { if x <= y then x else y }

  function Max(x: int, y: int): int { if x <= y then y else x }

  /** Ordering a pair inside a range rearranges only that range. */
  lemma OrderPairPermutes(s: seq<int>, i: nat, lo: nat, hi: nat)
    requires lo <= i && i + 2 <= hi <= |s|
    ensures Permutes(s, OrderPair(s, i), lo, hi)
  {
    var r := OrderPair(s, i);
    if s[i] > s[i + 1] {
      assert r[lo..hi] == s[lo..hi][i - lo := s[i + 1]][i + 1 - lo := s[i]];
    }
    assert r[..lo] == s[..lo];
    assert r[hi..] == s[hi..];
  }

  /** The branchless compare-and-swap that every network below is made of. */
  method CompareSwap(a: array<int>, i: nat)
    requires i + 1 < a.Length
    modifies a
    ensures a[..] == OrderPair(old(a[..]), i)
  {
    var x := if a[i] > a[i + 1] then 1 else 0;
    var y := 1 - x;
    var swap := a[i + y];
    a[i] := a[i + x];
    a[i + 1] := swap;
  }

  /** What bubble_sort leaves in the array. */
  function Bubble(s: seq<int>, n: nat): seq<int>
    requires n <= 3 && n <= |s|
  {
    if n > 2 then OrderPair(OrderPair(OrderPair(s, 0), 1), 0)
    else if n == 2 then OrderPair(s, 0)
    else s
  }

  /** Three compare-and-swaps sort up to three elements. */
  lemma BubbleSorts(s: seq<int>, n: nat)
    requires n <= 3 && n <= |s|
    ensures Sorted(Bubble(s, n)[..n]) && Permutes(s, Bubble(s, n), 0, n)
  {
    if n > 2 {
      var s1 := OrderPair(s, 0);
      var s2 := OrderPair(s1, 1);
      OrderPairPermutes(s, 0, 0, n);
      OrderPairPermutes(s1, 1, 0, n);
      OrderPairPermutes(s2, 0, 0, n);
      PermutesTrans(s, s1, s2, 0, n);
      PermutesTrans(s, s2, Bubble(s, n), 0, n);
      AdjacentRange(Bubble(s, n), 0, n);
    } else if n == 2 {
      OrderPairPermutes(s, 0, 0, n);
      AdjacentRange(Bubble(s, n), 0, n);
    } else {
      AdjacentRange(s, 0, n);
    }
  }

  /** bubble_sort: sorts up to three elements with three compare-and-swaps. */
  method BubbleSort(a: array<int>, n: nat)
    requires n <= 3 && n <= a.Length
    modifies a
    ensures a[..] == Bubble(old(a[..]), n)
    ensures Sorted(a[..n]) && Permutes(old(a[..]), a[..], 0, n)
  {
    ghost var s := a[..];
    if n > 1 {
      if n > 2 {
        CompareSwap(a, 0);
        CompareSwap(a, 1);
      }
      CompareSwap(a, 0);
    }
    BubbleSorts(s, n);
  }

  /** `s` with s[i] and s[i + 1] exchanged. */
  function SwapPair(s: seq<int>, i: nat): (r: seq<int>)
    requires i + 1 < |s|
    ensures |r| == |s| && r[i] == s[i + 1] && r[i + 1] == s[i]
    ensures forall k :: 0 <= k < |s| && k != i && k != i + 1 ==> r[k] == s[k]
  {
    s[i := s[i + 1]][i + 1 := s[i]]
  }

  /** What quad_swap_four leaves in the array. */
  function QuadFour(s: seq<int>, lo: nat): seq<int>
    requires lo + 4 <= |s|
  {
    var s2 := OrderPair(OrderPair(s, lo), lo + 2);
    if s2[lo + 1] > s2[lo + 2] then
      OrderPair(OrderPair(OrderPair(SwapPair(s2, lo + 1), lo), lo + 2), lo + 1)
    else s2
  }

  /** The four-element network sorts its four elements and touches nothing else. */
  lemma QuadFourSorts(s: seq<int>, lo: nat)
    requires lo + 4 <= |s|
    ensures Sorted(QuadFour(s, lo)[lo..lo + 4]) && Permutes(s, QuadFour(s, lo), lo, lo + 4)
  {
    var s2 := OrderPair(OrderPair(s, lo), lo + 2);
    QuadFourPermutes(s, lo);
    if s2[lo + 1] > s2[lo + 2] {
      QuadFourCrossed(s2, lo);
    }
    AdjacentRange(QuadFour(s, lo), lo, lo + 4);
  }

  lemma QuadFourPermutes(s: seq<int>, lo: nat)
    requires lo + 4 <= |s|
    ensures Permutes(s, QuadFour(s, lo), lo, lo + 4)
  {
    var s1 := OrderPair(s, lo);
    var s2 := OrderPair(s1, lo + 2);
    OrderPairPermutes(s, lo, lo, lo + 4);
    OrderPairPermutes(s1, lo + 2, lo, lo + 4);
    PermutesTrans(s, s1, s2, lo, lo + 4);
    if s2[lo + 1] > s2[lo + 2] {
      var s3 := SwapPair(s2, lo + 1);
      var s4 := OrderPair(s3, lo);
      var s5 := OrderPair(s4, lo + 2);
      SwapPermutes(s2, lo + 1, lo, lo + 4);
      PermutesTrans(s, s2, s3, lo, lo + 4);
      OrderPairPermutes(s3, lo, lo, lo + 4);
      PermutesTrans(s, s3, s4, lo, lo + 4);
      OrderPairPermutes(s4, lo + 2, lo, lo + 4);
      PermutesTrans(s, s4, s5, lo, lo + 4);
      OrderPairPermutes(s5, lo + 1, lo, lo + 4);
      PermutesTrans(s, s5, QuadFour(s, lo), lo, lo + 4);
    }
  }

  /** Two ordered pairs that cross are put in order by the second half of the network. */
  lemma QuadFourCrossed(s: seq<int>, lo: nat)
    requires lo + 4 <= |s| && s[lo] <= s[lo + 1] && s[lo + 2] <= s[lo + 3] && s[lo + 1] > s[lo + 2]
    ensures var t := OrderPair(OrderPair(OrderPair(SwapPair(s, lo + 1), lo), lo + 2), lo + 1);
      t[lo] <= t[lo + 1] <= t[lo + 2] <= t[lo + 3]
  {
  }

  /** quad_swap_four: sorts the four elements from `lo` on. */
  method QuadSwapFour(a: array<int>, lo: nat)
    requires lo + 4 <= a.Length
    modifies a
    ensures Sorted(a[lo..lo + 4]) && Permutes(old(a[..]), a[..], lo, lo + 4)
  {
    ghost var s := a[..];
    CompareSwap(a, lo);
    CompareSwap(a, lo + 2);
    if a[lo + 1] > a[lo + 2] {
      a[lo + 1], a[lo + 2] := a[lo + 2], a[lo + 1];
      CompareSwap(a, lo);
      CompareSwap(a, lo + 2);
      CompareSwap(a, lo + 1);
    }
    QuadFourSorts(s, lo);
  }

  /**
   * parity_merge: merges the ordered runs from[flo..flo + block) and
   * from[flo + block..flo + 2 * block) into dest from both ends at once. Each
   * round writes the next element from the front and the next from the back,
   * each together with a placeholder that the following round overwrites;
   * the last round writes the two middle elements. parity_merge_two and
   * parity_merge_four are this merge unrolled for blocks of two and four.
   */
  method ParityMerge(dest: array<int>, dlo: nat, from: array<int>, flo: nat, block: nat)
    requires dest != from && block >= 1
    requires dlo + 2 * block <= dest.Length && flo + 2 * block <= from.Length
    requires Sorted(from[flo..flo + block]) && Sorted(from[flo + block..flo + 2 * block])
    modifies dest
    ensures dest[dlo..dlo + 2 * block] == Merge(from[flo..flo + block], from[flo + block..flo + 2 * block])
    ensures dest[..dlo] == old(dest[..dlo]) && dest[dlo + 2 * block..] == old(dest[dlo + 2 * block..])
  {
    ghost var l, r := from[flo..flo + block], from[flo + block..flo + 2 * block];
    ghost var m := MergeFrom(l, r, 0, 0);
    MergeBothEnds(l, r);
    // The cursors are offsets: ptl is from[flo + i], ptr is from[flo + block + j] and
    // ptd is dest[dlo + k]; tpl is from[flo + tl - 1], tpr is from[flo + block + tr - 1]
    // and tpd is dest[dlo + td - 1].
    ghost var d0 := dest[..];
    var i, j, k := 0, 0, 0;
    var tl, tr, td := block, block, 2 * block;
    var rounds := 1;
    while rounds < block
      invariant ParityState(dest[..], d0, dlo, block, m, l, r, rounds, i, j, tl, tr)
      invariant k == rounds - 1 && td == tl + tr
    {
      i, j, tl, tr := ParityRound(dest, dlo, from, flo, block, m, l, r, d0, rounds, i, j, k, tl, tr, td);
      k, td := k + 1, td - 1;
      rounds := rounds + 1;
    }
    MiddleMerge(dest, dlo, from, flo, block, m, l, r, i, j, tl, tr);
    MergeFromStart(l, r);
  }

  /**
   * Where parity_merge stands before round `rounds`: the front cursors have
   * placed rounds - 1 elements of the merge m, the back cursors as many
   * from the end, and dest outside its 2 * block places is as it was (d0).
   */
  ghost predicate ParityState(d: seq<int>, d0: seq<int>, dlo: nat, block: nat, m: seq<int>, l: seq<int>, r: seq<int>,
                              rounds: nat, i: nat, j: nat, tl: nat, tr: nat)
  {
    1 <= rounds <= block && |d| == |d0| && dlo + 2 * block <= |d|
    && i + j == rounds - 1 && i <= block && j <= block
    && tl + tr == 2 * block - rounds + 1 && tl <= block && tr <= block
    && FrontAt(m, l, r, rounds - 1, i, j) && BackAt(m, l, r, tl + tr, tl, tr)
    && Placed(d, dlo, m, 0, rounds - 1) && Placed(d, dlo, m, tl + tr, 2 * block)
    && d[..dlo] == d0[..dlo] && d[dlo + 2 * block..] == d0[dlo + 2 * block..]
  }

  /** One round of parity_merge's loop: a step from the front and a step from the back. */
  method ParityRound(dest: array<int>, dlo: nat, from: array<int>, flo: nat, block: nat,
                     ghost m: seq<int>, ghost l: seq<int>, ghost r: seq<int>, ghost d0: seq<int>,
                     rounds: nat, i: nat, j: nat, k: nat, tl: nat, tr: nat, td: nat)
    returns (i': nat, j': nat, tl': nat, tr': nat)
    requires dest != from && flo + 2 * block <= from.Length
    requires l == from[flo..flo + block] && r == from[flo + block..flo + 2 * block]
    requires rounds < block && k == rounds - 1 && td == tl + tr
    requires ParityState(dest[..], d0, dlo, block, m, l, r, rounds, i, j, tl, tr)
    modifies dest
    ensures ParityState(dest[..], d0, dlo, block, m, l, r, rounds + 1, i', j', tl', tr')
  {
    i', j' := HeadMerge(dest, dlo, from, flo, block, m, l, r, i, j, k, td);
    tl', tr' := TailMerge(dest, dlo, from, flo, block, m, l, r, tl, tr, td, k + 1);
  }

  /**
   * One step of parity_merge from the front (head_branchless_merge): the
   * smaller head, the left one on a tie, goes to ptd and the other head to
   * ptd + 1, where the next step overwrites it.
   */
  method HeadMerge(dest: array<int>, dlo: nat, from: array<int>, flo: nat, block: nat,
                   ghost m: seq<int>, ghost l: seq<int>, ghost r: seq<int>, i: nat, j: nat, k: nat, ghost hi: nat)
    returns (i': nat, j': nat)
    requires dest != from && dlo + 2 * block <= dest.Length && flo + 2 * block <= from.Length
    requires l == from[flo..flo + block] && r == from[flo + block..flo + 2 * block]
    requires i < block && j < block && k + 1 < hi <= 2 * block
    requires FrontAt(m, l, r, k, i, j)
    requires Placed(dest[..], dlo, m, 0, k) && Placed(dest[..], dlo, m, hi, 2 * block)
    modifies dest
    ensures i' + j' == i + j + 1 && i <= i' && j <= j'
    ensures FrontAt(m, l, r, k + 1, i', j')
    ensures Placed(dest[..], dlo, m, 0, k + 1) && Placed(dest[..], dlo, m, hi, 2 * block)
    ensures dest[..dlo] == old(dest[..dlo]) && dest[dlo + 2 * block..] == old(dest[dlo + 2 * block..])
  {
    FrontNext(m, l, r, k, i, j);
    if from[flo + i] <= from[flo + block + j] {
      dest[dlo + k + 1] := from[flo + block + j];
      dest[dlo + k] := from[flo + i];
      i', j' := i + 1, j;
    } else {
      dest[dlo + k] := from[flo + block + j];
      dest[dlo + k + 1] := from[flo + i];
      i', j' := i, j + 1;
    }
  }

  /**
   * One step of parity_merge from the back (tail_branchless_merge): tpd moves
   * down one place, the larger tail, the right one on a tie, goes to tpd + 1
   * and the other tail to tpd, where the next step overwrites it.
   */
  method TailMerge(dest: array<int>, dlo: nat, from: array<int>, flo: nat, block: nat,
                   ghost m: seq<int>, ghost l: seq<int>, ghost r: seq<int>, tl: nat, tr: nat, td: nat, ghost lo: nat)
    returns (tl': nat, tr': nat)
    requires dest != from && dlo + 2 * block <= dest.Length && flo + 2 * block <= from.Length
    requires l == from[flo..flo + block] && r == from[flo + block..flo + 2 * block]
    requires 0 < tl <= block && 0 < tr <= block && lo + 2 <= td <= 2 * block
    requires BackAt(m, l, r, td, tl, tr)
    requires Placed(dest[..], dlo, m, 0, lo) && Placed(dest[..], dlo, m, td, 2 * block)
    modifies dest
    ensures tl' + tr' == tl + tr - 1 && tl' <= tl && tr' <= tr
    ensures BackAt(m, l, r, td - 1, tl', tr')
    ensures Placed(dest[..], dlo, m, 0, lo) && Placed(dest[..], dlo, m, td - 1, 2 * block)
    ensures dest[..dlo] == old(dest[..dlo]) && dest[dlo + 2 * block..] == old(dest[dlo + 2 * block..])
  {
    BackNext(m, l, r, td, tl, tr);
    if from[flo + tl - 1] <= from[flo + block + tr - 1] {
      dest[dlo + td - 1] := from[flo + block + tr - 1];
      dest[dlo + td - 2] := from[flo + tl - 1];
      tl', tr' := tl, tr - 1;
    } else {
      dest[dlo + td - 2] := from[flo + block + tr - 1];
      dest[dlo + td - 1] := from[flo + tl - 1];
      tl', tr' := tl - 1, tr;
    }
  }

  /**
   * The last step of parity_merge: the smaller of the two heads goes to ptd
   * and the larger of the two tails to tpd, the two middle places.
   */
  method MiddleMerge(dest: array<int>, dlo: nat, from: array<int>, flo: nat, block: nat,
                     ghost m: seq<int>, ghost l: seq<int>, ghost r: seq<int>, i: nat, j: nat, tl: nat, tr: nat)
    requires dest != from && block >= 1 && dlo + 2 * block <= dest.Length && flo + 2 * block <= from.Length
    requires l == from[flo..flo + block] && r == from[flo + block..flo + 2 * block]
    requires i < block && j < block && 0 < tl <= block && 0 < tr <= block && |m| == 2 * block
    requires FrontAt(m, l, r, block - 1, i, j) && BackAt(m, l, r, block + 1, tl, tr)
    requires Placed(dest[..], dlo, m, 0, block - 1) && Placed(dest[..], dlo, m, block + 1, 2 * block)
    modifies dest
    ensures dest[dlo..dlo + 2 * block] == m
    ensures dest[..dlo] == old(dest[..dlo]) && dest[dlo + 2 * block..] == old(dest[dlo + 2 * block..])
  {
    var low, high := MiddlePair(from, flo, block, m, l, r, i, j, tl, tr);
    ghost var d := dest[..];
    dest[dlo + block - 1] := low;
    dest[dlo + block] := high;
    ghost var e := d[dlo + block - 1 := low][dlo + block := high];
    assert dest[..] == e;
    PlacedMiddle(d, dlo, m, block);
    assert dest[dlo..dlo + 2 * block] == e[dlo..dlo + 2 * block];
  }

  /** The two middle elements of the merge: the smaller of the two heads and the larger of the two tails. */
  method MiddlePair(from: array<int>, flo: nat, block: nat, ghost m: seq<int>, ghost l: seq<int>, ghost r: seq<int>,
                    i: nat, j: nat, tl: nat, tr: nat) returns (low: int, high: int)
    requires block >= 1 && flo + 2 * block <= from.Length
    requires l == from[flo..flo + block] && r == from[flo + block..flo + 2 * block]
    requires i < block && j < block && 0 < tl <= block && 0 < tr <= block && |m| == 2 * block
    requires FrontAt(m, l, r, block - 1, i, j) && BackAt(m, l, r, block + 1, tl, tr)
    ensures low == m[block - 1] && high == m[block]
  {
    FrontNext(m, l, r, block - 1, i, j);
    BackNext(m, l, r, block + 1, tl, tr);
    low := if from[flo + i] <= from[flo + block + j] then from[flo + i] else from[flo + block + j];
    high := if from[flo + tl - 1] > from[flo + block + tr - 1] then from[flo + tl - 1] else from[flo + block + tr - 1];
  }

  /** m[k..] is what is left of the merge of l and r once i and j of their heads are taken. */
  ghost predicate FrontAt(m: seq<int>, l: seq<int>, r: seq<int>, k: nat, i: nat, j: nat)
  {
    k <= |m| && i <= |l| && j <= |r| && m[k..] == MergeFrom(l, r, i, j)
  }

  /** m[..h] is the merge of the first i elements of l and the first j of r. */
  ghost predicate BackAt(m: seq<int>, l: seq<int>, r: seq<int>, h: nat, i: nat, j: nat)
  {
    h <= |m| && i <= |l| && j <= |r| && m[..h] == MergeTo(l, r, i, j)
  }

  /** Positions lo to hi of m already sit in d from dlo on. */
  ghost predicate Placed(d: seq<int>, dlo: nat, m: seq<int>, lo: nat, hi: nat)
  {
    lo <= hi <= |m| && dlo + hi <= |d| && forall q :: lo <= q < hi ==> d[dlo + q] == m[q]
  }

  /** Placing the two middle elements between two placed ranges places all of m. */
  lemma PlacedMiddle(d: seq<int>, dlo: nat, m: seq<int>, mid: nat)
    requires 1 <= mid < |m| && Placed(d, dlo, m, 0, mid - 1) && Placed(d, dlo, m, mid + 1, |m|)
    ensures d[dlo + mid - 1 := m[mid - 1]][dlo + mid := m[mid]][dlo..dlo + |m|] == m
  {
  }

  /** Built from the front or from the back, the merge of two ordered runs is the same sequence. */
  lemma MergeBothEnds(l: seq<int>, r: seq<int>)
    requires Sorted(l) && Sorted(r)
    ensures MergeFrom(l, r, 0, 0) == MergeTo(l, r, |l|, |r|)
  {
    MergeFromStart(l, r);
    MergeToIsMerge(l, r, |l|, |r|);
    assert l[..|l|] == l && r[..|r|] == r;
  }

  /** The merge built from the front, started at the heads, is the stable merge. */
  lemma MergeFromStart(l: seq<int>, r: seq<int>)
    ensures MergeFrom(l, r, 0, 0) == Merge(l, r)
  {
    MergeFromIsMerge(l, r, 0, 0);
    assert l[0..] == l && r[0..] == r;
  }

  /**
   * parity_swap_eight: sorts the eight elements from `lo` on. The four pairs
   * are ordered first; when neighbouring pairs already meet in order the
   * eight are sorted, otherwise two merges of pairs into a scratch buffer
   * and a merge of the two fours back into the array finish the sort.
   */
  method ParitySwapEight(a: array<int>, lo: nat)
    requires lo + 8 <= a.Length
    modifies a
    ensures Sorted(a[lo..lo + 8]) && Permutes(old(a[..]), a[..], lo, lo + 8)
  {
    ghost var s0 := a[..];
    CompareSwap(a, lo);
    CompareSwap(a, lo + 2);
    CompareSwap(a, lo + 4);
    CompareSwap(a, lo + 6);
    ghost var s := a[..];
    PairsSort(s0, lo);
    if a[lo + 1] <= a[lo + 2] && a[lo + 3] <= a[lo + 4] && a[lo + 5] <= a[lo + 6] {
      RunsMeet(s, lo, 2);
      return;
    }
    MergeRuns(a, lo, 2);
    PermutesTrans(s0, s, a[..], lo, lo + 8);
  }

  /** The four pairs from `lo` on ordered one after the other, as parity_swap_eight starts. */
  function Pairs(s: seq<int>, lo: nat): seq<int>
    requires lo + 8 <= |s|
  {
    OrderPair(OrderPair(OrderPair(OrderPair(s, lo), lo + 2), lo + 4), lo + 6)
  }

  /** Ordering the four pairs leaves four ordered runs of two and rearranges only those eight. */
  lemma PairsSort(s: seq<int>, lo: nat)
    requires lo + 8 <= |s|
    ensures Runs(Pairs(s, lo), lo, 2) && Permutes(s, Pairs(s, lo), lo, lo + 8)
  {
    PairsPermute(s, lo);
    var t := Pairs(s, lo);
    assert t[lo] <= t[lo + 1] && t[lo + 2] <= t[lo + 3] && t[lo + 4] <= t[lo + 5] && t[lo + 6] <= t[lo + 7];
    SortedTwo(t, lo);
    SortedTwo(t, lo + 2);
    SortedTwo(t, lo + 4);
    SortedTwo(t, lo + 6);
  }

  lemma PairsPermute(s: seq<int>, lo: nat)
    requires lo + 8 <= |s|
    ensures Permutes(s, Pairs(s, lo), lo, lo + 8)
  {
    var t1 := OrderPair(s, lo);
    var t2 := OrderPair(t1, lo + 2);
    var t3 := OrderPair(t2, lo + 4);
    OrderPairPermutes(s, lo, lo, lo + 8);
    OrderPairPermutes(t1, lo + 2, lo, lo + 8);
    PermutesTrans(s, t1, t2, lo, lo + 8);
    OrderPairPermutes(t2, lo + 4, lo, lo + 8);
    PermutesTrans(s, t2, t3, lo, lo + 8);
    OrderPairPermutes(t3, lo + 6, lo, lo + 8);
    PermutesTrans(s, t3, Pairs(s, lo), lo, lo + 8);
  }

  /** Two neighbours in order are an ordered run. */
  lemma SortedTwo(s: seq<int>, i: nat)
    requires i + 1 < |s| && s[i] <= s[i + 1]
    ensures Sorted(s[i..i + 2])
  {
  }

  /**
   * parity_swap_sixteen: sorts the sixteen elements from `lo` on. The four
   * fours are sorted first; when neighbouring fours already meet in order
   * the sixteen are sorted, otherwise two merges of fours into a scratch
   * buffer and a merge of the two eights back into the array finish the sort.
   */
  method ParitySwapSixteen(a: array<int>, lo: nat)
    requires lo + 16 <= a.Length
    modifies a
    ensures Sorted(a[lo..lo + 16]) && Permutes(old(a[..]), a[..], lo, lo + 16)
  {
    ghost var s0 := a[..];
    QuadSwapFour(a, lo);
    ghost var t1 := a[..];
    QuadSwapFour(a, lo + 4);
    ghost var t2 := a[..];
    QuadSwapFour(a, lo + 8);
    ghost var t3 := a[..];
    QuadSwapFour(a, lo + 12);
    ghost var s := a[..];
    QuadsSort(s0, t1, t2, t3, s, lo);
    if a[lo + 3] <= a[lo + 4] && a[lo + 7] <= a[lo + 8] && a[lo + 11] <= a[lo + 12] {
      RunsMeet(s, lo, 4);
      return;
    }
    MergeRuns(a, lo, 4);
    PermutesTrans(s0, s, a[..], lo, lo + 16);
  }

  /**
   * The three parity merges that finish parity_swap_eight (runs of two,
   * there through the unrolled parity_merge_two and parity_merge_four) and
   * parity_swap_sixteen (runs of four): the first two runs and the last two
   * are merged into a scratch buffer, and its two halves back into the array.
   */
  method MergeRuns(a: array<int>, lo: nat, b: nat)
    requires b >= 1 && Runs(a[..], lo, b)
    modifies a
    ensures Sorted(a[lo..lo + 4 * b]) && Permutes(old(a[..]), a[..], lo, lo + 4 * b)
  {
    ghost var s := a[..];
    var swap := new int[4 * b];
    ParityMerge(swap, 0, a, lo, b);
    ParityMerge(swap, 2 * b, a, lo + 2 * b, b);
    MergedRuns(s, swap[..], lo, b);
    ParityMerge(a, lo, swap, 0, 2 * b);
    MergeOfMerges(s, swap[..], a[..], lo, b);
  }

  /**
   * The four fours from `lo` on sorted one after the other, as
   * parity_swap_sixteen starts, leave four ordered runs of four and
   * rearrange only those sixteen. t1, t2, t3 and t are the states after
   * each of the four sorts.
   */
  lemma QuadsSort(s: seq<int>, t1: seq<int>, t2: seq<int>, t3: seq<int>, t: seq<int>, lo: nat)
    requires lo + 16 <= |s|
    requires Permutes(s, t1, lo, lo + 4) && Sorted(t1[lo..lo + 4])
    requires Permutes(t1, t2, lo + 4, lo + 8) && Sorted(t2[lo + 4..lo + 8])
    requires Permutes(t2, t3, lo + 8, lo + 12) && Sorted(t3[lo + 8..lo + 12])
    requires Permutes(t3, t, lo + 12, lo + 16) && Sorted(t[lo + 12..lo + 16])
    ensures Runs(t, lo, 4) && Permutes(s, t, lo, lo + 16)
  {
    Untouched(t1, t2, lo + 4, lo + 8, lo, lo + 4);
    Untouched(t2, t3, lo + 8, lo + 12, lo, lo + 4);
    Untouched(t3, t, lo + 12, lo + 16, lo, lo + 4);
    Untouched(t2, t3, lo + 8, lo + 12, lo + 4, lo + 8);
    Untouched(t3, t, lo + 12, lo + 16, lo + 4, lo + 8);
    Untouched(t3, t, lo + 12, lo + 16, lo + 8, lo + 12);
    PermutesWiden(s, t1, lo, lo + 4, lo, lo + 16);
    PermutesWiden(t1, t2, lo + 4, lo + 8, lo, lo + 16);
    PermutesTrans(s, t1, t2, lo, lo + 16);
    PermutesWiden(t2, t3, lo + 8, lo + 12, lo, lo + 16);
    PermutesTrans(s, t2, t3, lo, lo + 16);
    PermutesWiden(t3, t, lo + 12, lo + 16, lo, lo + 16);
    PermutesTrans(s, t3, t, lo, lo + 16);
  }

  /** Rearranging [lo, hi) leaves any range [p, q) outside it as it was. */
  lemma Untouched(s: seq<int>, t: seq<int>, lo: nat, hi: nat, p: nat, q: nat)
    requires Permutes(s, t, lo, hi) && p <= q && (q <= lo || hi <= p) && q <= |s|
    ensures t[p..q] == s[p..q]
  {
    forall k | p <= k < q
      ensures t[k] == s[k]
    {
      if q <= lo {
        assert t[k] == t[..lo][k] && s[k] == s[..lo][k];
      } else {
        assert t[k] == t[hi..][k - hi] && s[k] == s[hi..][k - hi];
      }
    }
  }

  /** From `lo` on, s holds four ordered runs of length b. */
  predicate Runs(s: seq<int>, lo: nat, b: nat)
  {
    lo + 4 * b <= |s| && Sorted(s[lo..lo + b]) && Sorted(s[lo + b..lo + 2 * b])
    && Sorted(s[lo + 2 * b..lo + 3 * b]) && Sorted(s[lo + 3 * b..lo + 4 * b])
  }

  /** Four ordered runs whose neighbours meet in order make one ordered run. */
  lemma RunsMeet(s: seq<int>, lo: nat, b: nat)
    requires b >= 1 && Runs(s, lo, b)
    requires s[lo + b - 1] <= s[lo + b] && s[lo + 2 * b - 1] <= s[lo + 2 * b] && s[lo + 3 * b - 1] <= s[lo + 3 * b]
    ensures Sorted(s[lo..lo + 4 * b])
  {
    var p1, p2, p3, p4 := lo + b, lo + 2 * b, lo + 3 * b, lo + 4 * b;
    SortedJoin(s, lo, p1, p2);
    SortedJoin(s, lo, p2, p3);
    SortedJoin(s, lo, p3, p4);
  }

  /** Two adjacent ordered slices that meet in order form one ordered slice. */
  lemma SortedJoin(s: seq<int>, a: nat, m: nat, c: nat)
    requires a < m < c <= |s| && Sorted(s[a..m]) && Sorted(s[m..c]) && s[m - 1] <= s[m]
    ensures Sorted(s[a..c])
  {
    SortedConcat(s[a..m], s[m..c]);
    assert s[a..m] + s[m..c] == s[a..c];
  }

  /**
   * Merging two pairs of the four runs into a buffer u, and the two halves
   * of u back, sorts and rearranges the four runs.
   */
  lemma MergeOfMerges(s: seq<int>, u: seq<int>, t: seq<int>, lo: nat, b: nat)
    requires Runs(s, lo, b) && 4 * b <= |u| && |t| == |s|
    requires u[0..2 * b] == Merge(s[lo..lo + b], s[lo + b..lo + 2 * b])
    requires u[2 * b..4 * b] == Merge(s[lo + 2 * b..lo + 3 * b], s[lo + 3 * b..lo + 4 * b])
    requires t[lo..lo + 4 * b] == Merge(u[0..2 * b], u[2 * b..4 * b])
    requires t[..lo] == s[..lo] && t[lo + 4 * b..] == s[lo + 4 * b..]
    ensures Sorted(t[lo..lo + 4 * b]) && Permutes(s, t, lo, lo + 4 * b)
  {
    var p, q, x, y := s[lo..lo + b], s[lo + b..lo + 2 * b], s[lo + 2 * b..lo + 3 * b], s[lo + 3 * b..lo + 4 * b];
    assert t[lo..lo + 4 * b] == Merge(Merge(p, q), Merge(x, y));
    MergeOfMergesSorted(p, q, x, y);
    MergeOfMergesPermutes(p, q, x, y);
    FourSlices(s, lo, b);
  }

  /** The two merges of pairs of the four runs are ordered runs. */
  lemma MergedRuns(s: seq<int>, u: seq<int>, lo: nat, b: nat)
    requires Runs(s, lo, b) && 4 * b <= |u|
    requires u[0..2 * b] == Merge(s[lo..lo + b], s[lo + b..lo + 2 * b])
    requires u[2 * b..4 * b] == Merge(s[lo + 2 * b..lo + 3 * b], s[lo + 3 * b..lo + 4 * b])
    ensures Sorted(u[0..2 * b]) && Sorted(u[2 * b..4 * b])
  {
    MergeSorted(s[lo..lo + b], s[lo + b..lo + 2 * b]);
    MergeSorted(s[lo + 2 * b..lo + 3 * b], s[lo + 3 * b..lo + 4 * b]);
  }

  /** A range cut into four consecutive slices of length b. */
  lemma FourSlices(s: seq<int>, lo: nat, b: nat)
    requires lo + 4 * b <= |s|
    ensures s[lo..lo + 4 * b] == s[lo..lo + b] + s[lo + b..lo + 2 * b] + s[lo + 2 * b..lo + 3 * b] + s[lo + 3 * b..lo + 4 * b]
  {
  }

  /** The merge of the merges of four ordered runs is ordered. */
  lemma MergeOfMergesSorted(p: seq<int>, q: seq<int>, x: seq<int>, y: seq<int>)
    requires Sorted(p) && Sorted(q) && Sorted(x) && Sorted(y)
    ensures Sorted(Merge(Merge(p, q), Merge(x, y)))
  {
    MergeSorted(p, q);
    MergeSorted(x, y);
    MergeSorted(Merge(p, q), Merge(x, y));
  }

  /** The merge of the merges of four runs holds exactly their elements. */
  lemma MergeOfMergesPermutes(p: seq<int>, q: seq<int>, x: seq<int>, y: seq<int>)
    ensures multiset(Merge(Merge(p, q), Merge(x, y))) == multiset(p + q + x + y)
  {
    MergePermutes(p, q);
    MergePermutes(x, y);
    MergePermutes(Merge(p, q), Merge(x, y));
  }

  /** The merge's next element from the front is the smaller head, the left one on a tie. */
  lemma FrontNext(m: seq<int>, l: seq<int>, r: seq<int>, k: nat, i: nat, j: nat)
    requires k <= |m| && i < |l| && j < |r| && m[k..] == MergeFrom(l, r, i, j)
    ensures k < |m|
    ensures l[i] <= r[j] ==> m[k] == l[i] && m[k + 1..] == MergeFrom(l, r, i + 1, j)
    ensures l[i] > r[j] ==> m[k] == r[j] && m[k + 1..] == MergeFrom(l, r, i, j + 1)
  {
    assert m[k + 1..] == m[k..][1..];
  }

  /** The merge's next element from the back is the larger last element, the right one on a tie. */
  lemma BackNext(m: seq<int>, l: seq<int>, r: seq<int>, h: nat, i: nat, j: nat)
    requires h <= |m| && 0 < i <= |l| && 0 < j <= |r| && m[..h] == MergeTo(l, r, i, j)
    ensures h > 0
    ensures l[i - 1] <= r[j - 1] ==> m[h - 1] == r[j - 1] && m[..h - 1] == MergeTo(l, r, i, j - 1)
    ensures l[i - 1] > r[j - 1] ==> m[h - 1] == l[i - 1] && m[..h - 1] == MergeTo(l, r, i - 1, j)
  {
    assert m[..h - 1] == m[..h][..h - 1];
  }

  /** An unconditional exchange of neighbours inside a range rearranges only that range. */
  lemma SwapPermutes(s: seq<int>, i: nat, lo: nat, hi: nat)
    requires lo <= i && i + 2 <= hi <= |s|
    ensures Permutes(s, SwapPair(s, i), lo, hi)
  {
    var r := SwapPair(s, i);
    assert r[lo..hi] == s[lo..hi][i - lo := s[i + 1]][i + 1 - lo := s[i]];
    assert r[..lo] == s[..lo];
    assert r[hi..] == s[hi..];
  }
}
