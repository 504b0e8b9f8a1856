/*
 * The merging and searching helpers of BlitSort's rotate merge:
 * partial_backward_merge and monobound_binary_first.
 */
module BlitSortMerge {
  import opened SortSpec
  import opened BlitSortNetworks

  /**
   * partial_backward_merge: merges the ordered runs a[lo..lo + block) and
   * a[lo + block..lo + nmemb) in place, from the top down. The right run is
   * first copied to swap. The source walks three cursors downwards: m over
   * the left run where it lies, s over the copy in swap and e over the
   * output. Here i and j count the left and right elements not yet placed,
   * so that m is lo + i - 1, s is j - 1 and e is lo + i + j - 1. When the
   * runs are already in order nothing is moved.
   */
  method PartialBackwardMerge(a: array<int>, lo: nat, swap: array<int>, nmemb: nat, block: nat)
    requires a != swap && 1 <= block < nmemb && lo + nmemb <= a.Length && nmemb - block <= swap.Length
    requires Sorted(a[lo..lo + block]) && Sorted(a[lo + block..lo + nmemb])
    modifies a, swap
    ensures a[lo..lo + nmemb] == Merge(old(a[lo..lo + block]), old(a[lo + block..lo + nmemb]))
    ensures a[..lo] == old(a[..lo]) && a[lo + nmemb..] == old(a[lo + nmemb..])
  {
    ghost var l, r := a[lo..lo + block], a[lo + block..lo + nmemb];
    if a[lo + block - 1] <= a[lo + block] {
      assert l[block - 1] == a[lo + block - 1] && r[0] == a[lo + block];
      MergeInOrder(l, r);
      assert a[lo..lo + nmemb] == l + r;
      return;
    }
    forall k | 0 <= k < nmemb - block {
      swap[k] := a[lo + block + k];
    }
    assert swap[..nmemb - block] == r;
    BackMergeRuns(a, lo, swap, nmemb, block, l, r);
  }

  /**
   * The three loops of partial_backward_merge, once the right run r sits at
   * the start of swap and the left run l is still in place.
   */
  method BackMergeRuns(a: array<int>, lo: nat, swap: array<int>, nmemb: nat, block: nat,
                       ghost l: seq<int>, ghost r: seq<int>)
    requires a != swap && lo + nmemb <= a.Length && |l| == block <= nmemb && |r| == nmemb - block
    requires |r| <= swap.Length
    requires Sorted(l) && Sorted(r) && a[lo..lo + |l|] == l && swap[..|r|] == r
    modifies a
    ensures a[lo..lo + nmemb] == Merge(l, r)
    ensures a[..lo] == old(a[..lo]) && a[lo + nmemb..] == old(a[lo + nmemb..])
  {
    ghost var m := MergeTo(l, r, |l|, |r|);
    var i: nat, j: nat := block, nmemb - block;
    assert m[..i + j] == m;
    assert Placed(a[..], lo, l, 0, i) by {
      forall q | 0 <= q < i ensures a[..][lo + q] == l[q] {
        assert a[lo..lo + |l|][q] == l[q];
      }
    }
    assert Placed(swap[..], 0, r, 0, |r|) by {
      forall q | 0 <= q < |r| ensures swap[..][q] == r[q] {
        assert swap[..|r|][q] == r[q];
      }
    }
    while j > 2 && i > 2
      decreases i + j
      invariant i <= |l| && j <= |r| && BackAt(m, l, r, i + j, i, j)
      invariant Placed(a[..], lo, m, i + j, nmemb) && Placed(a[..], lo, l, 0, i)
      invariant Placed(swap[..], 0, r, 0, |r|)
      invariant a[..lo] == old(a[..lo]) && a[lo + nmemb..] == old(a[lo + nmemb..])
    {
      i, j := BackPair(a, lo, swap, nmemb, m, l, r, i, j);
    }
    while j > 0 && i > 0
      invariant i <= |l| && j <= |r| && BackAt(m, l, r, i + j, i, j)
      invariant Placed(a[..], lo, m, i + j, nmemb) && Placed(a[..], lo, l, 0, i)
      invariant Placed(swap[..], 0, r, 0, |r|)
      invariant a[..lo] == old(a[..lo]) && a[lo + nmemb..] == old(a[lo + nmemb..])
    {
      i, j := BackOne(a, lo, swap, nmemb, m, l, r, i, j);
    }
    while j > 0
      invariant i <= |l| && j <= |r| && (i == 0 || j == 0) && BackAt(m, l, r, i + j, i, j)
      invariant Placed(a[..], lo, m, i + j, nmemb) && Placed(a[..], lo, l, 0, i)
      invariant Placed(swap[..], 0, r, 0, |r|)
      invariant a[..lo] == old(a[..lo]) && a[lo + nmemb..] == old(a[lo + nmemb..])
    {
      BackRest(a, lo, swap, nmemb, m, l, r, j);
      j := j - 1;
    }
    BackDone(a[..], lo, nmemb, m, l, r, i);
    MergeToIsMerge(l, r, |l|, |r|);
    assert l[..|l|] == l && r[..|r|] == r;
  }

  /**
   * One round of the paired loop: two elements from the left run, two from
   * the right run, or, when the runs cross within the pair, one of each by
   * two branchless exchanges that place three elements.
   */
  method BackPair(a: array<int>, lo: nat, swap: array<int>, nmemb: nat,
                  ghost m: seq<int>, ghost l: seq<int>, ghost r: seq<int>, i: nat, j: nat)
    returns (i': nat, j': nat)
    requires a != swap && lo + nmemb <= a.Length && |l| + |r| == nmemb && |r| <= swap.Length
    requires Sorted(l) && Sorted(r) && 2 < i <= |l| && 2 < j <= |r|
    requires BackAt(m, l, r, i + j, i, j)
    requires Placed(a[..], lo, m, i + j, nmemb) && Placed(a[..], lo, l, 0, i)
    requires Placed(swap[..], 0, r, 0, |r|)
    modifies a
    ensures i' + j' < i + j && i' <= i && j' <= j
    ensures BackAt(m, l, r, i' + j', i', j')
    ensures Placed(a[..], lo, m, i' + j', nmemb) && Placed(a[..], lo, l, 0, i')
    ensures a[..lo] == old(a[..lo]) && a[lo + nmemb..] == old(a[lo + nmemb..])
  {
    assert a[lo + i - 1] == l[i - 1] && a[lo + i - 2] == l[i - 2];
    assert swap[j - 1] == r[j - 1] && swap[j - 2] == r[j - 2];
    if a[lo + i - 2] > swap[j - 1] {
      i', j' := BackTwoLeft(a, lo, swap, nmemb, m, l, r, i, j);
    } else if a[lo + i - 1] <= swap[j - 2] {
      i', j' := BackTwoRight(a, lo, swap, nmemb, m, l, r, i, j);
    } else {
      i', j' := BackCross(a, lo, swap, nmemb, m, l, r, i, j);
    }
  }

  /** `*e-- = *m--; *e-- = *m--;`: the two left elements on top are both above the right run's top. */
  method BackTwoLeft(a: array<int>, lo: nat, swap: array<int>, nmemb: nat,
                     ghost m: seq<int>, ghost l: seq<int>, ghost r: seq<int>, i: nat, j: nat)
    returns (i': nat, j': nat)
    requires a != swap && lo + nmemb <= a.Length && |l| + |r| == nmemb && |r| <= swap.Length
    requires Sorted(l) && 2 < i <= |l| && 2 < j <= |r| && l[i - 2] > r[j - 1]
    requires BackAt(m, l, r, i + j, i, j)
    requires Placed(a[..], lo, m, i + j, nmemb) && Placed(a[..], lo, l, 0, i)
    modifies a
    ensures i' == i - 2 && j' == j
    ensures BackAt(m, l, r, i' + j', i', j')
    ensures Placed(a[..], lo, m, i' + j', nmemb) && Placed(a[..], lo, l, 0, i')
    ensures a[..lo] == old(a[..lo]) && a[lo + nmemb..] == old(a[lo + nmemb..])
  {
    assert l[i - 2] <= l[i - 1];
    BackNext(m, l, r, i + j, i, j);
    BackNext(m, l, r, i + j - 1, i - 1, j);
    assert a[lo + i - 1] == l[i - 1] && a[lo + i - 2] == l[i - 2];
    a[lo + i + j - 1] := a[lo + i - 1];
    a[lo + i + j - 2] := a[lo + i - 2];
    i', j' := i - 2, j;
  }

  /** `*e-- = *s--; *e-- = *s--;`: the left run's top is at most the two right elements on top. */
  method BackTwoRight(a: array<int>, lo: nat, swap: array<int>, nmemb: nat,
                      ghost m: seq<int>, ghost l: seq<int>, ghost r: seq<int>, i: nat, j: nat)
    returns (i': nat, j': nat)
    requires a != swap && lo + nmemb <= a.Length && |l| + |r| == nmemb && |r| <= swap.Length
    requires Sorted(r) && 2 < i <= |l| && 2 < j <= |r| && l[i - 1] <= r[j - 2]
    requires BackAt(m, l, r, i + j, i, j)
    requires Placed(a[..], lo, m, i + j, nmemb) && Placed(a[..], lo, l, 0, i)
    requires Placed(swap[..], 0, r, 0, |r|)
    modifies a
    ensures i' == i && j' == j - 2
    ensures BackAt(m, l, r, i' + j', i', j')
    ensures Placed(a[..], lo, m, i' + j', nmemb) && Placed(a[..], lo, l, 0, i')
    ensures a[..lo] == old(a[..lo]) && a[lo + nmemb..] == old(a[lo + nmemb..])
  {
    assert r[j - 2] <= r[j - 1];
    BackNext(m, l, r, i + j, i, j);
    BackNext(m, l, r, i + j - 1, i, j - 1);
    assert swap[j - 1] == r[j - 1] && swap[j - 2] == r[j - 2];
    a[lo + i + j - 1] := swap[j - 1];
    a[lo + i + j - 2] := swap[j - 2];
    i', j' := i, j - 2;
  }

  /**
   * The runs cross within the pair: the first exchange places the larger
   * and the smaller of the two tops, the second places the next element
   * and leaves the other candidate just below it, where the next write
   * lands.
   */
  method BackCross(a: array<int>, lo: nat, swap: array<int>, nmemb: nat,
                   ghost m: seq<int>, ghost l: seq<int>, ghost r: seq<int>, i: nat, j: nat)
    returns (i': nat, j': nat)
    requires a != swap && lo + nmemb <= a.Length && |l| + |r| == nmemb && |r| <= swap.Length
    requires 2 < i <= |l| && 2 < j <= |r| && l[i - 2] <= r[j - 1] && l[i - 1] > r[j - 2]
    requires BackAt(m, l, r, i + j, i, j)
    requires Placed(a[..], lo, m, i + j, nmemb) && Placed(a[..], lo, l, 0, i)
    requires Placed(swap[..], 0, r, 0, |r|)
    modifies a
    ensures i' + j' == i + j - 3 && i' <= i && j' <= j
    ensures BackAt(m, l, r, i' + j', i', j')
    ensures Placed(a[..], lo, m, i' + j', nmemb) && Placed(a[..], lo, l, 0, i')
    ensures a[..lo] == old(a[..lo]) && a[lo + nmemb..] == old(a[lo + nmemb..])
  {
    var i1, j1 := BackCrossFirst(a, lo, swap, nmemb, m, l, r, i, j);
    i', j' := BackCrossSecond(a, lo, swap, nmemb, m, l, r, i1, j1);
  }

  /** `x = cmp(*m, *s) <= 0; ... e[x] = *s; s -= 1; e[y] = *m; m -= 1;`: both tops placed, in order. */
  method BackCrossFirst(a: array<int>, lo: nat, swap: array<int>, nmemb: nat,
                        ghost m: seq<int>, ghost l: seq<int>, ghost r: seq<int>, i: nat, j: nat)
    returns (i': nat, j': nat)
    requires a != swap && lo + nmemb <= a.Length && |l| + |r| == nmemb && |r| <= swap.Length
    requires 2 < i <= |l| && 2 < j <= |r| && l[i - 2] <= r[j - 1] && l[i - 1] > r[j - 2]
    requires BackAt(m, l, r, i + j, i, j)
    requires Placed(a[..], lo, m, i + j, nmemb) && Placed(a[..], lo, l, 0, i)
    requires Placed(swap[..], 0, r, 0, |r|)
    modifies a
    ensures i' == i - 1 && j' == j - 1
    ensures BackAt(m, l, r, i' + j', i', j')
    ensures Placed(a[..], lo, m, i' + j', nmemb) && Placed(a[..], lo, l, 0, i')
    ensures a[..lo] == old(a[..lo]) && a[lo + nmemb..] == old(a[lo + nmemb..])
  {
    BackCrossNext(m, l, r, i, j);
    assert a[lo + i - 1] == l[i - 1] && swap[j - 1] == r[j - 1];
    var x := if a[lo + i - 1] <= swap[j - 1] then 1 else 0;
    var y := 1 - x;
    a[lo + i + j - 2 + x] := swap[j - 1];
    a[lo + i + j - 2 + y] := a[lo + i - 1];
    ghost var d := a[..];
    assert d[lo + i + j - 1] == m[i + j - 1] && d[lo + i + j - 2] == m[i + j - 2];
    PlacedTwo(old(a[..]), d, lo, m, i + j, nmemb);
    PlacedShrink(d, lo, l, i);
    i', j' := i - 1, j - 1;
  }

  /**
   * `x = cmp(*m, *s) <= 0; ... e[x] = *s; s -= x; e[y] = *m; m -= y;`: the
   * larger of the two tops is placed and only it is consumed; the other is
   * written one place lower, below everything placed.
   */
  method BackCrossSecond(a: array<int>, lo: nat, swap: array<int>, nmemb: nat,
                         ghost m: seq<int>, ghost l: seq<int>, ghost r: seq<int>, i: nat, j: nat)
    returns (i': nat, j': nat)
    requires a != swap && lo + nmemb <= a.Length && |l| + |r| == nmemb && |r| <= swap.Length
    requires 0 < i <= |l| && 1 < j <= |r|
    requires BackAt(m, l, r, i + j, i, j)
    requires Placed(a[..], lo, m, i + j, nmemb) && Placed(a[..], lo, l, 0, i)
    requires Placed(swap[..], 0, r, 0, |r|)
    modifies a
    ensures i' + j' == i + j - 1 && i' <= i && j' <= j
    ensures BackAt(m, l, r, i' + j', i', j')
    ensures Placed(a[..], lo, m, i' + j', nmemb) && Placed(a[..], lo, l, 0, i')
    ensures a[..lo] == old(a[..lo]) && a[lo + nmemb..] == old(a[lo + nmemb..])
  {
    BackNext(m, l, r, i + j, i, j);
    assert a[lo + i - 1] == l[i - 1] && swap[j - 1] == r[j - 1];
    var x := if a[lo + i - 1] <= swap[j - 1] then 1 else 0;
    var y := 1 - x;
    a[lo + i + j - 2 + x] := swap[j - 1];
    a[lo + i + j - 2 + y] := a[lo + i - 1];
    i', j' := i - y, j - x;
  }

  /**
   * One step of the single loop, `*e-- = cmp(*m, *s) > 0 ? *m-- : *s--`.
   */
  method BackOne(a: array<int>, lo: nat, swap: array<int>, nmemb: nat,
                 ghost m: seq<int>, ghost l: seq<int>, ghost r: seq<int>, i: nat, j: nat)
    returns (i': nat, j': nat)
    requires a != swap && lo + nmemb <= a.Length && |l| + |r| == nmemb && |r| <= swap.Length
    requires 0 < i <= |l| && 0 < j <= |r|
    requires BackAt(m, l, r, i + j, i, j)
    requires Placed(a[..], lo, m, i + j, nmemb) && Placed(a[..], lo, l, 0, i)
    requires Placed(swap[..], 0, r, 0, |r|)
    modifies a
    ensures i' + j' == i + j - 1 && i' <= i && j' <= j
    ensures BackAt(m, l, r, i' + j', i', j')
    ensures Placed(a[..], lo, m, i' + j', nmemb) && Placed(a[..], lo, l, 0, i')
    ensures a[..lo] == old(a[..lo]) && a[lo + nmemb..] == old(a[lo + nmemb..])
  {
    BackNext(m, l, r, i + j, i, j);
    assert a[lo + i - 1] == l[i - 1] && swap[j - 1] == r[j - 1];
    if a[lo + i - 1] > swap[j - 1] {
      a[lo + i + j - 1] := a[lo + i - 1];
      i', j' := i - 1, j;
    } else {
      a[lo + i + j - 1] := swap[j - 1];
      i', j' := i, j - 1;
    }
  }

  /** `*e-- = *s--` once the left run is used up: the right run's rest goes to the bottom. */
  method BackRest(a: array<int>, lo: nat, swap: array<int>, nmemb: nat,
                  ghost m: seq<int>, ghost l: seq<int>, ghost r: seq<int>, j: nat)
    requires a != swap && lo + nmemb <= a.Length && |l| + |r| == nmemb && |r| <= swap.Length
    requires 0 < j <= |r| && BackAt(m, l, r, j, 0, j)
    requires Placed(a[..], lo, m, j, nmemb) && Placed(swap[..], 0, r, 0, |r|)
    modifies a
    ensures BackAt(m, l, r, j - 1, 0, j - 1) && Placed(a[..], lo, m, j - 1, nmemb)
    ensures a[..lo] == old(a[..lo]) && a[lo + nmemb..] == old(a[lo + nmemb..])
  {
    assert m[..j] == r[..j];
    assert m[j - 1] == r[j - 1] && m[..j - 1] == m[..j][..j - 1];
    assert swap[j - 1] == r[j - 1];
    a[lo + j - 1] := swap[j - 1];
  }

  /** A write outside a placed range keeps it placed. */
  lemma PlacedWrite(d: seq<int>, dlo: nat, m: seq<int>, lo: nat, hi: nat, k: nat, v: int)
    requires Placed(d, dlo, m, lo, hi) && k < |d| && (k < dlo + lo || dlo + hi <= k)
    ensures Placed(d[k := v], dlo, m, lo, hi)
  {
  }

  /** A placed range grows by one downwards once the element below it is in place. */
  lemma PlacedExtend(d: seq<int>, dlo: nat, m: seq<int>, lo: nat, hi: nat)
    requires Placed(d, dlo, m, lo, hi) && 0 < lo && d[dlo + lo - 1] == m[lo - 1]
    ensures Placed(d, dlo, m, lo - 1, hi)
  {
  }

  /** Writing the two elements just below a placed range extends it by two. */
  lemma PlacedTwo(d: seq<int>, d': seq<int>, dlo: nat, m: seq<int>, h: nat, hi: nat)
    requires Placed(d, dlo, m, h, hi) && 2 <= h && |d'| == |d|
    requires forall k :: 0 <= k < |d| && k != dlo + h - 1 && k != dlo + h - 2 ==> d'[k] == d[k]
    requires d'[dlo + h - 1] == m[h - 1] && d'[dlo + h - 2] == m[h - 2]
    ensures Placed(d', dlo, m, h - 2, hi)
  {
  }

  /** Where the tops cross, the two places at the top of the merge are the two tops, the larger above. */
  lemma BackCrossNext(m: seq<int>, l: seq<int>, r: seq<int>, i: nat, j: nat)
    requires 2 <= i <= |l| && 2 <= j <= |r| && l[i - 2] <= r[j - 1] && l[i - 1] > r[j - 2]
    requires BackAt(m, l, r, i + j, i, j)
    ensures BackAt(m, l, r, i + j - 2, i - 1, j - 1)
    ensures l[i - 1] <= r[j - 1] ==> m[i + j - 1] == r[j - 1] && m[i + j - 2] == l[i - 1]
    ensures l[i - 1] > r[j - 1] ==> m[i + j - 1] == l[i - 1] && m[i + j - 2] == r[j - 1]
  {
    BackNext(m, l, r, i + j, i, j);
    if l[i - 1] <= r[j - 1] {
      BackNext(m, l, r, i + j - 1, i, j - 1);
    } else {
      BackNext(m, l, r, i + j - 1, i - 1, j);
    }
  }

  /** A placed range stays placed without its top element. */
  lemma PlacedShrink(d: seq<int>, dlo: nat, m: seq<int>, hi: nat)
    requires Placed(d, dlo, m, 0, hi) && 0 < hi
    ensures Placed(d, dlo, m, 0, hi - 1)
  {
  }

  /** When the right run is used up, the left run's rest is where the merge wants it. */
  lemma BackDone(d: seq<int>, lo: nat, nmemb: nat, m: seq<int>, l: seq<int>, r: seq<int>, i: nat)
    requires |l| + |r| == nmemb && i <= |l| && |m| == nmemb && lo + nmemb <= |d|
    requires BackAt(m, l, r, i, i, 0) && Placed(d, lo, m, i, nmemb) && Placed(d, lo, l, 0, i)
    ensures d[lo..lo + nmemb] == m
  {
    assert m[..i] == l[..i];
    forall q | 0 <= q < nmemb
      ensures d[lo..lo + nmemb][q] == m[q]
    {
      if q < i {
        assert m[q] == m[..i][q];
      }
    }
  }

  /**
   * monobound_binary_first: in the ordered run a[lo..lo + top), the number
   * of elements below value, found by halving a window that ends at `end`.
   * The elements from `end` on are known to be at least value, those below
   * end - top to be below it; the last comparison settles the element just
   * below `end`. The source reads one element below the run when top is 0,
   * so a run of at least one element is required.
   */
  method MonoboundBinaryFirst(a: array<int>, lo: nat, value: int, top: nat) returns (r: nat)
    requires 1 <= top && lo + top <= a.Length && Sorted(a[lo..lo + top])
    ensures r <= top
    ensures forall k :: lo <= k < lo + r ==> a[k] < value
    ensures forall k :: lo + r <= k < lo + top ==> value <= a[k]
  {
    ghost var run := a[lo..lo + top];
    var end: nat, t: nat := top, top;
    while t > 1
      invariant 1 <= t <= end <= top
      invariant forall k :: end <= k < top ==> value <= run[k]
      invariant forall k :: 0 <= k < end - t ==> run[k] < value
    {
      var mid := t / 2;
      if value <= a[lo + end - mid] {
        assert run[end - mid] == a[lo + end - mid];
        end := end - mid;
      } else {
        assert run[end - mid] == a[lo + end - mid];
      }
      t := t - mid;
    }
    assert run[end - 1] == a[lo + end - 1];
    if value <= a[lo + end - 1] {
      end := end - 1;
    }
    r := end;
    forall k | lo <= k < lo + top
      ensures a[k] == run[k - lo]
    {
    }
  }
}
