/*
 * blit_default_partition: the stable split of a run around a pivot value,
 * through the swap buffer when the run fits in it and otherwise by
 * splitting the two halves and rotating the middle.
 */
module BlitSortPartition {
  import opened SortSpec
  import opened BlitSortRotate

  /**
   * What the partition promises: the elements at most the pivot come first,
   * those above it after, and together they are the run's elements.
   */
  lemma PartitionLayout(s: seq<int>, pivot: int)
    ensures var r, m := AtMost(s, pivot) + Above(s, pivot), |AtMost(s, pivot)|;
      |r| == |s| && multiset(r) == multiset(s)
      && (forall k :: 0 <= k < m ==> r[k] <= pivot)
      && (forall k :: m <= k < |r| ==> r[k] > pivot)
  {
    SplitPermutes(s, pivot);
    AtMostBounded(s, pivot);
    AboveBounded(s, pivot);
    var r, m := AtMost(s, pivot) + Above(s, pivot), |AtMost(s, pivot)|;
    forall k | 0 <= k < m
      ensures r[k] <= pivot
    {
      assert r[k] in AtMost(s, pivot);
    }
    forall k | m <= k < |r|
      ensures r[k] > pivot
    {
      assert r[k] == Above(s, pivot)[k - m];
      assert r[k] in Above(s, pivot);
    }
  }

  /** The run a partition leaves: the run of s at lo, of length n, split around the pivot. */
  ghost function Partitioned(s: seq<int>, lo: nat, n: nat, pivot: int): (r: seq<int>)
    requires lo + n <= |s|
    ensures |r| == |s|
  {
    SplitLength(s[lo..lo + n], pivot);
    s[..lo] + AtMost(s[lo..lo + n], pivot) + Above(s[lo..lo + n], pivot) + s[lo + n..]
  }

  lemma RotatedMiddle(p: seq<int>, u: seq<int>, v: seq<int>, q: seq<int>)
    ensures Rotated(p + (u + v) + q, |p|, |u| + |v|, |u|) == p + (v + u) + q
  {
    var d := p + (u + v) + q;
    assert d[..|p|] == p;
    assert d[|p|..|p| + |u| + |v|] == u + v;
    assert d[|p| + |u| + |v|..] == q;
    assert (u + v)[|u|..] == v && (u + v)[..|u|] == u;
  }

  /**
   * The recursive case of the partition: with both halves split, rotating
   * the first half's upper part past the second half's lower part splits
   * the whole run.
   */
  lemma PartitionJoin(s: seq<int>, s1: seq<int>, s2: seq<int>, lo: nat, h: nat, n: nat, pivot: int, mid: nat, len: nat, left: nat)
    requires h <= n && lo + n <= |s|
    requires s1 == Partitioned(s, lo, h, pivot) && s2 == Partitioned(s1, lo + h, n - h, pivot)
    requires mid == lo + |AtMost(s[lo..lo + h], pivot)| && left == h - |AtMost(s[lo..lo + h], pivot)|
    requires len == left + |AtMost(s[lo + h..lo + n], pivot)|
    ensures left <= len && mid + len <= |s2|
    ensures Rotated(s2, mid, len, left) == Partitioned(s, lo, n, pivot)
  {
    var x, y := s[lo..lo + h], s[lo + h..lo + n];
    SliceConcat(s, lo, lo + h, lo + n);
    var ax, bx, ay, bby := AtMost(x, pivot), Above(x, pivot), AtMost(y, pivot), Above(y, pivot);
    var pre, post := s[..lo], s[lo + n..];
    SplitLength(x, pivot);
    SplitLength(y, pivot);
    PartitionedTail(s, s1, lo, h, n, pivot);
    assert s1[..lo + h] == pre + ax + bx;
    assert s1[lo + n..] == post;
    assert s2 == s1[..lo + h] + ay + bby + s1[lo + n..];
    PartitionedHalves(s, lo, h, n, pivot);
    JoinParts(s2, pre, ax, bx, ay, bby, post, mid, len, left, Partitioned(s, lo, n, pivot));
  }

  /** The recursive case on the parts alone: the rotation swaps the two middle parts. */
  lemma JoinParts(d: seq<int>, pre: seq<int>, ax: seq<int>, bx: seq<int>, ay: seq<int>, bby: seq<int>, post: seq<int>,
                  lo: nat, n: nat, left: nat, e: seq<int>)
    requires d == pre + ax + bx + ay + bby + post && e == pre + (ax + ay) + (bx + bby) + post
    requires lo == |pre| + |ax| && n == |bx| + |ay| && left == |bx|
    ensures Rotated(d, lo, n, left) == e
  {
    Regroup(pre, ax, bx, ay, bby, post);
    RotatedMiddle(pre + ax, bx, ay, bby + post);
    RegroupBack(pre, ax, ay, bx, bby, post);
  }

  lemma Regroup(p: seq<int>, u: seq<int>, v: seq<int>, w: seq<int>, z: seq<int>, q: seq<int>)
    ensures (p + u + v) + w + z + q == (p + u) + (v + w) + (z + q)
  {
  }

  /** Splitting a run is splitting its two halves and putting the parts together. */
  lemma PartitionedHalves(s: seq<int>, lo: nat, h: nat, n: nat, pivot: int)
    requires h <= n && lo + n <= |s|
    ensures var x, y := s[lo..lo + h], s[lo + h..lo + n];
      Partitioned(s, lo, n, pivot)
        == s[..lo] + (AtMost(x, pivot) + AtMost(y, pivot)) + (Above(x, pivot) + Above(y, pivot)) + s[lo + n..]
  {
    var x, y := s[lo..lo + h], s[lo + h..lo + n];
    SliceConcat(s, lo, lo + h, lo + n);
    SplitAppend(x, y, pivot);
  }

  lemma RegroupBack(p: seq<int>, u: seq<int>, v: seq<int>, w: seq<int>, z: seq<int>, q: seq<int>)
    ensures (p + u) + (v + w) + (z + q) == p + (u + v) + (w + z) + q
  {
  }

  lemma SliceConcat(s: seq<int>, i: nat, j: nat, k: nat)
    requires i <= j <= k <= |s|
    ensures s[i..j] + s[j..k] == s[i..k]
  {
  }

  /**
   * blit_default_partition: splits a[lo..lo + nmemb) around piv and
   * returns how many elements are at most piv. A run that fits in swap is
   * split in one pass: each element is written both at the low end of the
   * array and at the next free place in swap, and only the cursor of the
   * part it belongs to advances; the upper part is then copied back from
   * swap. A longer run is split half by half and the middle rotated.
   */
  method DefaultPartition(a: array<int>, lo: nat, swap: array<int>, piv: int, swapSize: nat, nmemb: nat) returns (m: nat)
    requires a != swap && 1 <= swapSize <= swap.Length && lo + nmemb <= a.Length
    modifies a, swap
    ensures m == |AtMost(old(a[lo..lo + nmemb]), piv)|
    ensures a[..] == Partitioned(old(a[..]), lo, nmemb, piv)
    decreases nmemb
  {
    if nmemb > swapSize {
      var h := nmemb / 2;
      ghost var s := a[..];
      var l := DefaultPartition(a, lo, swap, piv, swapSize, h);
      ghost var s1 := a[..];
      var r := DefaultPartition(a, lo + h, swap, piv, swapSize, nmemb - h);
      ghost var s2 := a[..];
      PartitionedTail(s, s1, lo, h, nmemb, piv);
      PartitionSizes(s, lo, h, nmemb, piv);
      var mid, len, left := lo + l, h - l + r, h - l;
      PartitionJoin(s, s1, s2, lo, h, nmemb, piv, mid, len, left);
      TrinityRotation(a, mid, swap, swapSize, len, left);
      m := l + r;
    } else {
      m := PartitionThroughSwap(a, lo, swap, piv, nmemb);
    }
  }

  /** The counts the recursive case adds up. */
  lemma PartitionSizes(s: seq<int>, lo: nat, h: nat, n: nat, pivot: int)
    requires h <= n && lo + n <= |s|
    ensures |AtMost(s[lo..lo + h], pivot)| + |Above(s[lo..lo + h], pivot)| == h
    ensures |AtMost(s[lo..lo + n], pivot)|
      == |AtMost(s[lo..lo + h], pivot)| + |AtMost(s[lo + h..lo + n], pivot)|
  {
    var x, y := s[lo..lo + h], s[lo + h..lo + n];
    SplitLength(x, pivot);
    SplitAppend(x, y, pivot);
    assert x + y == s[lo..lo + n];
  }

  /** A partition leaves what follows the run in place. */
  lemma PartitionedTail(s: seq<int>, s1: seq<int>, lo: nat, h: nat, n: nat, pivot: int)
    requires lo + n <= |s| && h <= n && s1 == Partitioned(s, lo, h, pivot)
    ensures s1[lo + h..lo + n] == s[lo + h..lo + n]
  {
    var x := s[lo..lo + h];
    var p := s[..lo] + AtMost(x, pivot) + Above(x, pivot);
    SplitLength(x, pivot);
    assert s1 == p + s[lo + h..];
    ConcatSuffix(p, s[lo + h..]);
    SameSuffix(s, s1, lo + h, lo + n);
  }

  lemma ConcatSuffix(p: seq<int>, q: seq<int>)
    ensures (p + q)[|p|..] == q
  {
  }

  lemma SameSuffix(s: seq<int>, t: seq<int>, k: nat, m: nat)
    requires k <= m <= |s| == |t| && s[k..] == t[k..]
    ensures s[k..m] == t[k..m]
  {
    assert s[k..m] == s[k..][..m - k];
    assert t[k..m] == t[k..][..m - k];
  }

  /** The single pass of blit_default_partition over a run that fits in swap. */
  method PartitionThroughSwap(a: array<int>, lo: nat, swap: array<int>, piv: int, nmemb: nat) returns (m: nat)
    requires a != swap && nmemb <= swap.Length && lo + nmemb <= a.Length
    modifies a, swap
    ensures m == |AtMost(old(a[lo..lo + nmemb]), piv)|
    ensures a[..] == Partitioned(old(a[..]), lo, nmemb, piv)
  {
    ghost var s0 := a[..];
    m := 0;
    var k: nat := 0;
    var cnt := nmemb / 4;
    while cnt > 0
      invariant k + 4 * cnt == nmemb - nmemb % 4
      invariant Split(a[..], swap[..], s0, lo, nmemb, piv, k, m)
    {
      m := PartitionFour(a, lo, swap, piv, nmemb, k, m, s0);
      k, cnt := k + 4, cnt - 1;
    }
    m := PartitionRest(a, lo, swap, piv, nmemb, k, m, s0);
    PartitionCopyBack(a, lo, swap, piv, nmemb, m, s0);
  }

  /**
   * After k elements of the run: the first m of them, those at most the
   * pivot, sit at the run's start; the others are at the start of swap; the
   * unread elements are where they were, and so is everything outside the
   * run.
   */
  ghost predicate Split(d: seq<int>, w: seq<int>, s0: seq<int>, lo: nat, nmemb: nat, piv: int, k: nat, m: nat)
  {
    |d| == |s0| && lo + nmemb <= |s0| && k <= nmemb <= |w| && m <= k
    && m == |AtMost(s0[lo..lo + k], piv)|
    && d[lo..lo + m] == AtMost(s0[lo..lo + k], piv)
    && w[..k - m] == Above(s0[lo..lo + k], piv)
    && d[lo + k..] == s0[lo + k..] && d[..lo] == s0[..lo]
  }

  /** The loop over the last nmemb % 4 elements. */
  method PartitionRest(a: array<int>, lo: nat, swap: array<int>, piv: int, nmemb: nat, k: nat, m: nat, ghost s0: seq<int>)
    returns (m': nat)
    requires a != swap && k <= nmemb && Split(a[..], swap[..], s0, lo, nmemb, piv, k, m)
    modifies a, swap
    ensures Split(a[..], swap[..], s0, lo, nmemb, piv, nmemb, m')
  {
    m' := m;
    var i: nat := k;
    while i < nmemb
      invariant i <= nmemb
      invariant Split(a[..], swap[..], s0, lo, nmemb, piv, i, m')
    {
      m' := PartitionStep(a, lo, swap, piv, nmemb, i, i + 1, m', s0);
      i := i + 1;
    }
  }

  /** The unrolled body of the main loop: four elements. */
  method PartitionFour(a: array<int>, lo: nat, swap: array<int>, piv: int, nmemb: nat, k: nat, m: nat, ghost s0: seq<int>)
    returns (m': nat)
    requires a != swap && k + 4 <= nmemb && Split(a[..], swap[..], s0, lo, nmemb, piv, k, m)
    modifies a, swap
    ensures Split(a[..], swap[..], s0, lo, nmemb, piv, k + 4, m')
  {
    var k1, k2, k3, k4 := k + 1, k + 2, k + 3, k + 4;
    m' := PartitionStep(a, lo, swap, piv, nmemb, k, k1, m, s0);
    m' := PartitionStep(a, lo, swap, piv, nmemb, k1, k2, m', s0);
    m' := PartitionStep(a, lo, swap, piv, nmemb, k2, k3, m', s0);
    m' := PartitionStep(a, lo, swap, piv, nmemb, k3, k4, m', s0);
  }

  /** `val = cmp(*pta, *piv) <= 0; swap[-m] = array[m] = *pta++; m += val; swap++;` */
  method PartitionStep(a: array<int>, lo: nat, swap: array<int>, piv: int, nmemb: nat, k: nat, k': nat, m: nat, ghost s0: seq<int>)
    returns (m': nat)
    requires a != swap && k < nmemb && k' == k + 1 && Split(a[..], swap[..], s0, lo, nmemb, piv, k, m)
    modifies a, swap
    ensures Split(a[..], swap[..], s0, lo, nmemb, piv, k', m')
  {
    ghost var d, w := a[..], swap[..];
    ghost var t := s0[lo..lo + k'];
    var x := a[lo + k];
    assert x == s0[lo + k] == t[k] by {
      assert d[lo + k..][0] == s0[lo + k..][0];
    }
    assert t[..k] == s0[lo..lo + k];
    var val := if x <= piv then 1 else 0;
    swap[k - m] := x;
    a[lo + m] := x;
    m' := m + val;
    if val == 1 {
      SplitLastAtMost(t, piv);
      assert a[lo..lo + m'] == d[lo..lo + m] + [x];
      assert swap[..k' - m'] == w[..k - m];
    } else {
      SplitLastAbove(t, piv);
      assert a[lo..lo + m'] == d[lo..lo + m];
      assert swap[..k' - m'] == w[..k - m] + [x];
    }
    assert a[lo + k'..] == d[lo + k'..];
  }

  /** `memcpy(array + m, swap - nmemb, nmemb - m)`: the upper part goes back after the lower part. */
  method PartitionCopyBack(a: array<int>, lo: nat, swap: array<int>, piv: int, nmemb: nat, m: nat, ghost s0: seq<int>)
    requires a != swap && Split(a[..], swap[..], s0, lo, nmemb, piv, nmemb, m)
    modifies a
    ensures a[..] == Partitioned(s0, lo, nmemb, piv)
  {
    ghost var d := a[..];
    forall k | 0 <= k < nmemb - m {
      a[lo + m + k] := swap[k];
    }
    assert a[..lo] == d[..lo] && a[lo..lo + m] == d[lo..lo + m];
    assert a[lo + m..lo + nmemb] == swap[..nmemb - m];
    assert a[lo + nmemb..] == d[lo + nmemb..];
    assert a[..] == a[..lo] + a[lo..lo + m] + a[lo + m..lo + nmemb] + a[lo + nmemb..];
  }
}
