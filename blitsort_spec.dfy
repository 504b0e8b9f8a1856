// What BlitSort's pieces are proved against: ascending order, the stable
// merge of two runs, the stable split of a run around a pivot, and the
// count of descending neighbours. Elements are integers compared by their
// order; the sort's comparator result "<= 0" is `<=` here.

module SortSpec {

  /** Every element is at most every later one. */
  predicate Sorted(s: seq<int>)
  {
    forall i, j :: 0 <= i < j < |s| ==> s[i] <= s[j]
  }

  /** Every element is at most its right neighbour. */
  predicate AdjacentSorted(s: seq<int>)
  {
    forall i :: 0 <= i < |s| - 1 ==> s[i] <= s[i + 1]
  }

  /** Ordered neighbours make an ordered sequence. */
  lemma {:induction false} AdjacentSortedIsSorted(s: seq<int>)
    requires AdjacentSorted(s)
    ensures Sorted(s)
    decreases |s|
  {
    if |s| > 1 {
      var t := s[..|s| - 1];
      assert AdjacentSorted(t);
      AdjacentSortedIsSorted(t);
      forall i, j | 0 <= i < j < |s|
        ensures s[i] <= s[j]
      {
        if j < |s| - 1 {
          assert s[i] == t[i] && s[j] == t[j];
        } else if i < |s| - 1 {
          assert s[i] == t[i] && t[i] <= t[|s| - 2];
        }
      }
    }
  }

  /** Every slice of an ordered sequence is ordered. */
  lemma SortedSlice(s: seq<int>, lo: nat, hi: nat)
    requires Sorted(s) && lo <= hi <= |s|
    ensures Sorted(s[lo..hi])
  {
  }

  /** Two ordered runs that meet in order make one ordered run. */
  lemma SortedConcat(l: seq<int>, r: seq<int>)
    requires Sorted(l) && Sorted(r)
    requires l == [] || r == [] || l[|l| - 1] <= r[0]
    ensures Sorted(l + r)
  {
    var s := l + r;
    forall i, j | 0 <= i < j < |s|
      ensures s[i] <= s[j]
    {
      if i < |l| && |l| <= j {
        assert s[i] <= l[|l| - 1] && r[0] <= s[j];
      }
    }
  }

  /**
   * `t` is `s` with only the elements in [lo, hi) rearranged: the same
   * elements there, and the same elements everywhere else.
   */
  predicate Permutes(s: seq<int>, t: seq<int>, lo: nat, hi: nat)
  {
    |t| == |s| && lo <= hi <= |s| && t[..lo] == s[..lo] && t[hi..] == s[hi..]
    && multiset(t[lo..hi]) == multiset(s[lo..hi])
  }

  lemma PermutesRefl(s: seq<int>, lo: nat, hi: nat)
    requires lo <= hi <= |s|
    ensures Permutes(s, s, lo, hi)
  {
  }

  lemma PermutesTrans(s: seq<int>, t: seq<int>, u: seq<int>, lo: nat, hi: nat)
    requires Permutes(s, t, lo, hi) && Permutes(t, u, lo, hi)
    ensures Permutes(s, u, lo, hi)
  {
  }

  /** Rearranging a range rearranges every range around it. */
  lemma PermutesWiden(s: seq<int>, t: seq<int>, lo: nat, hi: nat, lo': nat, hi': nat)
    requires Permutes(s, t, lo, hi) && lo' <= lo && hi <= hi' <= |s|
    ensures Permutes(s, t, lo', hi')
  {
    assert s[lo'..hi'] == s[lo'..lo] + s[lo..hi] + s[hi..hi'];
    assert t[lo'..hi'] == t[lo'..lo] + t[lo..hi] + t[hi..hi'];
    assert t[lo'..lo] == t[..lo][lo'..] && s[lo'..lo] == s[..lo][lo'..];
    assert t[hi..hi'] == t[hi..][..hi' - hi] && s[hi..hi'] == s[hi..][..hi' - hi];
  }

  /** A rearrangement of a range that is then ordered. */
  lemma PermutesConcat(s: seq<int>, t: seq<int>, lo: nat, mid: nat, hi: nat)
    requires Permutes(s, t, lo, hi) && lo <= mid <= hi
    ensures multiset(t[lo..mid]) + multiset(t[mid..hi]) == multiset(s[lo..hi])
  {
    assert t[lo..hi] == t[lo..mid] + t[mid..hi];
  }

  /** Ordered neighbours over a range make the range ordered. */
  lemma AdjacentRange(s: seq<int>, lo: nat, hi: nat)
    requires lo <= hi <= |s|
    requires forall k :: lo <= k && k + 1 < hi ==> s[k] <= s[k + 1]
    ensures Sorted(s[lo..hi])
  {
    var r := s[lo..hi];
    assert AdjacentSorted(r) by {
      forall i | 0 <= i < |r| - 1
        ensures r[i] <= r[i + 1]
      {
        assert r[i] == s[lo + i] && r[i + 1] == s[lo + i + 1];
      }
    }
    AdjacentSortedIsSorted(r);
  }

  // ---------------------------------------------------------------------------------
  // The stable merge

  /** The stable merge of two runs: on a tie the left run's element comes first. */
  function Merge(l: seq<int>, r: seq<int>): seq<int>
    decreases |l| + |r|
  {
    if l == [] then r
    else if r == [] then l
    else if l[0] <= r[0] then [l[0]] + Merge(l[1..], r)
    else [r[0]] + Merge(l, r[1..])
  }

  /** The merge holds exactly the elements of both runs. */
  lemma {:induction false} MergePermutes(l: seq<int>, r: seq<int>)
    ensures |Merge(l, r)| == |l| + |r|
    ensures multiset(Merge(l, r)) == multiset(l) + multiset(r)
    decreases |l| + |r|
  {
    if l != [] && r != [] {
      if l[0] <= r[0] {
        MergePermutes(l[1..], r);
        ConsMultiset(l, Merge(l[1..], r));
      } else {
        MergePermutes(l, r[1..]);
        ConsMultiset(r, Merge(l, r[1..]));
      }
    }
  }

  lemma ConsMultiset(s: seq<int>, t: seq<int>)
    requires s != []
    ensures multiset([s[0]] + t) == multiset(t) + multiset(s) - multiset(s[1..])
  {
    assert s == [s[0]] + s[1..];
  }

  /** The merge of two ordered runs is ordered. */
  lemma {:induction false} MergeSorted(l: seq<int>, r: seq<int>)
    requires Sorted(l) && Sorted(r)
    ensures Sorted(Merge(l, r))
    decreases |l| + |r|
  {
    if l != [] && r != [] {
      if l[0] <= r[0] {
        MergeSorted(l[1..], r);
        MergeBounded(l[0], l[1..], r);
        SortedCons(l[0], Merge(l[1..], r));
      } else {
        MergeSorted(l, r[1..]);
        MergeBounded(r[0], l, r[1..]);
        SortedCons(r[0], Merge(l, r[1..]));
      }
    }
  }

  /** A lower bound of both runs bounds their merge. */
  lemma MergeBounded(x: int, l: seq<int>, r: seq<int>)
    requires forall y :: y in l ==> x <= y
    requires forall y :: y in r ==> x <= y
    ensures forall y :: y in Merge(l, r) ==> x <= y
  {
    MergePermutes(l, r);
    forall y | y in Merge(l, r)
      ensures x <= y
    {
      assert y in multiset(l) + multiset(r);
      if y in multiset(l) {
        assert y in l;
      } else {
        assert y in r;
      }
    }
  }

  lemma SortedCons(x: int, s: seq<int>)
    requires Sorted(s) && forall y :: y in s ==> x <= y
    ensures Sorted([x] + s)
  {
    var t := [x] + s;
    forall i, j | 0 <= i < j < |t|
      ensures t[i] <= t[j]
    {
      if i > 0 {
        assert t[i] == s[i - 1] && t[j] == s[j - 1];
      } else {
        assert t[j] in s;
      }
    }
  }

  /**
   * The merge of two ordered runs ends with the larger of their last
   * elements, the right run's on a tie; before it comes the merge of what is left.
   */
  lemma {:induction false} MergeLast(l: seq<int>, r: seq<int>)
    requires Sorted(l) && Sorted(r) && l != [] && r != []
    ensures l[|l| - 1] > r[|r| - 1] ==> Merge(l, r) == Merge(l[..|l| - 1], r) + [l[|l| - 1]]
    ensures l[|l| - 1] <= r[|r| - 1] ==> Merge(l, r) == Merge(l, r[..|r| - 1]) + [r[|r| - 1]]
    decreases |l| + |r|, 1
  {
    if l[0] <= r[0] {
      if |l| == 1 {
        MergeLastSingleLeft(l, r);
      } else {
        MergeLastLeftHead(l, r);
      }
    } else {
      if |r| == 1 {
        MergeLastSingleRight(l, r);
      } else {
        MergeLastRightHead(l, r);
      }
    }
  }

  lemma MergeLastSingleLeft(l: seq<int>, r: seq<int>)
    requires |l| == 1 && r != [] && l[0] <= r[0]
    ensures Merge(l, r) == Merge(l, r[..|r| - 1]) + [r[|r| - 1]]
  {
    var r' := r[..|r| - 1];
    MergeSingleLeft(l, r);
    MergeSingleLeft(l, r');
    LastSplit(r);
    AppendAssoc(l, r', [r[|r| - 1]]);
  }

  lemma MergeSingleLeft(l: seq<int>, r: seq<int>)
    requires |l| == 1 && (r == [] || l[0] <= r[0])
    ensures Merge(l, r) == l + r
  {
    if r != [] {
      assert Merge(l[1..], r) == r;
    }
  }

  lemma MergeLastSingleRight(l: seq<int>, r: seq<int>)
    requires l != [] && |r| == 1 && l[0] > r[0]
    ensures Merge(l, r) == Merge(l[..|l| - 1], r) + [l[|l| - 1]]
  {
    var l' := l[..|l| - 1];
    MergeSingleRight(l, r);
    MergeSingleRight(l', r);
    LastSplit(l);
    AppendAssoc(r, l', [l[|l| - 1]]);
  }

  lemma MergeSingleRight(l: seq<int>, r: seq<int>)
    requires |r| == 1 && (l == [] || l[0] > r[0])
    ensures Merge(l, r) == r + l
  {
    if l != [] {
      assert Merge(l, r[1..]) == l;
    }
  }

  lemma AppendAssoc(a: seq<int>, b: seq<int>, c: seq<int>)
    ensures (a + b) + c == a + (b + c)
  {
  }

  lemma {:induction false} MergeLastLeftHead(l: seq<int>, r: seq<int>)
    requires Sorted(l) && Sorted(r) && |l| > 1 && r != [] && l[0] <= r[0]
    ensures l[|l| - 1] > r[|r| - 1] ==> Merge(l, r) == Merge(l[..|l| - 1], r) + [l[|l| - 1]]
    ensures l[|l| - 1] <= r[|r| - 1] ==> Merge(l, r) == Merge(l, r[..|r| - 1]) + [r[|r| - 1]]
    decreases |l| + |r|, 0
  {
    var l', r' := l[..|l| - 1], r[..|r| - 1];
    assert Merge(l, r) == [l[0]] + Merge(l[1..], r);
    MergeLast(l[1..], r);
    DropTakeSwap(l);
    if l[|l| - 1] > r[|r| - 1] {
      assert Merge(l', r) == [l[0]] + Merge(l'[1..], r);
    } else if r' != [] {
      assert Merge(l, r') == [l[0]] + Merge(l[1..], r');
    } else {
      assert Merge(l[1..], r') == l[1..];
    }
  }

  lemma {:induction false} MergeLastRightHead(l: seq<int>, r: seq<int>)
    requires Sorted(l) && Sorted(r) && l != [] && |r| > 1 && l[0] > r[0]
    ensures l[|l| - 1] > r[|r| - 1] ==> Merge(l, r) == Merge(l[..|l| - 1], r) + [l[|l| - 1]]
    ensures l[|l| - 1] <= r[|r| - 1] ==> Merge(l, r) == Merge(l, r[..|r| - 1]) + [r[|r| - 1]]
    decreases |l| + |r|, 0
  {
    var l', r' := l[..|l| - 1], r[..|r| - 1];
    assert Merge(l, r) == [r[0]] + Merge(l, r[1..]);
    MergeLast(l, r[1..]);
    DropTakeSwap(r);
    if l[|l| - 1] <= r[|r| - 1] {
      assert Merge(l, r') == [r[0]] + Merge(l, r'[1..]);
    } else if l' != [] {
      assert Merge(l', r) == [r[0]] + Merge(l', r[1..]);
    } else {
      assert Merge(l', r[1..]) == r[1..];
    }
  }

  lemma LastSplit(s: seq<int>)
    requires s != []
    ensures s == s[..|s| - 1] + [s[|s| - 1]]
  {
  }

  lemma DropTakeSwap(s: seq<int>)
    requires |s| > 1
    ensures s[1..][..|s| - 2] == s[..|s| - 1][1..]
  {
  }

  /** From the front: the left head, when it is at most the right head, is the merge's next element. */
  lemma MergeFrontLeft(m: seq<int>, p: seq<int>, l: seq<int>, r: seq<int>)
    requires l != [] && r != [] && l[0] <= r[0] && m == p + Merge(l, r)
    ensures m == (p + [l[0]]) + Merge(l[1..], r)
  {
  }

  /** From the front: the right head, when it is below the left head, is the merge's next element. */
  lemma MergeFrontRight(m: seq<int>, p: seq<int>, l: seq<int>, r: seq<int>)
    requires l != [] && r != [] && l[0] > r[0] && m == p + Merge(l, r)
    ensures m == (p + [r[0]]) + Merge(l, r[1..])
  {
  }

  /** From the back: the left run's last element, when it is above the right one's, ends the merge. */
  lemma MergeBackLeft(m: seq<int>, l: seq<int>, r: seq<int>, t: seq<int>)
    requires Sorted(l) && Sorted(r) && l != [] && r != [] && l[|l| - 1] > r[|r| - 1]
    requires m == Merge(l, r) + t
    ensures m == Merge(l[..|l| - 1], r) + ([l[|l| - 1]] + t)
  {
    MergeLast(l, r);
  }

  /** From the back: the right run's last element, when it is at least the left one's, ends the merge. */
  lemma MergeBackRight(m: seq<int>, l: seq<int>, r: seq<int>, t: seq<int>)
    requires Sorted(l) && Sorted(r) && l != [] && r != [] && l[|l| - 1] <= r[|r| - 1]
    requires m == Merge(l, r) + t
    ensures m == Merge(l, r[..|r| - 1]) + ([r[|r| - 1]] + t)
  {
    MergeLast(l, r);
  }

  /**
   * Where a sequence built from the front meets the same sequence built from
   * the back: the two elements between the parts are the front rest's first
   * and the back rest's last.
   */
  lemma Meet(m: seq<int>, p: seq<int>, f: seq<int>, g: seq<int>, t: seq<int>)
    requires m == p + f && m == g + t && f != [] && g != [] && |p| + 2 + |t| == |m|
    ensures m == p + [f[0]] + [g[|g| - 1]] + t
  {
    assert m[..|p|] == p && m[|p|] == f[0];
    assert m[|p| + 2..] == t && m[|p| + 1] == g[|g| - 1];
    Regroup(m, |p|);
  }

  lemma MergeHead(l: seq<int>, r: seq<int>)
    requires l != [] && r != []
    ensures Merge(l, r)[0] == if l[0] <= r[0] then l[0] else r[0]
  {
  }

  lemma MergeTail(l: seq<int>, r: seq<int>)
    requires Sorted(l) && Sorted(r) && l != [] && r != []
    ensures |Merge(l, r)| == |l| + |r|
    ensures Merge(l, r)[|l| + |r| - 1] == if l[|l| - 1] > r[|r| - 1] then l[|l| - 1] else r[|r| - 1]
  {
    MergeLast(l, r);
    MergePermutes(l, r);
    MergePermutes(l[..|l| - 1], r);
    MergePermutes(l, r[..|r| - 1]);
  }

  lemma Regroup(m: seq<int>, k: nat)
    requires k + 2 <= |m|
    ensures m == m[..k] + [m[k]] + [m[k + 1]] + m[k + 2..]
  {
  }

  /** The merge of l[i..] and r[j..], built from the front, by position. */
  function MergeFrom(l: seq<int>, r: seq<int>, i: nat, j: nat): (m: seq<int>)
    requires i <= |l| && j <= |r|
    ensures |m| == |l| - i + |r| - j
    decreases |l| - i + |r| - j
  {
    if i == |l| then r[j..]
    else if j == |r| then l[i..]
    else if l[i] <= r[j] then [l[i]] + MergeFrom(l, r, i + 1, j)
    else [r[j]] + MergeFrom(l, r, i, j + 1)
  }

  /** The merge of l[..i] and r[..j], built from the back, by position: the right run wins ties. */
  function MergeTo(l: seq<int>, r: seq<int>, i: nat, j: nat): (m: seq<int>)
    requires i <= |l| && j <= |r|
    ensures |m| == i + j
    decreases i + j
  {
    if i == 0 then r[..j]
    else if j == 0 then l[..i]
    else if l[i - 1] > r[j - 1] then MergeTo(l, r, i - 1, j) + [l[i - 1]]
    else MergeTo(l, r, i, j - 1) + [r[j - 1]]
  }

  /** Merging what is left of two runs from given positions on is merging their suffixes. */
  lemma {:induction false} MergeFromIsMerge(l: seq<int>, r: seq<int>, i: nat, j: nat)
    requires i <= |l| && j <= |r|
    ensures MergeFrom(l, r, i, j) == Merge(l[i..], r[j..])
    decreases |l| - i + |r| - j
  {
    if i < |l| && j < |r| {
      assert l[i..][1..] == l[i + 1..] && r[j..][1..] == r[j + 1..];
      if l[i] <= r[j] {
        MergeFromIsMerge(l, r, i + 1, j);
      } else {
        MergeFromIsMerge(l, r, i, j + 1);
      }
    }
  }

  /** For ordered runs, merging their prefixes from the back is their stable merge. */
  lemma {:induction false} MergeToIsMerge(l: seq<int>, r: seq<int>, i: nat, j: nat)
    requires Sorted(l) && Sorted(r) && i <= |l| && j <= |r|
    ensures MergeTo(l, r, i, j) == Merge(l[..i], r[..j])
    decreases i + j
  {
    if i > 0 && j > 0 {
      SortedSlice(l, 0, i);
      SortedSlice(r, 0, j);
      MergeLast(l[..i], r[..j]);
      assert l[..i][..i - 1] == l[..i - 1] && r[..j][..j - 1] == r[..j - 1];
      if l[i - 1] > r[j - 1] {
        MergeToIsMerge(l, r, i - 1, j);
      } else {
        MergeToIsMerge(l, r, i, j - 1);
      }
    }
  }

  /** Runs already in order merge into their concatenation. */
  lemma {:induction false} MergeInOrder(l: seq<int>, r: seq<int>)
    requires Sorted(l) && (l == [] || r == [] || l[|l| - 1] <= r[0])
    ensures Merge(l, r) == l + r
    decreases |l|
  {
    if l != [] && r != [] {
      assert l[0] <= l[|l| - 1];
      MergeInOrder(l[1..], r);
      assert l == [l[0]] + l[1..];
    }
  }

  // ---------------------------------------------------------------------------------
  // The stable split around a pivot

  /** The elements at most the pivot, in their order. */
  function AtMost(s: seq<int>, pivot: int): seq<int>
  {
    if s == [] then []
    else AtMost(s[..|s| - 1], pivot) + (if s[|s| - 1] <= pivot then [s[|s| - 1]] else [])
  }

  /** The elements above the pivot, in their order. */
  function Above(s: seq<int>, pivot: int): seq<int>
  {
    if s == [] then []
    else Above(s[..|s| - 1], pivot) + (if s[|s| - 1] > pivot then [s[|s| - 1]] else [])
  }

  /** Splitting a run splits each part at the same place. */
  lemma {:induction false} SplitAppend(s: seq<int>, t: seq<int>, pivot: int)
    ensures AtMost(s + t, pivot) == AtMost(s, pivot) + AtMost(t, pivot)
    ensures Above(s + t, pivot) == Above(s, pivot) + Above(t, pivot)
    decreases |t|
  {
    if t != [] {
      var t' := t[..|t| - 1];
      assert (s + t)[..|s + t| - 1] == s + t';
      SplitAppend(s, t', pivot);
    } else {
      assert s + t == s;
    }
  }

  /** The two parts hold the run's elements. */
  lemma {:induction false} SplitPermutes(s: seq<int>, pivot: int)
    ensures multiset(AtMost(s, pivot)) + multiset(Above(s, pivot)) == multiset(s)
    ensures |AtMost(s, pivot)| + |Above(s, pivot)| == |s|
    decreases |s|
  {
    if s != [] {
      var s', x := s[..|s| - 1], s[|s| - 1];
      SplitPermutes(s', pivot);
      LastSplit(s);
      if x <= pivot {
        SplitLastAtMost(s, pivot);
      } else {
        SplitLastAbove(s, pivot);
      }
    }
  }

  /** The two parts together are as long as the run. */
  lemma {:induction false} SplitLength(s: seq<int>, pivot: int)
    ensures |AtMost(s, pivot)| + |Above(s, pivot)| == |s|
    decreases |s|
  {
    if s != [] {
      SplitLength(s[..|s| - 1], pivot);
    }
  }

  lemma SplitLastAtMost(s: seq<int>, pivot: int)
    requires s != [] && s[|s| - 1] <= pivot
    ensures AtMost(s, pivot) == AtMost(s[..|s| - 1], pivot) + [s[|s| - 1]]
    ensures Above(s, pivot) == Above(s[..|s| - 1], pivot)
  {
  }

  lemma SplitLastAbove(s: seq<int>, pivot: int)
    requires s != [] && s[|s| - 1] > pivot
    ensures AtMost(s, pivot) == AtMost(s[..|s| - 1], pivot)
    ensures Above(s, pivot) == Above(s[..|s| - 1], pivot) + [s[|s| - 1]]
  {
  }

  /** Every element of the first part is at most the pivot. */
  lemma {:induction false} AtMostBounded(s: seq<int>, pivot: int)
    ensures forall x :: x in AtMost(s, pivot) ==> x <= pivot
    decreases |s|
  {
    if s != [] {
      AtMostBounded(s[..|s| - 1], pivot);
    }
  }

  /** Every element of the second part is above the pivot. */
  lemma {:induction false} AboveBounded(s: seq<int>, pivot: int)
    ensures forall x :: x in Above(s, pivot) ==> x > pivot
    decreases |s|
  {
    if s != [] {
      AboveBounded(s[..|s| - 1], pivot);
    }
  }

  // ---------------------------------------------------------------------------------
  // Descending neighbours

  /** How many neighbours s[i] > s[i + 1] there are with lo <= i < hi. */
  function Descents(s: seq<int>, lo: nat, hi: nat): nat
    requires lo <= hi < |s|
    decreases hi - lo
  {
    if lo == hi then 0 else (if s[hi - 1] > s[hi] then 1 else 0) + Descents(s, lo, hi - 1)
  }

  /** Counting up to a midpoint and on from it counts the whole range. */
  lemma {:induction false} DescentsSplit(s: seq<int>, lo: nat, mid: nat, hi: nat)
    requires lo <= mid <= hi < |s|
    ensures Descents(s, lo, hi) == Descents(s, lo, mid) + Descents(s, mid, hi)
    decreases hi - mid
  {
    if mid < hi {
      DescentsSplit(s, lo, mid, hi - 1);
    }
  }

  /** Counting from the low end one pair at a time. */
  lemma DescentsFromLow(s: seq<int>, lo: nat, hi: nat)
    requires lo < hi < |s|
    ensures Descents(s, lo, hi) == (if s[lo] > s[lo + 1] then 1 else 0) + Descents(s, lo + 1, hi)
  {
    DescentsSplit(s, lo, lo + 1, hi);
  }

  /** No descents means ordered neighbours. */
  lemma {:induction false} NoDescents(s: seq<int>, lo: nat, hi: nat)
    requires lo <= hi < |s| && Descents(s, lo, hi) == 0
    ensures forall i :: lo <= i < hi ==> s[i] <= s[i + 1]
    decreases hi - lo
  {
    if lo < hi {
      NoDescents(s, lo, hi - 1);
    }
  }

  /** As many descents as pairs means every neighbour descends. */
  lemma {:induction false} AllDescents(s: seq<int>, lo: nat, hi: nat)
    requires lo <= hi < |s| && Descents(s, lo, hi) == hi - lo
    ensures forall i :: lo <= i < hi ==> s[i] > s[i + 1]
    decreases hi - lo
  {
    if lo < hi {
      DescentsAtMost(s, lo, hi - 1);
      AllDescents(s, lo, hi - 1);
    }
  }

  lemma {:induction false} DescentsAtMost(s: seq<int>, lo: nat, hi: nat)
    requires lo <= hi < |s|
    ensures Descents(s, lo, hi) <= hi - lo
    decreases hi - lo
  {
    if lo < hi {
      DescentsAtMost(s, lo, hi - 1);
    }
  }

  /** The sequence read backwards. */
  function Reverse(s: seq<int>): (r: seq<int>)
    ensures |r| == |s| && forall i :: 0 <= i < |s| ==> r[i] == s[|s| - 1 - i]
  {
    seq(|s|, i requires 0 <= i < |s| => s[|s| - 1 - i])
  }

  /** Reading a strictly descending sequence backwards gives an ordered one with the same elements. */
  lemma ReverseDescending(s: seq<int>)
    requires forall i :: 0 <= i < |s| - 1 ==> s[i] > s[i + 1]
    ensures Sorted(Reverse(s)) && multiset(Reverse(s)) == multiset(s)
  {
    var r := Reverse(s);
    assert AdjacentSorted(r) by {
      forall i | 0 <= i < |r| - 1
        ensures r[i] <= r[i + 1]
      {
        assert s[|s| - 2 - i] > s[|s| - 1 - i];
      }
    }
    AdjacentSortedIsSorted(r);
    ReverseMultiset(s);
  }

  lemma {:induction false} ReverseMultiset(s: seq<int>)
    ensures multiset(Reverse(s)) == multiset(s)
    decreases |s|
  {
    if s != [] {
      var t := s[1..];
      ReverseMultiset(t);
      assert Reverse(s) == Reverse(t) + [s[0]];
      assert s == [s[0]] + t;
    }
  }

  /** s rotated left by `left` places: the last |s| - left elements first, then the first `left`. */
  function RotateLeft(s: seq<int>, left: nat): (r: seq<int>)
    requires left <= |s|
    ensures |r| == |s| && multiset(r) == multiset(s)
  {
    assert s == s[..left] + s[left..];
    s[left..] + s[..left]
  }

  /** Rotating by the length of the other part undoes a rotation. */
  lemma RotateBack(s: seq<int>, left: nat)
    requires left <= |s|
    ensures RotateLeft(RotateLeft(s, left), |s| - left) == s
  {
    var r := RotateLeft(s, left);
    assert r[..|s| - left] == s[left..] && r[|s| - left..] == s[..left];
  }

  /**
   * The three-reversal identity: reversing both parts and then the whole
   * rotates.
   */
  lemma ThreeReversals(s: seq<int>, left: nat)
    requires left <= |s|
    ensures Reverse(Reverse(s[..left]) + Reverse(s[left..])) == RotateLeft(s, left)
  {
    var v := Reverse(s[..left]) + Reverse(s[left..]);
    var t, r := Reverse(v), RotateLeft(s, left);
    forall q | 0 <= q < |s|
      ensures t[q] == r[q]
    {
      if q < |s| - left {
        assert t[q] == v[|s| - 1 - q] == Reverse(s[left..])[|s| - 1 - q - left];
      } else {
        assert t[q] == v[|s| - 1 - q] == Reverse(s[..left])[|s| - 1 - q];
      }
    }
  }
}
