/*
 * The insertion sort and the small-array entry point of BlitSort:
 * unguarded_insert and tail_swap.
 */
module BlitSortTail {
  import opened SortSpec
  import opened BlitSortNetworks

  /**
   * s with the elements from e on, up to t - 1, each moved up one place:
   * position e keeps its value, which now appears twice, and s[t] is
   * overwritten.
   */
  function Shifted(s: seq<int>, e: nat, t: nat): (r: seq<int>)
    requires e <= t < |s|
    ensures |r| == |s|
  {
    s[..e + 1] + s[e..t] + s[t + 1..]
  }

  /** Position k of a shifted sequence: moved up inside (e, t], as it was elsewhere. */
  lemma ShiftedAt(s: seq<int>, e: nat, t: nat, k: nat)
    requires e <= t < |s| && k < |s|
    ensures e < k <= t ==> Shifted(s, e, t)[k] == s[k - 1]
    ensures (k <= e || t < k) ==> Shifted(s, e, t)[k] == s[k]
  {
  }

  /** One more place moved up, as each copy in unguarded_insert's shifting loops does. */
  lemma ShiftStep(s: seq<int>, e: nat, t: nat)
    requires 1 <= e <= t < |s|
    ensures Shifted(s, e, t)[e := s[e - 1]] == Shifted(s, e - 1, t)
  {
    var a, b := Shifted(s, e, t)[e := s[e - 1]], Shifted(s, e - 1, t);
    forall k | 0 <= k < |s|
      ensures a[k] == b[k]
    {
      ShiftedAt(s, e, t, k);
      ShiftedAt(s, e - 1, t, k);
    }
  }

  /**
   * s with its element at lo + i inserted at lo + q: what comes before
   * lo + q stays, what lies from lo + q to lo + i - 1 moves up one place.
   */
  function Ins(s: seq<int>, lo: nat, i: nat, q: nat): (r: seq<int>)
    requires q <= i && lo + i < |s|
    ensures |r| == |s|
  {
    s[..lo + q] + [s[lo + i]] + s[lo + q..lo + i] + s[lo + i + 1..]
  }

  /** Position k of the insertion: before lo + q as it was, then the key, then moved up one place. */
  lemma InsAt(s: seq<int>, lo: nat, i: nat, q: nat, k: nat)
    requires q <= i && lo + i < |s| && k < |s|
    ensures k < lo + q || lo + i < k ==> Ins(s, lo, i, q)[k] == s[k]
    ensures k == lo + q ==> Ins(s, lo, i, q)[k] == s[lo + i]
    ensures lo + q < k <= lo + i ==> Ins(s, lo, i, q)[k] == s[k - 1]
  {
  }

  /** Shifting the range up one place and writing the key into the gap is the insertion. */
  lemma ShiftedIns(s: seq<int>, lo: nat, i: nat, q: nat)
    requires q <= i && lo + i < |s|
    ensures Shifted(s, lo + q, lo + i)[lo + q := s[lo + i]] == Ins(s, lo, i, q)
  {
    var a, b := Shifted(s, lo + q, lo + i)[lo + q := s[lo + i]], Ins(s, lo, i, q);
    forall k | 0 <= k < |s|
      ensures a[k] == b[k]
    {
      ShiftedAt(s, lo + q, lo + i, k);
      InsAt(s, lo, i, q, k);
    }
  }

  /** Inserting an element only rearranges the range it moves through. */
  lemma InsPermutes(s: seq<int>, lo: nat, i: nat, q: nat)
    requires q <= i && lo + i < |s|
    ensures Permutes(s, Ins(s, lo, i, q), lo, lo + i + 1)
  {
    var u := Ins(s, lo, i, q);
    assert u[lo..lo + i + 1] == s[lo..lo + q] + [s[lo + i]] + s[lo + q..lo + i];
    assert s[lo..lo + i + 1] == s[lo..lo + q] + s[lo + q..lo + i] + [s[lo + i]];
    assert u[..lo] == s[..lo];
    assert u[lo + i + 1..] == s[lo + i + 1..];
  }

  /**
   * Inserting the key s[lo + i] into the ordered run s[lo..lo + i) at lo + q,
   * where the element two below lies at most the key and the one at lo + q
   * above it, and then ordering the pair at lo + q - 1, lo + q, gives an
   * ordered run one longer.
   */
  lemma InsertSorts(s: seq<int>, lo: nat, i: nat, q: nat)
    requires 1 <= q < i && lo + i < |s| && Sorted(s[lo..lo + i])
    requires s[lo + i] < s[lo + q] && (q >= 2 ==> s[lo + q - 2] <= s[lo + i])
    ensures Sorted(OrderPair(Ins(s, lo, i, q), lo + q - 1)[lo..lo + i + 1])
    ensures Permutes(s, OrderPair(Ins(s, lo, i, q), lo + q - 1), lo, lo + i + 1)
  {
    InsertPermutes(s, lo, i, q);
    var t := OrderPair(Ins(s, lo, i, q), lo + q - 1);
    forall k | lo <= k && k + 1 < lo + i + 1
      ensures t[k] <= t[k + 1]
    {
      if k < lo + q {
        InsertAdjacentLow(s, lo, i, q, k);
      } else {
        InsertAdjacentHigh(s, lo, i, q, k);
      }
    }
    AdjacentRange(t, lo, lo + i + 1);
  }

  /** The insertion followed by the final exchange only rearranges the range the key moves through. */
  lemma InsertPermutes(s: seq<int>, lo: nat, i: nat, q: nat)
    requires 1 <= q <= i && lo + i < |s|
    ensures Permutes(s, OrderPair(Ins(s, lo, i, q), lo + q - 1), lo, lo + i + 1)
  {
    InsPermutes(s, lo, i, q);
    ThenOrderPair(s, Ins(s, lo, i, q), lo + q - 1, lo, lo + i + 1);
  }

  /** Ordering a pair inside a rearranged range keeps it a rearrangement. */
  lemma ThenOrderPair(s: seq<int>, u: seq<int>, p: nat, lo: nat, hi: nat)
    requires Permutes(s, u, lo, hi) && lo <= p && p + 2 <= hi
    ensures Permutes(s, OrderPair(u, p), lo, hi)
  {
    OrderPairPermutes(u, p, lo, hi);
    PermutesTrans(s, u, OrderPair(u, p), lo, hi);
  }

    /** Below the key's final place the neighbours keep their order. */
  lemma InsertAdjacentLow(s: seq<int>, lo: nat, i: nat, q: nat, k: nat)
    requires 1 <= q < i && lo + i < |s| && Sorted(s[lo..lo + i])
    requires s[lo + i] < s[lo + q] && (q >= 2 ==> s[lo + q - 2] <= s[lo + i])
    requires lo <= k < lo + q
    ensures var t := OrderPair(Ins(s, lo, i, q), lo + q - 1); t[k] <= t[k + 1]
  {
    InsAt(s, lo, i, q, k);
    InsAt(s, lo, i, q, k + 1);
    if k + 1 < lo + q {
      if k + 2 == lo + q {
        InsAt(s, lo, i, q, lo + q);
      }
      RunOrder(s, lo, i, k, k + 1);
    }
  }

  /** From the key's final place upwards the neighbours keep their order. */
  lemma InsertAdjacentHigh(s: seq<int>, lo: nat, i: nat, q: nat, k: nat)
    requires 1 <= q < i && lo + i < |s| && Sorted(s[lo..lo + i])
    requires s[lo + i] < s[lo + q]
    requires lo + q <= k < lo + i
    ensures var t := OrderPair(Ins(s, lo, i, q), lo + q - 1); t[k] <= t[k + 1]
  {
    InsAt(s, lo, i, q, k);
    InsAt(s, lo, i, q, k + 1);
    if k == lo + q {
      InsAt(s, lo, i, q, lo + q - 1);
    }
    RunOrder(s, lo, i, k - 1, k);
  }

  /** Two positions of an ordered run hold their elements in order. */
  lemma RunOrder(s: seq<int>, lo: nat, i: nat, x: nat, y: nat)
    requires lo <= x <= y < lo + i <= |s| && Sorted(s[lo..lo + i])
    ensures s[x] <= s[y]
  {
    assert s[lo..lo + i][x - lo] == s[x] && s[lo..lo + i][y - lo] == s[y];
  }

  /** An ordered run followed by an element at least its last stays ordered. */
  lemma SortedExtend(s: seq<int>, lo: nat, i: nat)
    requires 1 <= i && lo + i < |s| && Sorted(s[lo..lo + i]) && s[lo + i - 1] <= s[lo + i]
    ensures Sorted(s[lo..lo + i + 1])
  {
    SortedConcat(s[lo..lo + i], [s[lo + i]]);
    assert s[lo..lo + i] + [s[lo + i]] == s[lo..lo + i + 1];
  }

  /** Shifting nothing leaves the sequence as it is. */
  lemma ShiftedNone(s: seq<int>, t: nat)
    requires t < |s|
    ensures Shifted(s, t, t) == s
  {
    assert s[..t + 1] + s[t + 1..] == s;
  }

  /** In an ordered run whose second element is at most key, an element above key lies at lo + 2 or later. */
  lemma AboveKeyIsHigh(s: seq<int>, lo: nat, i: nat, x: nat, key: int)
    requires 2 <= i && lo <= x < lo + i <= |s| && Sorted(s[lo..lo + i]) && s[lo + 1] <= key
    ensures s[x] > key ==> lo + 2 <= x
  {
    if x <= lo + 1 {
      RunOrder(s, lo, i, x, lo + 1);
    }
  }

  /** One copy of the shifting loops, `*end-- = *pta--`: the element below end moves up onto end. */
  method CopyDown(a: array<int>, ghost s: seq<int>, end: nat, t: nat)
    requires 1 <= end <= t < |s| && a[..] == Shifted(s, end, t)
    modifies a
    ensures a[..] == Shifted(s, end - 1, t)
  {
    ShiftedAt(s, end, t, end - 1);
    a[end] := a[end - 1];
    ShiftStep(s, end, t);
  }

  /**
   * The branch of unguarded_insert for a key below the run's second
   * element: every element from lo + 1 on moves up one place, one copy
   * per round, and the key goes to lo + 1. Returns the cursor end, left
   * on the pair lo, lo + 1 that the final exchange orders.
   */
  method ShiftAll(a: array<int>, lo: nat, i: nat) returns (end: nat)
    requires 2 <= i && lo + i < a.Length
    modifies a
    ensures end == lo && a[..] == Ins(old(a[..]), lo, i, 1)
  {
    ghost var s := a[..];
    var key := a[lo + i];
    end := lo + i;
    var top := i - 1;
    ShiftedNone(s, lo + i);
    // top starts at one or more, so the first round of the source's do-while always runs
    while top > 0
      invariant end == lo + top + 1 && a[..] == Shifted(s, end, lo + i)
    {
      CopyDown(a, s, end, lo + i);
      end := end - 1;
      top := top - 1;
    }
    a[end] := key;
    ShiftedIns(s, lo, i, 1);
    end := end - 1;
  }

  /**
   * The other branch of unguarded_insert: the elements above the key move
   * up two places per round until the element below the cursor is at most
   * the key, then the key is written just above the cursor. The last
   * copy may move one element too many past the key, which the final
   * exchange of the pair end, end + 1 puts right.
   */
  method ShiftPairs(a: array<int>, lo: nat, i: nat) returns (end: nat)
    requires 2 <= i && lo + i < a.Length && Sorted(a[lo..lo + i])
    requires a[lo + 1] <= a[lo + i] < a[lo + i - 1]
    modifies a
    ensures lo + 1 <= end && end + 1 < lo + i
    ensures a[..] == Ins(old(a[..]), lo, i, end + 1 - lo)
    ensures old(a[end - 1]) <= old(a[lo + i]) < old(a[end + 1])
  {
    ghost var s := a[..];
    var key := a[lo + i];
    assert s[lo..lo + i] == a[lo..lo + i];
    ShiftedNone(s, lo + i);
    AboveKeyIsHigh(s, lo, i, lo + i - 1, key);
    end := PairLoop(a, s, lo, i, key);
    PlaceKey(a, s, lo, i, end, key);
  }

  /**
   * The pairwise loop itself: rounds of two copies while the element
   * below the cursor is above the key. It stops with the cursor on an
   * element at most the key and the one two places up above it.
   */
  method PairLoop(a: array<int>, ghost s: seq<int>, lo: nat, i: nat, key: int) returns (end: nat)
    requires 2 <= i && lo + i < |s| == a.Length && Sorted(s[lo..lo + i])
    requires s[lo + 1] <= key < s[lo + i - 1]
    requires a[..] == Shifted(s, lo + i, lo + i)
    modifies a
    ensures lo + 1 <= end && end + 1 < lo + i
    ensures a[..] == Shifted(s, end, lo + i)
    ensures s[end - 1] <= key < s[end + 1]
  {
    end := lo + i;
    var more := true;
    while more
      invariant lo + 1 <= end <= lo + i && (lo + i - end) % 2 == 0 && a[..] == Shifted(s, end, lo + i)
      invariant more ==> lo + 3 <= end && s[end - 1] > key
      invariant !more ==> s[end - 1] <= key
      invariant end == lo + i ==> more
      invariant end < lo + i ==> s[end + 1] > key
      decreases end
    {
      more := PairStep(a, s, lo, i, end, key);
      end := end - 2;
    }
  }

  /**
   * One round of the pairwise branch and its loop test: two elements move
   * up, and the loop goes on while the element now below the cursor is
   * above the key, which cannot happen below lo + 2.
   */
  method PairStep(a: array<int>, ghost s: seq<int>, lo: nat, i: nat, end: nat, key: int) returns (more: bool)
    requires 2 <= i && lo + 3 <= end <= lo + i < |s| == a.Length && Sorted(s[lo..lo + i]) && s[lo + 1] <= key
    requires a[..] == Shifted(s, end, lo + i) && s[end - 1] > key
    modifies a
    ensures a[..] == Shifted(s, end - 2, lo + i)
    ensures more <==> s[end - 3] > key
    ensures more ==> lo + 5 <= end
  {
    PairRound(a, s, end, lo + i);
    ShiftedAt(s, end - 2, lo + i, end - 3);
    more := a[end - 3] > key;
    AboveKeyIsHigh(s, lo, i, end - 3, key);
  }

  /** One round of the pairwise loop, `*end-- = *pta--; *end-- = *pta--;`. */
  method PairRound(a: array<int>, ghost s: seq<int>, end: nat, t: nat)
    requires 2 <= end <= t < |s| && a[..] == Shifted(s, end, t)
    modifies a
    ensures a[..] == Shifted(s, end - 2, t)
  {
    CopyDown(a, s, end, t);
    CopyDown(a, s, end - 1, t);
  }

  /**
   * The end of the pairwise branch, `end[0] = end[1]; end[1] = key;`: the
   * first copy writes back the value end already holds, the second puts
   * the key just above end.
   */
  method PlaceKey(a: array<int>, ghost s: seq<int>, lo: nat, i: nat, end: nat, key: int)
    requires lo <= end < lo + i < |s| && a[..] == Shifted(s, end, lo + i) && key == s[lo + i]
    modifies a
    ensures a[..] == Ins(s, lo, i, end + 1 - lo)
  {
    ghost var u := a[..];
    a[end] := a[end + 1];
    a[end + 1] := key;
    assert a[..] == u[end := u[end + 1]][end + 1 := s[lo + i]];
    PlacedKey(s, lo, i, end);
  }

  /** What PlaceKey's two writes leave is the key inserted just above end. */
  lemma PlacedKey(s: seq<int>, lo: nat, i: nat, e: nat)
    requires lo <= e < lo + i < |s|
    ensures var u := Shifted(s, e, lo + i);
      u[e := u[e + 1]][e + 1 := s[lo + i]] == Ins(s, lo, i, e + 1 - lo)
  {
    var u := Shifted(s, e, lo + i);
    var v, w := u[e := u[e + 1]][e + 1 := s[lo + i]], Ins(s, lo, i, e + 1 - lo);
    forall k | 0 <= k < |s|
      ensures v[k] == w[k]
    {
      ShiftedAt(s, e, lo + i, k);
      ShiftedAt(s, e, lo + i, e + 1);
      InsAt(s, lo, i, e + 1 - lo, k);
    }
  }

  /**
   * One round of unguarded_insert's outer loop: the element at lo + i
   * joins the ordered run before it.
   */
  method InsertOne(a: array<int>, lo: nat, i: nat)
    requires 2 <= i && lo + i < a.Length && Sorted(a[lo..lo + i])
    modifies a
    ensures Sorted(a[lo..lo + i + 1]) && Permutes(old(a[..]), a[..], lo, lo + i + 1)
  {
    if a[lo + i - 1] <= a[lo + i] {
      ghost var s := a[..];
      SortedExtend(s, lo, i);
      PermutesRefl(s, lo, lo + i + 1);
      assert a[lo..lo + i + 1] == s[lo..lo + i + 1];
    } else {
      InsertKey(a, lo, i);
    }
  }

  /** The key at lo + i is below the run's last element: shift and place it by one of the two branches. */
  method InsertKey(a: array<int>, lo: nat, i: nat)
    requires 2 <= i && lo + i < a.Length && Sorted(a[lo..lo + i]) && a[lo + i] < a[lo + i - 1]
    modifies a
    ensures Sorted(a[lo..lo + i + 1]) && Permutes(old(a[..]), a[..], lo, lo + i + 1)
  {
    ghost var s := a[..];
    var end: nat;
    if a[lo + 1] > a[lo + i] {
      end := ShiftAll(a, lo, i);
    } else {
      end := ShiftPairs(a, lo, i);
    }
    OrderInserted(a, s, lo, i, end);
  }

  /**
   * The final exchange of unguarded_insert, `swap = end[0] > end[1] ? ...`:
   * with the key inserted just above end, ordering the pair end, end + 1
   * leaves the run from lo to lo + i in order.
   */
  method OrderInserted(a: array<int>, ghost s: seq<int>, lo: nat, i: nat, end: nat)
    requires lo <= end && end + 1 < lo + i < |s| == a.Length && Sorted(s[lo..lo + i])
    requires s[lo + i] < s[end + 1] && (lo + 1 <= end ==> s[end - 1] <= s[lo + i])
    requires a[..] == Ins(s, lo, i, end + 1 - lo)
    modifies a
    ensures Sorted(a[lo..lo + i + 1]) && Permutes(s, a[..], lo, lo + i + 1)
  {
    var q := end + 1 - lo;
    CompareSwap(a, end);
    InsertSorts(s, lo, i, q);
  }

  /**
   * unguarded_insert: the first offset elements from lo are in order;
   * each later one up to n is inserted into the run before it. No bound
   * check is needed on the way down: a key below the run's second element
   * takes the branch that stops at lo + 1, and any other key meets an
   * element at most itself before passing lo + 1.
   */
  method UnguardedInsert(a: array<int>, lo: nat, offset: nat, n: nat, ghost s0: seq<int>)
    requires 2 <= offset <= n && lo + n <= a.Length && Sorted(a[lo..lo + offset])
    requires Permutes(s0, a[..], lo, lo + n)
    modifies a
    ensures Sorted(a[lo..lo + n]) && Permutes(s0, a[..], lo, lo + n)
  {
    var i := offset;
    while i < n
      invariant offset <= i <= n
      invariant Sorted(a[lo..lo + i]) && Permutes(s0, a[..], lo, lo + n)
    {
      InsertNext(a, lo, i, n, s0);
      i := i + 1;
    }
  }

  /**
   * InsertOne seen from the whole range lo .. lo + n: the run grows by
   * one and the range stays a permutation of what it held at the start.
   */
  method InsertNext(a: array<int>, lo: nat, i: nat, n: nat, ghost s0: seq<int>)
    requires 2 <= i < n && lo + n <= a.Length && Sorted(a[lo..lo + i])
    requires Permutes(s0, a[..], lo, lo + n)
    modifies a
    ensures Sorted(a[lo..lo + i + 1]) && Permutes(s0, a[..], lo, lo + n)
  {
    ghost var s := a[..];
    InsertOne(a, lo, i);
    PermutesInside(s0, s, a[..], lo, lo + i + 1, lo + n);
  }

  /** A permutation of a part of a range, after a permutation of the whole range. */
  lemma PermutesInside(s0: seq<int>, s: seq<int>, t: seq<int>, lo: nat, mid: nat, hi: nat)
    requires Permutes(s0, s, lo, hi) && Permutes(s, t, lo, mid) && mid <= hi
    ensures Permutes(s0, t, lo, hi)
  {
    PermutesWiden(s, t, lo, mid, lo, hi);
    PermutesTrans(s0, s, t, lo, hi);
  }


  /** The sorting network tail_swap applies to the first block elements. */
  method NetworkSort(a: array<int>, block: nat)
    requires (block == 4 || block == 8 || block == 16) && block <= a.Length
    modifies a
    ensures Sorted(a[0..block]) && Permutes(old(a[..]), a[..], 0, block)
  {
    if block == 4 {
      QuadSwapFour(a, 0);
    } else if block == 8 {
      ParitySwapEight(a, 0);
    } else {
      ParitySwapSixteen(a, 0);
    }
  }

  /**
   * tail_swap, the sort for arrays of fewer than 32 elements: below 4 a
   * bubble sort, below 8 a four-element network, below 16 the
   * eight-element one, otherwise the sixteen-element one, and in the last
   * three cases the rest inserted one at a time.
   */
  method TailSwap(a: array<int>, n: nat)
    requires n <= a.Length
    modifies a
    ensures Sorted(a[..n]) && Permutes(old(a[..]), a[..], 0, n)
  {
    ghost var s := a[..];
    if n < 4 {
      BubbleSort(a, n);
      return;
    }
    var block: nat := if n < 8 then 4 else if n < 16 then 8 else 16;
    NetworkSort(a, block);
    PermutesWiden(s, a[..], 0, block, 0, n);
    UnguardedInsert(a, 0, block, n, s);
    assert a[0..n] == a[..n];
  }
}
