/*
 * trinity_rotation: rotating a window of the array left by `left` places,
 * through the swap buffer when one part fits in it, and otherwise by the
 * three-reversal identity with the three reversals fused into cycles.
 */
module BlitSortRotate {
  import opened SortSpec

  /** The array s with its window [lo, lo + n) rotated left by `left`. */
  function Rotated(s: seq<int>, lo: nat, n: nat, left: nat): (r: seq<int>)
    requires left <= n && lo + n <= |s|
    ensures |r| == |s| && multiset(r) == multiset(s)
  {
    assert s == s[..lo] + s[lo..lo + n] + s[lo + n..];
    s[..lo] + RotateLeft(s[lo..lo + n], left) + s[lo + n..]
  }

  /**
   * Where in a window of n whose two parts (split at `left`) are each
   * reversed the element at position q comes from.
   */
  function HalvesSource(n: nat, left: nat, q: nat): (r: nat)
    requires left <= n && q < n
    ensures r < n && (q < left <==> r < left)
  {
    if q < left then left - 1 - q else n + left - 1 - q
  }

  /**
   * Where the element at position q of the window comes from once the
   * window with its two parts reversed is reversed as a whole: the same
   * place as in the rotation.
   */
  function RotatedSource(n: nat, left: nat, q: nat): (r: nat)
    requires left <= n && q < n
    ensures r == if q < n - left then left + q else q + left - n
  {
    HalvesSource(n, left, n - 1 - q)
  }

  /** The rotated window read element by element. */
  lemma RotatedAt(s: seq<int>, lo: nat, n: nat, left: nat, p: nat)
    requires left <= n && lo + n <= |s| && p < |s|
    ensures Rotated(s, lo, n, left)[p] == if lo <= p < lo + n then s[lo + RotatedSource(n, left, p - lo)] else s[p]
  {
    var w := s[lo..lo + n];
    if lo <= p < lo + n {
      var q := p - lo;
      assert Rotated(s, lo, n, left)[p] == RotateLeft(w, left)[q];
      if q < n - left {
        assert RotateLeft(w, left)[q] == w[left..][q];
      } else {
        assert RotateLeft(w, left)[q] == w[..left][q - (n - left)];
      }
    } else if p >= lo + n {
      assert Rotated(s, lo, n, left)[p] == s[lo + n..][p - lo - n];
    }
  }

  /**
   * How far a rotation in progress has got, as cut points of the window:
   * positions below pa, from pd on and in [x, y) already hold the rotation;
   * positions in [pb, pc) hold the window with both parts reversed; the
   * rest still hold the original.
   */
  datatype Cuts = Cuts(pa: nat, pb: nat, pc: nat, pd: nat, x: nat, y: nat)

  function WindowAt(s: seq<int>, lo: nat, n: nat, left: nat, c: Cuts, p: nat): int
    requires left <= n && lo + n <= |s| && p < |s|
  {
    if lo <= p < lo + n && (p - lo < c.pa || c.pd <= p - lo || c.x <= p - lo < c.y) then
      s[lo + RotatedSource(n, left, p - lo)]
    else if lo <= p < lo + n && c.pb <= p - lo < c.pc then
      s[lo + HalvesSource(n, left, p - lo)]
    else
      s[p]
  }

  /** The array d is the original s with the window rotated as far as the cuts say. */
  ghost predicate WindowState(d: seq<int>, s: seq<int>, lo: nat, n: nat, left: nat, c: Cuts)
  {
    |d| == |s| && left <= n && lo + n <= |s|
    && forall p :: 0 <= p < |d| ==> d[p] == WindowAt(s, lo, n, left, c, p)
  }

  /** Writing the rotation over the one stretch [x, y) of the window not yet finished finishes it. */
  lemma WindowFillRotated(d: seq<int>, d': seq<int>, s: seq<int>, lo: nat, n: nat, left: nat, c: Cuts, x: nat, y: nat)
    requires WindowState(d, s, lo, n, left, c) && x <= y <= n && |d'| == |d|
    requires forall q :: 0 <= q < x || y <= q < n ==> Finished(c, q)
    requires forall p :: 0 <= p < lo + x || lo + y <= p < |d| ==> d'[p] == d[p]
    requires forall p :: lo + x <= p < lo + y ==> d'[p] == s[lo + RotatedSource(n, left, p - lo)]
    ensures d' == Rotated(s, lo, n, left)
  {
    forall p | 0 <= p < |d|
      ensures d'[p] == Rotated(s, lo, n, left)[p]
    {
      RotatedAt(s, lo, n, left, p);
      if lo <= p < lo + x || lo + y <= p < lo + n {
        assert Finished(c, p - lo);
      }
    }
  }

  /** Position q of the window holds its rotated element. */
  predicate Finished(c: Cuts, q: nat)
  {
    q < c.pa || c.pd <= q || c.x <= q < c.y
  }

  /** Once the rotation is written over the whole window, the array is the rotated one. */
  lemma WindowRotated(d: seq<int>, s: seq<int>, lo: nat, n: nat, left: nat, c: Cuts)
    requires WindowState(d, s, lo, n, left, c)
    requires forall q :: 0 <= q < n ==> Finished(c, q)
    ensures d == Rotated(s, lo, n, left)
  {
    forall p | 0 <= p < |d|
      ensures d[p] == Rotated(s, lo, n, left)[p]
    {
      RotatedAt(s, lo, n, left, p);
      if lo <= p < lo + n {
        assert Finished(c, p - lo);
      }
    }
  }

  /**
   * trinity_rotation: rotates a[lo..lo + nmemb) left by `left` places.
   * swap holds swapSize usable elements; its first element is the
   * temporary of the cycles even when swapSize is too small for a part.
   */
  method TrinityRotation(a: array<int>, lo: nat, swap: array<int>, swapSize: nat, nmemb: nat, left: nat)
    requires a != swap && 1 <= swap.Length && swapSize <= swap.Length
    requires left <= nmemb && lo + nmemb <= a.Length
    modifies a, swap
    ensures a[..] == Rotated(old(a[..]), lo, nmemb, left)
  {
    var right := nmemb - left;
    if left < right {
      if left <= swapSize {
        RotateThroughSwapLeft(a, lo, swap, nmemb, left);
      } else {
        var bridge := right - left;
        if bridge <= swapSize && bridge > 3 {
          RotateBridgeLeft(a, lo, swap, nmemb, left);
        } else {
          RotateFusedLeft(a, lo, swap, nmemb, left);
        }
      }
    } else if right < left {
      if right <= swapSize {
        RotateThroughSwapRight(a, lo, swap, nmemb, left);
      } else {
        var bridge := left - right;
        if bridge <= swapSize && bridge > 3 {
          RotateBridgeRight(a, lo, swap, nmemb, left);
        } else {
          RotateFusedRight(a, lo, swap, nmemb, left);
        }
      }
    } else {
      RotateEqual(a, lo, swap, nmemb, left);
    }
  }

  /** The left part fits in swap: copy it out, move the right part down, copy it back on top. */
  method RotateThroughSwapLeft(a: array<int>, lo: nat, swap: array<int>, nmemb: nat, left: nat)
    requires a != swap && left <= nmemb && lo + nmemb <= a.Length && left <= swap.Length
    modifies a, swap
    ensures a[..] == Rotated(old(a[..]), lo, nmemb, left)
  {
    ghost var s := a[..];
    var right := nmemb - left;
    MovesLeft(a, lo, swap, left, right);
    RotateByMoves(s, lo, nmemb, left, right);
  }

  /** The three moves of the left-part case, as sequences. */
  method MovesLeft(a: array<int>, lo: nat, swap: array<int>, left: nat, right: nat)
    requires a != swap && lo + left + right <= a.Length && left <= swap.Length
    modifies a, swap
    ensures var s := old(a[..]);
      a[..] == Overwrite(Overwrite(s, lo, s[lo + left..lo + left + right]), lo + right, s[lo..lo + left])
  {
    ghost var s := a[..];
    CopyToSwap(a, lo, swap, left);
    ghost var w := swap[..left];
    assert a[..] == s;
    assert a[lo + left..lo + left + right] == s[lo + left..lo + left + right];
    MoveRange(a, lo + left, lo, right);
    ghost var m := a[..];
    assert m == Overwrite(s, lo, s[lo + left..lo + left + right]);
    assert swap[..left] == w == s[lo..lo + left];
    CopyFromSwap(a, lo + right, swap, left);
    assert a[..] == Overwrite(m, lo + right, w);
  }

  /** The right part fits in swap: copy it out, move the left part up, copy it back below. */
  method RotateThroughSwapRight(a: array<int>, lo: nat, swap: array<int>, nmemb: nat, left: nat)
    requires a != swap && left <= nmemb && lo + nmemb <= a.Length && nmemb - left <= swap.Length
    modifies a, swap
    ensures a[..] == Rotated(old(a[..]), lo, nmemb, left)
  {
    ghost var s := a[..];
    var right := nmemb - left;
    MovesRight(a, lo, swap, left, right);
    RotateByMoves(s, lo, nmemb, left, right);
  }

  /** The three moves of the right-part case, as sequences. */
  method MovesRight(a: array<int>, lo: nat, swap: array<int>, left: nat, right: nat)
    requires a != swap && lo + left + right <= a.Length && right <= swap.Length
    modifies a, swap
    ensures var s := old(a[..]);
      a[..] == Overwrite(Overwrite(s, lo + right, s[lo..lo + left]), lo, s[lo + left..lo + left + right])
  {
    ghost var s := a[..];
    CopyToSwap(a, lo + left, swap, right);
    ghost var w := swap[..right];
    assert a[..] == s;
    assert a[lo..lo + left] == s[lo..lo + left];
    MoveRange(a, lo, lo + right, left);
    ghost var m := a[..];
    assert m == Overwrite(s, lo + right, s[lo..lo + left]);
    assert swap[..right] == w == s[lo + left..lo + left + right];
    CopyFromSwap(a, lo, swap, right);
    assert a[..] == Overwrite(m, lo, w);
  }

  /** s with w written over it from position at. */
  function Overwrite(s: seq<int>, at: nat, w: seq<int>): (r: seq<int>)
    requires at + |w| <= |s|
    ensures |r| == |s|
  {
    s[..at] + w + s[at + |w|..]
  }

  /** Position p of an overwritten sequence. */
  lemma OverwriteAt(s: seq<int>, at: nat, w: seq<int>, p: nat)
    requires at + |w| <= |s| && p < |s|
    ensures Overwrite(s, at, w)[p] == if at <= p < at + |w| then w[p - at] else s[p]
  {
  }

  /** `memcpy(swap, array + from, count)`. */
  method CopyToSwap(a: array<int>, from: nat, swap: array<int>, count: nat)
    requires a != swap && from + count <= a.Length && count <= swap.Length
    modifies swap
    ensures swap[..count] == a[from..from + count]
  {
    forall k | 0 <= k < count {
      swap[k] := a[from + k];
    }
  }

  /** `memmove(array + to, array + from, count)`: every element is read before any is written. */
  method MoveRange(a: array<int>, from: nat, to: nat, count: nat)
    requires from + count <= a.Length && to + count <= a.Length
    modifies a
    ensures a[..] == Overwrite(old(a[..]), to, old(a[from..from + count]))
  {
    ghost var s, w := a[..], a[from..from + count];
    forall k | 0 <= k < count {
      a[to + k] := a[from + k];
    }
    forall p | 0 <= p < a.Length
      ensures a[p] == Overwrite(s, to, w)[p]
    {
      OverwriteAt(s, to, w, p);
    }
  }

  /**
   * Both ways of rotating through swap: moving the right part down over
   * the left and putting the left part back on top, or moving the left
   * part up over the right and putting the right part back below.
   */
  lemma RotateByMoves(s: seq<int>, lo: nat, n: nat, left: nat, right: nat)
    requires left <= n && lo + n <= |s| && right == n - left
    ensures Overwrite(Overwrite(s, lo, s[lo + left..lo + left + right]), lo + right, s[lo..lo + left]) == Rotated(s, lo, n, left)
    ensures Overwrite(Overwrite(s, lo + right, s[lo..lo + left]), lo, s[lo + left..lo + left + right]) == Rotated(s, lo, n, left)
  {
    var r := Rotated(s, lo, n, left);
    var w1, w2 := s[lo + left..lo + left + right], s[lo..lo + left];
    var d1 := Overwrite(Overwrite(s, lo, w1), lo + right, w2);
    var d2 := Overwrite(Overwrite(s, lo + right, w2), lo, w1);
    forall p | 0 <= p < |s|
      ensures d1[p] == r[p] && d2[p] == r[p]
    {
      RotatedAt(s, lo, n, left, p);
      OverwriteAt(s, lo, w1, p);
      OverwriteAt(Overwrite(s, lo, w1), lo + right, w2, p);
      OverwriteAt(s, lo + right, w2, p);
      OverwriteAt(Overwrite(s, lo + right, w2), lo, w1, p);
    }
  }

  /** The right part is longer by a bridge that fits in swap: the bridge goes out, the left part crosses it from the top, the bridge comes back below. */
  method RotateBridgeLeft(a: array<int>, lo: nat, swap: array<int>, nmemb: nat, left: nat)
    requires a != swap && left < nmemb - left && lo + nmemb <= a.Length && nmemb - 2 * left <= swap.Length
    modifies a, swap
    ensures a[..] == Rotated(old(a[..]), lo, nmemb, left)
  {
    ghost var s := a[..];
    var right := nmemb - left;
    var bridge := right - left;
    CopyToSwap(a, lo + left, swap, bridge);
    assert a[..] == s && swap[..bridge] == s[lo + left..lo + left + bridge];
    BridgeLeftCross(a, lo, nmemb, left, s);
    BridgeLeftFinish(a, lo, swap, nmemb, left, s);
  }

  /** `memcpy(array, swap, bridge)`: the bridge goes back at the bottom, which finishes the rotation. */
  method BridgeLeftFinish(a: array<int>, lo: nat, swap: array<int>, nmemb: nat, left: nat, ghost s: seq<int>)
    requires a != swap && left < nmemb - left && lo + nmemb <= a.Length && nmemb - 2 * left <= swap.Length
    requires var right := nmemb - left; var bridge := right - left;
      WindowState(a[..], s, lo, nmemb, left, Cuts(0, 0, 0, right, bridge, right))
      && swap[..bridge] == s[lo + left..lo + left + bridge]
    modifies a
    ensures a[..] == Rotated(s, lo, nmemb, left)
  {
    var right := nmemb - left;
    var bridge := right - left;
    ghost var d := a[..];
    CopyFromSwap(a, lo, swap, bridge);
    forall p | lo <= p < lo + bridge
      ensures a[..][p] == s[lo + RotatedSource(nmemb, left, p - lo)]
    {
      assert a[p] == swap[..bridge][p - lo] == s[p + left];
    }
    WindowFillRotated(d, a[..], s, lo, nmemb, left, Cuts(0, 0, 0, right, bridge, right), 0, bridge);
  }

  /** The crossing loop: the left part moves to the top while the right part's last elements move below the bridge. */
  method BridgeLeftCross(a: array<int>, lo: nat, nmemb: nat, left: nat, ghost s: seq<int>)
    requires left < nmemb - left && lo + nmemb <= a.Length && a[..] == s
    modifies a
    ensures var right := nmemb - left;
      WindowState(a[..], s, lo, nmemb, left, Cuts(0, 0, 0, right, right - left, right))
  {
    var right := nmemb - left;
    var bridge := right - left;
    var ptb, ptc, ptd := left, right, nmemb;
    var count: nat := left;
    while count > 0
      invariant ptb == count && ptc == bridge + count && ptd == right + count
      invariant WindowState(a[..], s, lo, nmemb, left, Cuts(0, 0, 0, ptd, ptc, right))
    {
      BridgeLeftStep(a, lo, nmemb, left, ptb, s);
      ptb, ptc, ptd, count := ptb - 1, ptc - 1, ptd - 1, count - 1;
    }
  }

  /** `*--ptc = *--ptd; *ptd = *--ptb;` */
  method BridgeLeftStep(a: array<int>, lo: nat, nmemb: nat, left: nat, ptb: nat, ghost s: seq<int>)
    requires left < nmemb - left && 0 < ptb <= left
    requires WindowState(a[..], s, lo, nmemb, left, Cuts(0, 0, 0, nmemb - left + ptb, nmemb - 2 * left + ptb, nmemb - left))
    modifies a
    ensures WindowState(a[..], s, lo, nmemb, left, Cuts(0, 0, 0, nmemb - left + ptb - 1, nmemb - 2 * left + ptb - 1, nmemb - left))
  {
    ghost var d := a[..];
    var ptc, ptd := nmemb - 2 * left + ptb, nmemb - left + ptb;
    a[lo + ptc - 1] := a[lo + ptd - 1];
    a[lo + ptd - 1] := a[lo + ptb - 1];
    assert a[..] == d[lo + ptc - 1 := d[lo + ptd - 1]][lo + ptd - 1 := d[lo + ptb - 1]];
    BridgeLeftNext(d, s, lo, nmemb, left, ptb);
  }

  lemma BridgeLeftNext(d: seq<int>, s: seq<int>, lo: nat, n: nat, left: nat, ptb: nat)
    requires left < n - left && 0 < ptb <= left
    requires WindowState(d, s, lo, n, left, Cuts(0, 0, 0, n - left + ptb, n - 2 * left + ptb, n - left))
    ensures var ptc, ptd := n - 2 * left + ptb, n - left + ptb;
      WindowState(d[lo + ptc - 1 := d[lo + ptd - 1]][lo + ptd - 1 := d[lo + ptb - 1]], s, lo, n, left,
                  Cuts(0, 0, 0, ptd - 1, ptc - 1, n - left))
  {
    var ptc, ptd := n - 2 * left + ptb, n - left + ptb;
    assert d[lo + ptd - 1] == s[lo + ptd - 1] && d[lo + ptb - 1] == s[lo + ptb - 1];
  }

  /** The left part is longer by a bridge that fits in swap: the bridge goes out, the right part crosses it from the bottom, the bridge comes back on top. */
  method RotateBridgeRight(a: array<int>, lo: nat, swap: array<int>, nmemb: nat, left: nat)
    requires a != swap && nmemb - left < left <= nmemb && lo + nmemb <= a.Length && 2 * left - nmemb <= swap.Length
    modifies a, swap
    ensures a[..] == Rotated(old(a[..]), lo, nmemb, left)
  {
    ghost var s := a[..];
    var right := nmemb - left;
    var bridge := left - right;
    forall k | 0 <= k < bridge {
      swap[k] := a[lo + right + k];
    }
    assert a[..] == s && swap[..bridge] == s[lo + right..lo + left];
    BridgeRightCross(a, lo, nmemb, left, s);
    BridgeRightFinish(a, lo, swap, nmemb, left, s);
  }

  /** `memcpy(ptd - bridge, swap, bridge)`: the bridge goes back on top, which finishes the rotation. */
  method BridgeRightFinish(a: array<int>, lo: nat, swap: array<int>, nmemb: nat, left: nat, ghost s: seq<int>)
    requires a != swap && nmemb - left < left <= nmemb && lo + nmemb <= a.Length && 2 * left - nmemb <= swap.Length
    requires var right := nmemb - left;
      WindowState(a[..], s, lo, nmemb, left, Cuts(right, 0, 0, nmemb, right, 2 * right))
      && swap[..left - right] == s[lo + right..lo + left]
    modifies a
    ensures a[..] == Rotated(s, lo, nmemb, left)
  {
    var right := nmemb - left;
    var bridge := left - right;
    ghost var d := a[..];
    CopyFromSwap(a, lo + nmemb - bridge, swap, bridge);
    forall p | lo + 2 * right <= p < lo + nmemb
      ensures a[..][p] == s[lo + RotatedSource(nmemb, left, p - lo)]
    {
      assert a[p] == swap[..bridge][p - lo - 2 * right];
    }
    WindowFillRotated(d, a[..], s, lo, nmemb, left, Cuts(right, 0, 0, nmemb, right, 2 * right), 2 * right, nmemb);
  }

  /** The crossing loop: the right part moves to the bottom while the left part's first elements move above the bridge. */
  method BridgeRightCross(a: array<int>, lo: nat, nmemb: nat, left: nat, ghost s: seq<int>)
    requires nmemb - left < left <= nmemb && lo + nmemb <= a.Length && a[..] == s
    modifies a
    ensures var right := nmemb - left;
      WindowState(a[..], s, lo, nmemb, left, Cuts(right, 0, 0, nmemb, right, 2 * right))
  {
    var right := nmemb - left;
    var pta: nat, ptb: nat, ptc: nat := 0, left, right;
    var count: nat := right;
    while count > 0
      invariant pta + count == right && ptb == left + pta && ptc == right + pta
      invariant WindowState(a[..], s, lo, nmemb, left, Cuts(pta, 0, 0, nmemb, right, ptc))
    {
      BridgeRightStep(a, lo, nmemb, left, pta, s);
      pta, ptb, ptc, count := pta + 1, ptb + 1, ptc + 1, count - 1;
    }
  }

  /** `*ptc++ = *pta; *pta++ = *ptb++;` */
  method BridgeRightStep(a: array<int>, lo: nat, nmemb: nat, left: nat, pta: nat, ghost s: seq<int>)
    requires nmemb - left < left <= nmemb && pta < nmemb - left
    requires WindowState(a[..], s, lo, nmemb, left, Cuts(pta, 0, 0, nmemb, nmemb - left, nmemb - left + pta))
    modifies a
    ensures WindowState(a[..], s, lo, nmemb, left, Cuts(pta + 1, 0, 0, nmemb, nmemb - left, nmemb - left + pta + 1))
  {
    ghost var d := a[..];
    var ptb, ptc := left + pta, nmemb - left + pta;
    a[lo + ptc] := a[lo + pta];
    a[lo + pta] := a[lo + ptb];
    assert a[..] == d[lo + ptc := d[lo + pta]][lo + pta := d[lo + ptb]];
    BridgeRightNext(d, s, lo, nmemb, left, pta);
  }

  lemma BridgeRightNext(d: seq<int>, s: seq<int>, lo: nat, n: nat, left: nat, pta: nat)
    requires n - left < left <= n && pta < n - left
    requires WindowState(d, s, lo, n, left, Cuts(pta, 0, 0, n, n - left, n - left + pta))
    ensures var ptb, ptc := left + pta, n - left + pta;
      WindowState(d[lo + ptc := d[lo + pta]][lo + pta := d[lo + ptb]], s, lo, n, left,
                  Cuts(pta + 1, 0, 0, n, n - left, ptc + 1))
  {
    assert d[lo + pta] == s[lo + pta] && d[lo + left + pta] == s[lo + left + pta];
  }

  /** Equal parts: exchange them element by element through swap[0]. */
  method RotateEqual(a: array<int>, lo: nat, swap: array<int>, nmemb: nat, left: nat)
    requires a != swap && 1 <= swap.Length && nmemb == 2 * left && lo + nmemb <= a.Length
    modifies a, swap
    ensures a[..] == Rotated(old(a[..]), lo, nmemb, left)
  {
    ghost var s := a[..];
    var pta: nat, ptb: nat := 0, left;
    var count: nat := left;
    while count > 0
      invariant pta + count == left && ptb == left + pta
      invariant WindowState(a[..], s, lo, nmemb, left, Cuts(pta, 0, 0, nmemb, left, ptb))
    {
      EqualStep(a, lo, swap, nmemb, left, pta, s);
      pta, ptb, count := pta + 1, ptb + 1, count - 1;
    }
    WindowRotated(a[..], s, lo, nmemb, left, Cuts(pta, 0, 0, nmemb, left, ptb));
  }

  /** `*swap = *pta; *pta++ = *ptb; *ptb++ = *swap;` */
  method EqualStep(a: array<int>, lo: nat, swap: array<int>, nmemb: nat, left: nat, pta: nat, ghost s: seq<int>)
    requires a != swap && 1 <= swap.Length && nmemb == 2 * left && pta < left
    requires WindowState(a[..], s, lo, nmemb, left, Cuts(pta, 0, 0, nmemb, left, left + pta))
    modifies a, swap
    ensures WindowState(a[..], s, lo, nmemb, left, Cuts(pta + 1, 0, 0, nmemb, left, left + pta + 1))
  {
    ghost var d := a[..];
    var ptb := left + pta;
    swap[0] := a[lo + pta];
    a[lo + pta] := a[lo + ptb];
    a[lo + ptb] := swap[0];
    assert a[..] == d[lo + pta := d[lo + ptb]][lo + ptb := d[lo + pta]];
    EqualNext(d, s, lo, nmemb, left, pta);
  }

  lemma EqualNext(d: seq<int>, s: seq<int>, lo: nat, n: nat, left: nat, pta: nat)
    requires n == 2 * left && pta < left
    requires WindowState(d, s, lo, n, left, Cuts(pta, 0, 0, n, left, left + pta))
    ensures var ptb := left + pta;
      WindowState(d[lo + pta := d[lo + ptb]][lo + ptb := d[lo + pta]], s, lo, n, left,
                  Cuts(pta + 1, 0, 0, n, left, ptb + 1))
  {
    assert d[lo + pta] == s[lo + pta] && d[lo + left + pta] == s[lo + left + pta];
  }

  /**
   * No swap room and a longer right part: the three reversals fused. The
   * first loop moves four elements around a cycle, reversing both parts at
   * their outer ends and placing the final elements at the window's ends;
   * the second finishes reversing the right part while placing; the third
   * reverses what is left in the middle.
   */
  method RotateFusedLeft(a: array<int>, lo: nat, swap: array<int>, nmemb: nat, left: nat)
    requires a != swap && 1 <= swap.Length && 0 < left < nmemb - left && lo + nmemb <= a.Length
    modifies a, swap
    ensures a[..] == Rotated(old(a[..]), lo, nmemb, left)
  {
    ghost var s := a[..];
    var pta := CycleFourLoop(a, lo, swap, nmemb, left, left / 2, s);
    AbsorbLeft(a[..], s, lo, nmemb, left, Cuts(pta, left - pta, left + pta, nmemb - pta, 0, 0));
    var gb := pta;
    pta := CycleThreeUpLoop(a, lo, swap, nmemb, left, gb, s);
    ReverseMiddle(a, lo, swap, nmemb, left, pta, gb, s);
  }

  /**
   * No swap room and a longer left part: as for a longer right part, but
   * the second loop finishes reversing the left part.
   */
  method RotateFusedRight(a: array<int>, lo: nat, swap: array<int>, nmemb: nat, left: nat)
    requires a != swap && 1 <= swap.Length && 0 < nmemb - left < left <= nmemb && lo + nmemb <= a.Length
    modifies a, swap
    ensures a[..] == Rotated(old(a[..]), lo, nmemb, left)
  {
    ghost var s := a[..];
    var right := nmemb - left;
    var pta := CycleFourLoop(a, lo, swap, nmemb, left, right / 2, s);
    AbsorbRight(a[..], s, lo, nmemb, left, Cuts(pta, left - pta, left + pta, nmemb - pta, 0, 0));
    var gc := nmemb - pta;
    pta := CycleThreeDownLoop(a, lo, swap, nmemb, left, gc, s);
    ReverseMiddle(a, lo, swap, nmemb, left, pta, pta, s);
  }

  /** The first loop of the fused rotation: `rounds` four-element cycles from the outer ends inwards. */
  method CycleFourLoop(a: array<int>, lo: nat, swap: array<int>, nmemb: nat, left: nat, rounds: nat, ghost s: seq<int>)
    returns (pta: nat)
    requires a != swap && 1 <= swap.Length && left <= nmemb && 2 * rounds <= left && 2 * rounds <= nmemb - left
    requires WindowState(a[..], s, lo, nmemb, left, Cuts(0, left, left, nmemb, 0, 0))
    modifies a, swap
    ensures pta == rounds
    ensures WindowState(a[..], s, lo, nmemb, left, Cuts(pta, left - pta, left + pta, nmemb - pta, 0, 0))
  {
    pta := 0;
    var ptb: nat, ptc: nat, ptd: nat := left, left, nmemb;
    var bridge: nat := rounds;
    while bridge > 0
      invariant pta + bridge == rounds && pta + ptb == left && ptc == left + pta && ptd + pta == nmemb
      invariant WindowState(a[..], s, lo, nmemb, left, Cuts(pta, ptb, ptc, ptd, 0, 0))
    {
      CycleFour(a, lo, swap, nmemb, left, pta, s);
      pta, ptb, ptc, ptd, bridge := pta + 1, ptb - 1, ptc + 1, ptd - 1, bridge - 1;
    }
  }

  /** The second loop for a longer right part: three-element cycles finish reversing the right part. */
  method CycleThreeUpLoop(a: array<int>, lo: nat, swap: array<int>, nmemb: nat, left: nat, gb: nat, ghost s: seq<int>)
    returns (pta: nat)
    requires a != swap && 1 <= swap.Length && 0 < left <= nmemb && left + gb <= nmemb - gb
    requires WindowState(a[..], s, lo, nmemb, left, Cuts(gb, gb, left + gb, nmemb - gb, 0, 0))
    modifies a, swap
    ensures gb <= pta <= nmemb - pta
    ensures WindowState(a[..], s, lo, nmemb, left, Cuts(pta, gb, nmemb - pta, nmemb - pta, 0, 0))
  {
    pta := gb;
    var ptc: nat, ptd: nat := left + gb, nmemb - gb;
    var bridge: nat := (ptd - ptc) / 2;
    while bridge > 0
      invariant gb <= pta && ptc == left + pta && ptd + pta == nmemb && ptc <= ptd && bridge == (ptd - ptc) / 2
      invariant WindowState(a[..], s, lo, nmemb, left, Cuts(pta, gb, ptc, ptd, 0, 0))
    {
      CycleThreeUp(a, lo, swap, nmemb, left, gb, pta, s);
      pta, ptc, ptd, bridge := pta + 1, ptc + 1, ptd - 1, bridge - 1;
    }
    AbsorbRight(a[..], s, lo, nmemb, left, Cuts(pta, gb, ptc, ptd, 0, 0));
  }

  /** The second loop for a longer left part: three-element cycles finish reversing the left part. */
  method CycleThreeDownLoop(a: array<int>, lo: nat, swap: array<int>, nmemb: nat, left: nat, gc: nat, ghost s: seq<int>)
    returns (pta: nat)
    requires a != swap && 1 <= swap.Length && left < nmemb && gc <= nmemb && nmemb - gc <= left - (nmemb - gc)
    requires WindowState(a[..], s, lo, nmemb, left, Cuts(nmemb - gc, left - (nmemb - gc), gc, gc, 0, 0))
    modifies a, swap
    ensures pta <= nmemb - pta
    ensures WindowState(a[..], s, lo, nmemb, left, Cuts(pta, pta, nmemb - pta, nmemb - pta, 0, 0))
  {
    pta := nmemb - gc;
    var ptb: nat, ptd: nat := left - pta, gc;
    var bridge: nat := (ptb - pta) / 2;
    while bridge > 0
      invariant ptd <= gc && pta + ptb == left && ptd + pta == nmemb && pta <= ptb && bridge == (ptb - pta) / 2
      invariant WindowState(a[..], s, lo, nmemb, left, Cuts(pta, ptb, gc, ptd, 0, 0))
    {
      CycleThreeDown(a, lo, swap, nmemb, left, gc, pta, s);
      pta, ptb, ptd, bridge := pta + 1, ptb - 1, ptd - 1, bridge - 1;
    }
    AbsorbLeft(a[..], s, lo, nmemb, left, Cuts(pta, ptb, gc, ptd, 0, 0));
  }

  /** The third loop: exchange the two ends of the middle until they meet. */
  method ReverseMiddle(a: array<int>, lo: nat, swap: array<int>, nmemb: nat, left: nat, pta0: nat, ghost gb: nat, ghost s: seq<int>)
    requires a != swap && 1 <= swap.Length && gb <= pta0 <= nmemb - pta0
    requires WindowState(a[..], s, lo, nmemb, left, Cuts(pta0, gb, nmemb - pta0, nmemb - pta0, 0, 0))
    modifies a, swap
    ensures a[..] == Rotated(s, lo, nmemb, left)
  {
    var pta: nat, ptd: nat := pta0, nmemb - pta0;
    ghost var gc := ptd;
    var bridge: nat := (ptd - pta) / 2;
    while bridge > 0
      invariant gb <= pta && ptd <= gc && pta + ptd == nmemb && bridge == (ptd - pta) / 2
      invariant WindowState(a[..], s, lo, nmemb, left, Cuts(pta, gb, gc, ptd, 0, 0))
    {
      SwapEnds(a, lo, swap, nmemb, left, gb, gc, pta, s);
      pta, ptd, bridge := pta + 1, ptd - 1, bridge - 1;
    }
    MiddleDone(a[..], s, lo, nmemb, left, Cuts(pta, gb, gc, ptd, 0, 0));
  }

  /** `*swap = *--ptb; *ptb = *pta; *pta++ = *ptc; *ptc++ = *--ptd; *ptd = *swap;` */
  method CycleFour(a: array<int>, lo: nat, swap: array<int>, nmemb: nat, left: nat, pta: nat, ghost s: seq<int>)
    requires a != swap && 1 <= swap.Length && left <= nmemb
    requires pta + 2 <= left - pta && pta + 2 <= nmemb - left - pta
    requires WindowState(a[..], s, lo, nmemb, left, Cuts(pta, left - pta, left + pta, nmemb - pta, 0, 0))
    modifies a, swap
    ensures WindowState(a[..], s, lo, nmemb, left, Cuts(pta + 1, left - pta - 1, left + pta + 1, nmemb - pta - 1, 0, 0))
  {
    ghost var d := a[..];
    var ptb, ptc, ptd := left - pta, left + pta, nmemb - pta;
    swap[0] := a[lo + ptb - 1];
    a[lo + ptb - 1] := a[lo + pta];
    a[lo + pta] := a[lo + ptc];
    a[lo + ptc] := a[lo + ptd - 1];
    a[lo + ptd - 1] := swap[0];
    assert a[..] == d[lo + ptb - 1 := d[lo + pta]][lo + pta := d[lo + ptc]][lo + ptc := d[lo + ptd - 1]][lo + ptd - 1 := d[lo + ptb - 1]];
    CycleFourNext(d, s, lo, nmemb, left, pta);
  }

  lemma CycleFourNext(d: seq<int>, s: seq<int>, lo: nat, n: nat, left: nat, pta: nat)
    requires left <= n && pta + 2 <= left - pta && pta + 2 <= n - left - pta
    requires WindowState(d, s, lo, n, left, Cuts(pta, left - pta, left + pta, n - pta, 0, 0))
    ensures var ptb, ptc, ptd := left - pta, left + pta, n - pta;
      WindowState(d[lo + ptb - 1 := d[lo + pta]][lo + pta := d[lo + ptc]][lo + ptc := d[lo + ptd - 1]][lo + ptd - 1 := d[lo + ptb - 1]],
                  s, lo, n, left, Cuts(pta + 1, ptb - 1, ptc + 1, ptd - 1, 0, 0))
  {
    var ptb, ptc, ptd := left - pta, left + pta, n - pta;
    assert d[lo + pta] == s[lo + pta] && d[lo + ptc] == s[lo + ptc];
    assert d[lo + ptd - 1] == s[lo + ptd - 1] && d[lo + ptb - 1] == s[lo + ptb - 1];
  }

  /** `*swap = *ptc; *ptc++ = *--ptd; *ptd = *pta; *pta++ = *swap;` */
  method CycleThreeUp(a: array<int>, lo: nat, swap: array<int>, nmemb: nat, left: nat, ghost gb: nat, pta: nat, ghost s: seq<int>)
    requires a != swap && 1 <= swap.Length && 0 < left <= nmemb && gb <= pta
    requires left + pta + 2 <= nmemb - pta
    requires WindowState(a[..], s, lo, nmemb, left, Cuts(pta, gb, left + pta, nmemb - pta, 0, 0))
    modifies a, swap
    ensures WindowState(a[..], s, lo, nmemb, left, Cuts(pta + 1, gb, left + pta + 1, nmemb - pta - 1, 0, 0))
  {
    ghost var d := a[..];
    var ptc, ptd := left + pta, nmemb - pta;
    swap[0] := a[lo + ptc];
    a[lo + ptc] := a[lo + ptd - 1];
    a[lo + ptd - 1] := a[lo + pta];
    a[lo + pta] := swap[0];
    assert a[..] == d[lo + ptc := d[lo + ptd - 1]][lo + ptd - 1 := d[lo + pta]][lo + pta := d[lo + ptc]];
    CycleThreeUpNext(d, s, lo, nmemb, left, gb, pta);
  }

  lemma CycleThreeUpNext(d: seq<int>, s: seq<int>, lo: nat, n: nat, left: nat, gb: nat, pta: nat)
    requires 0 < left <= n && gb <= pta && left + pta + 2 <= n - pta
    requires WindowState(d, s, lo, n, left, Cuts(pta, gb, left + pta, n - pta, 0, 0))
    ensures var ptc, ptd := left + pta, n - pta;
      WindowState(d[lo + ptc := d[lo + ptd - 1]][lo + ptd - 1 := d[lo + pta]][lo + pta := d[lo + ptc]],
                  s, lo, n, left, Cuts(pta + 1, gb, ptc + 1, ptd - 1, 0, 0))
  {
    var ptc, ptd := left + pta, n - pta;
    assert d[lo + pta] == s[lo + HalvesSource(n, left, pta)];
    assert d[lo + ptc] == s[lo + ptc] && d[lo + ptd - 1] == s[lo + ptd - 1];
  }

  /** `*swap = *--ptb; *ptb = *pta; *pta++ = *--ptd; *ptd = *swap;` */
  method CycleThreeDown(a: array<int>, lo: nat, swap: array<int>, nmemb: nat, left: nat, ghost gc: nat, pta: nat, ghost s: seq<int>)
    requires a != swap && 1 <= swap.Length && left <= nmemb && nmemb - pta <= gc
    requires pta + 2 <= left - pta && left - pta < nmemb - pta
    requires WindowState(a[..], s, lo, nmemb, left, Cuts(pta, left - pta, gc, nmemb - pta, 0, 0))
    modifies a, swap
    ensures WindowState(a[..], s, lo, nmemb, left, Cuts(pta + 1, left - pta - 1, gc, nmemb - pta - 1, 0, 0))
  {
    ghost var d := a[..];
    var ptb, ptd := left - pta, nmemb - pta;
    swap[0] := a[lo + ptb - 1];
    a[lo + ptb - 1] := a[lo + pta];
    a[lo + pta] := a[lo + ptd - 1];
    a[lo + ptd - 1] := swap[0];
    assert a[..] == d[lo + ptb - 1 := d[lo + pta]][lo + pta := d[lo + ptd - 1]][lo + ptd - 1 := d[lo + ptb - 1]];
    CycleThreeDownNext(d, s, lo, nmemb, left, gc, pta);
  }

  lemma CycleThreeDownNext(d: seq<int>, s: seq<int>, lo: nat, n: nat, left: nat, gc: nat, pta: nat)
    requires left <= n && n - pta <= gc && pta + 2 <= left - pta && left - pta < n - pta
    requires WindowState(d, s, lo, n, left, Cuts(pta, left - pta, gc, n - pta, 0, 0))
    ensures var ptb, ptd := left - pta, n - pta;
      WindowState(d[lo + ptb - 1 := d[lo + pta]][lo + pta := d[lo + ptd - 1]][lo + ptd - 1 := d[lo + ptb - 1]],
                  s, lo, n, left, Cuts(pta + 1, ptb - 1, gc, ptd - 1, 0, 0))
  {
    var ptb, ptd := left - pta, n - pta;
    assert d[lo + ptd - 1] == s[lo + HalvesSource(n, left, ptd - 1)];
    assert d[lo + pta] == s[lo + pta] && d[lo + ptb - 1] == s[lo + ptb - 1];
  }

  /** `*swap = *pta; *pta++ = *--ptd; *ptd = *swap;` */
  method SwapEnds(a: array<int>, lo: nat, swap: array<int>, nmemb: nat, left: nat, ghost gb: nat, ghost gc: nat, pta: nat, ghost s: seq<int>)
    requires a != swap && 1 <= swap.Length && left <= nmemb && gb <= pta && pta + 2 <= nmemb - pta <= gc
    requires WindowState(a[..], s, lo, nmemb, left, Cuts(pta, gb, gc, nmemb - pta, 0, 0))
    modifies a, swap
    ensures WindowState(a[..], s, lo, nmemb, left, Cuts(pta + 1, gb, gc, nmemb - pta - 1, 0, 0))
  {
    ghost var d := a[..];
    var ptd := nmemb - pta;
    swap[0] := a[lo + pta];
    a[lo + pta] := a[lo + ptd - 1];
    a[lo + ptd - 1] := swap[0];
    assert a[..] == d[lo + pta := d[lo + ptd - 1]][lo + ptd - 1 := d[lo + pta]];
    SwapEndsNext(d, s, lo, nmemb, left, gb, gc, pta);
  }

  lemma SwapEndsNext(d: seq<int>, s: seq<int>, lo: nat, n: nat, left: nat, gb: nat, gc: nat, pta: nat)
    requires left <= n && gb <= pta && pta + 2 <= n - pta <= gc
    requires WindowState(d, s, lo, n, left, Cuts(pta, gb, gc, n - pta, 0, 0))
    ensures var ptd := n - pta;
      WindowState(d[lo + pta := d[lo + ptd - 1]][lo + ptd - 1 := d[lo + pta]], s, lo, n, left, Cuts(pta + 1, gb, gc, ptd - 1, 0, 0))
  {
    var ptd := n - pta;
    assert d[lo + pta] == s[lo + HalvesSource(n, left, pta)];
    assert d[lo + ptd - 1] == s[lo + HalvesSource(n, left, ptd - 1)];
  }

  /** The one element left in the middle of the left part is its own reversal. */
  lemma AbsorbLeft(d: seq<int>, s: seq<int>, lo: nat, n: nat, left: nat, c: Cuts)
    requires WindowState(d, s, lo, n, left, c) && c.pa + c.pb == left && c.pa <= c.pb <= c.pa + 1
    ensures WindowState(d, s, lo, n, left, c.(pb := c.pa))
  {
    forall p | 0 <= p < |d|
      ensures d[p] == WindowAt(s, lo, n, left, c.(pb := c.pa), p)
    {
      assert d[p] == WindowAt(s, lo, n, left, c, p);
    }
  }

  /** The one element left in the middle of the right part is its own reversal. */
  lemma AbsorbRight(d: seq<int>, s: seq<int>, lo: nat, n: nat, left: nat, c: Cuts)
    requires WindowState(d, s, lo, n, left, c) && c.pc + c.pd == n + left && c.pc <= c.pd <= c.pc + 1
    ensures WindowState(d, s, lo, n, left, c.(pc := c.pd))
  {
    forall p | 0 <= p < |d|
      ensures d[p] == WindowAt(s, lo, n, left, c.(pc := c.pd), p)
    {
      assert d[p] == WindowAt(s, lo, n, left, c, p);
    }
  }

  /** When the ends meet, the element left in the middle is already where the rotation wants it. */
  lemma MiddleDone(d: seq<int>, s: seq<int>, lo: nat, n: nat, left: nat, c: Cuts)
    requires WindowState(d, s, lo, n, left, c) && c.pb <= c.pa && c.pd <= c.pc
    requires c.pa + c.pd == n && c.pd <= c.pa + 1
    ensures d == Rotated(s, lo, n, left)
  {
    forall p | 0 <= p < |d|
      ensures d[p] == Rotated(s, lo, n, left)[p]
    {
      RotatedAt(s, lo, n, left, p);
      assert d[p] == WindowAt(s, lo, n, left, c, p);
      if lo <= p < lo + n && c.pa <= p - lo < c.pd {
        assert p - lo == c.pa && n == 2 * c.pa + 1;
        MiddleSource(n, left, c.pa);
      }
    }
  }

  /** The middle of an odd window is where reversing both parts and the rotation both take it from. */
  lemma MiddleSource(n: nat, left: nat, q: nat)
    requires left <= n && n == 2 * q + 1
    ensures HalvesSource(n, left, q) == RotatedSource(n, left, q)
  {
  }

  /** `memcpy(array + at, swap, count)`: the first count elements of swap are copied in at `at`. */
  method CopyFromSwap(a: array<int>, at: nat, swap: array<int>, count: nat)
    requires a != swap && at + count <= a.Length && count <= swap.Length
    modifies a
    ensures forall p :: 0 <= p < a.Length && !(at <= p < at + count) ==> a[p] == old(a[p])
    ensures forall p :: at <= p < at + count ==> a[p] == swap[p - at]
    ensures a[..] == Overwrite(old(a[..]), at, swap[..count])
  {
    ghost var s := a[..];
    forall k | 0 <= k < count {
      a[at + k] := swap[k];
    }
    forall p | 0 <= p < a.Length
      ensures a[p] == Overwrite(s, at, swap[..count])[p]
    {
      OverwriteAt(s, at, swap[..count], p);
    }
  }
}
