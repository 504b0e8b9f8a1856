// Integer 2D vectors and rectangles of the engine's math library: the `int2*`
// and `recti*` helpers. Coordinates are unbounded integers, so the results are
// those of the 32-bit code whenever it does not overflow.

module MathVector {

  datatype Int2 = Int2(x: int, y: int)

  /** A rectangle given by its minimum corner (xmin, ymin) and maximum corner (xmax, ymax). */
  datatype Recti = Recti(xmin: int, ymin: int, xmax: int, ymax: int)

  /** The corners are ordered as the source expects of a well-formed rectangle. */
  predicate IsNormalized(rc: Recti)
  {
    rc.xmin <= rc.xmax && rc.ymin <= rc.ymax
  }

  function int2Add(a: Int2, b: Int2): (r: Int2)
    ensures r.x - b.x == a.x && r.y - b.y == a.y
  {
    Int2(a.x + b.x, a.y + b.y)
  }

  function int2Sub(a: Int2, b: Int2): (r: Int2)
    ensures r.x + b.x == a.x && r.y + b.y == a.y
  {
    Int2(a.x - b.x, a.y - b.y)
  }

  /** Componentwise minimum: each coordinate is the greatest lower bound of the two inputs'. */
  function int2Min(a: Int2, b: Int2): (r: Int2)
    ensures r.x <= a.x && r.x <= b.x && (r.x == a.x || r.x == b.x)
    ensures r.y <= a.y && r.y <= b.y && (r.y == a.y || r.y == b.y)
  {
    Int2(if a.x < b.x then a.x else b.x, if a.y < b.y then a.y else b.y)
  }

  /** Componentwise maximum: each coordinate is the least upper bound of the two inputs'. */
  function int2Max(a: Int2, b: Int2): (r: Int2)
    ensures r.x >= a.x && r.x >= b.x && (r.x == a.x || r.x == b.x)
    ensures r.y >= a.y && r.y >= b.y && (r.y == a.y || r.y == b.y)
  {
    Int2(if a.x > b.x then a.x else b.x, if a.y > b.y then a.y else b.y)
  }

  /** Subtracting what was added gives back the original vector. */
  lemma Int2SubUndoesAdd(a: Int2, b: Int2)
    ensures int2Sub(int2Add(a, b), b) == a
    ensures int2Add(int2Sub(a, b), b) == a
  {
  }

  /** Min and max are commutative and the minimum never exceeds the maximum. */
  lemma Int2MinMaxOrdered(a: Int2, b: Int2)
    ensures int2Min(a, b) == int2Min(b, a) && int2Max(a, b) == int2Max(b, a)
    ensures int2Min(a, b).x <= int2Max(a, b).x && int2Min(a, b).y <= int2Max(a, b).y
  {
  }

  /** The horizontal extent: xmin plus the width is xmax. */
  function rectiWidth(rc: Recti): (w: int)
    ensures rc.xmin + w == rc.xmax
    ensures w >= 0 <==> rc.xmin <= rc.xmax
  {
    rc.xmax - rc.xmin
  }

  /** The vertical extent: ymin plus the height is ymax. */
  function rectiHeight(rc: Recti): (h: int)
    ensures rc.ymin + h == rc.ymax
    ensures h >= 0 <==> rc.ymin <= rc.ymax
  {
    rc.ymax - rc.ymin
  }

  /** Grows the rectangle by e on every side: the centre stays, width and height grow by 2*e. */
  function rectiExpand(rc: Recti, e: Int2): (r: Recti)
    ensures rectiWidth(r) == rectiWidth(rc) + 2 * e.x
    ensures rectiHeight(r) == rectiHeight(rc) + 2 * e.y
    ensures r.xmin + r.xmax == rc.xmin + rc.xmax && r.ymin + r.ymax == rc.ymin + rc.ymax
  {
    Recti(rc.xmin - e.x, rc.ymin - e.y, rc.xmax + e.x, rc.ymax + e.y)
  }

  /** Point containment with inclusive bounds on both axes. */
  function rectiTestPoint(rc: Recti, pt: Int2): (b: bool)
    ensures b <==> rc.xmin <= pt.x <= rc.xmax && rc.ymin <= pt.y <= rc.ymax
  {
    if pt.x < rc.xmin || pt.y < rc.ymin || pt.x > rc.xmax || pt.y > rc.ymax then false else true
  }

  /** Overlap test with inclusive bounds: the closed extents intersect on both axes. */
  function rectiTest(rc1: Recti, rc2: Recti): (b: bool)
    ensures b <==> (rc2.xmin <= rc1.xmax && rc1.xmin <= rc2.xmax) && (rc2.ymin <= rc1.ymax && rc1.ymin <= rc2.ymax)
  {
    if rc1.xmax < rc2.xmin || rc1.xmin > rc2.xmax then false
    else if rc1.ymax < rc2.ymin || rc1.ymin > rc2.ymax then false
    else true
  }

  lemma RectiTestSymmetric(a: Recti, b: Recti)
    ensures rectiTest(a, b) == rectiTest(b, a)
  {
  }

  /** For well-formed rectangles the overlap test is true exactly when some point lies in both. */
  lemma RectiTestIffCommonPoint(a: Recti, b: Recti)
    requires IsNormalized(a) && IsNormalized(b)
    ensures rectiTest(a, b) <==> exists p :: rectiTestPoint(a, p) && rectiTestPoint(b, p)
  {
    if rectiTest(a, b) {
      var p := Int2(if a.xmin < b.xmin then b.xmin else a.xmin, if a.ymin < b.ymin then b.ymin else a.ymin);
      assert rectiTestPoint(a, p) && rectiTestPoint(b, p);
    }
  }

  /**
   * Grows the rectangle just enough to hold pt: the result contains pt and
   * every point the old rectangle contained.
   */
  function rectiAddPoint(rc: Recti, pt: Int2): (r: Recti)
    ensures rectiTestPoint(r, pt)
    ensures forall q :: rectiTestPoint(rc, q) ==> rectiTestPoint(r, q)
  {
    var lo := int2Min(Int2(rc.xmin, rc.ymin), pt);
    var hi := int2Max(Int2(rc.xmax, rc.ymax), pt);
    Recti(lo.x, lo.y, hi.x, hi.y)
  }

  /** rectiAddPoint grows no more than needed: any rectangle holding pt and the old corners holds the result. */
  lemma RectiAddPointIsSmallest(rc: Recti, pt: Int2, other: Recti)
    requires rectiTestPoint(other, pt)
    requires rectiTestPoint(other, Int2(rc.xmin, rc.ymin)) && rectiTestPoint(other, Int2(rc.xmax, rc.ymax))
    ensures var r := rectiAddPoint(rc, pt);
            rectiTestPoint(other, Int2(r.xmin, r.ymin)) && rectiTestPoint(other, Int2(r.xmax, r.ymax))
  {
  }

  /**
   * Corner `index` of the rectangle: bit 0 of the index selects xmax, bit 1 selects ymax.
   *   2 ----- 3 (max)
   *   |       |
   *   0 ----- 1
   *   (min)
   */
  function rectiGetCorner(rc: Recti, index: bv32): (r: Int2)
    ensures index == 0 ==> r == Int2(rc.xmin, rc.ymin)
    ensures index == 1 ==> r == Int2(rc.xmax, rc.ymin)
    ensures index == 2 ==> r == Int2(rc.xmin, rc.ymax)
    ensures index == 3 ==> r == Int2(rc.xmax, rc.ymax)
    ensures IsNormalized(rc) ==> rectiTestPoint(rc, r)
  {
    Int2(if index & 1 != 0 then rc.xmax else rc.xmin, if index & 2 != 0 then rc.ymax else rc.ymin)
  }

  /** The four corners in diagram order, what `rectiGetCorners` is evidently meant to write. */
  function Corners(rc: Recti): (cs: seq<Int2>)
    ensures |cs| == 4
    ensures cs[0] == Int2(rc.xmin, rc.ymin) && cs[3] == Int2(rc.xmax, rc.ymax)
  {
    [rectiGetCorner(rc, 0), rectiGetCorner(rc, 1), rectiGetCorner(rc, 2), rectiGetCorner(rc, 3)]
  }

  /**
   * `rectiGetCorners` as written: every iteration stores into corners[0], so
   * corners[0] ends up holding corner 3 and corners[1..4) are not written.
   */
  method rectiGetCornersAsWritten(corners: array<Int2>, rc: Recti)
    requires corners.Length == 4
    modifies corners
    ensures corners[0] == rectiGetCorner(rc, 3)
    ensures corners[1..] == old(corners[1..])
  {
    var i: bv32 := 0;
    while i < 4
      invariant 0 <= i <= 4
      invariant i > 0 ==> corners[0] == rectiGetCorner(rc, i - 1)
      invariant corners[1..] == old(corners[1..])
    {
      corners[0] := rectiGetCorner(rc, i);
      i := i + 1;
    }
  }

  /** The effect of the as-written loop on the array contents, as a function. */
  function CornersAsWritten(rc: Recti, before: seq<Int2>): (cs: seq<Int2>)
    requires |before| == 4
    ensures |cs| == 4 && cs[0] == Int2(rc.xmax, rc.ymax) && cs[1..] == before[1..]
  {
    before[0 := rectiGetCorner(rc, 3)]
  }

  /**
   * The discrepancy: on the unit square, starting from an array of zero
   * vectors, the as-written loop leaves corner 3 at index 0 and never stores
   * corner 3 at index 3.
   */
  lemma CornersAsWrittenDiffer()
    ensures var rc := Recti(0, 0, 1, 1);
            var before := [Int2(0, 0), Int2(0, 0), Int2(0, 0), Int2(0, 0)];
            CornersAsWritten(rc, before)[0] == Int2(1, 1) &&
            CornersAsWritten(rc, before)[3] != Corners(rc)[3] &&
            CornersAsWritten(rc, before) != Corners(rc)
  {
    var rc := Recti(0, 0, 1, 1);
    var before := [Int2(0, 0), Int2(0, 0), Int2(0, 0), Int2(0, 0)];
    assert CornersAsWritten(rc, before)[3] == Int2(0, 0);
    assert Corners(rc)[3] == Int2(1, 1);
  }

  /** Corrected `rectiGetCorners`: corners[i] receives corner i. */
  method rectiGetCorners(corners: array<Int2>, rc: Recti)
    requires corners.Length == 4
    modifies corners
    ensures corners[..] == Corners(rc)
  {
    var i: bv32 := 0;
    while i < 4
      invariant 0 <= i <= 4
      invariant forall k :: 0 <= k < i as int ==> corners[k] == rectiGetCorner(rc, k as bv32)
    {
      corners[i] := rectiGetCorner(rc, i);
      i := i + 1;
    }
  }
}
