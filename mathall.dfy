// The `RectInt` struct of the engine's combined math header, whose members
// update the rectangle in place. Its static value functions (Expand, TestPoint,
// Test, GetCorner) and the `Int2` helpers are the same code as the free
// functions in module MathVector, and are used from there.

module MathAll {
  import opened MathVector

  class RectInt {
    var xmin: int
    var ymin: int
    var xmax: int
    var ymax: int

    /** The rectangle as a value. */
    function Value(): Recti
      reads this
    {
      Recti(xmin, ymin, xmax, ymax)
    }

    constructor (x0: int, y0: int, x1: int, y1: int)
      ensures Value() == Recti(x0, y0, x1, y1)
    {
      xmin, ymin, xmax, ymax := x0, y0, x1, y1;
    }

    /** The width of the rectangle, the same as `rectiWidth` of its value. */
    function Width(): (w: int)
      reads this
      ensures w == rectiWidth(Value())
    {
      xmax - xmin
    }

    /** The height of the rectangle, the same as `rectiHeight` of its value. */
    function Height(): (h: int)
      reads this
      ensures h == rectiHeight(Value())
    {
      ymax - ymin
    }

    /** Empty exactly when the half-open area [xmin, xmax) x [ymin, ymax) covers no pixel. */
    function IsEmpty(): (b: bool)
      reads this
      ensures !b <==> exists p: Int2 :: xmin <= p.x < xmax && ymin <= p.y < ymax
    {
      if xmin >= xmax || ymin >= ymax then true
      else
        assert xmin <= Int2(xmin, ymin).x < xmax && ymin <= Int2(xmin, ymin).y < ymax;
        false
    }

    /** Keeps the minimum corner and the height; afterwards the width is w. */
    method SetWidth(w: int)
      modifies this
      ensures Width() == w && xmin == old(xmin)
      ensures ymin == old(ymin) && ymax == old(ymax)
    {
      xmax := xmin + w;
    }

    /** Keeps the minimum corner and the width; afterwards the height is h. */
    method SetHeight(h: int)
      modifies this
      ensures Height() == h && ymin == old(ymin)
      ensures xmin == old(xmin) && xmax == old(xmax)
    {
      ymax := ymin + h;
    }

    /** Grows rc in place to the smallest rectangle holding its old extent and pt. */
    static method AddPoint(rc: RectInt, pt: Int2)
      modifies rc
      ensures rc.Value() == rectiAddPoint(old(rc.Value()), pt)
      ensures rectiTestPoint(rc.Value(), pt)
      ensures forall q :: rectiTestPoint(old(rc.Value()), q) ==> rectiTestPoint(rc.Value(), q)
    {
      var lo := int2Min(Int2(rc.xmin, rc.ymin), pt);
      var hi := int2Max(Int2(rc.xmax, rc.ymax), pt);
      rc.xmin, rc.ymin, rc.xmax, rc.ymax := lo.x, lo.y, hi.x, hi.y;
    }

    /** `GetCorners` as written: only corners[0] is stored to, and it ends up holding corner 3. */
    static method GetCornersAsWritten(corners: array<Int2>, rc: RectInt)
      requires corners.Length == 4
      modifies corners
      ensures corners[0] == Int2(rc.xmax, rc.ymax)
      ensures corners[1..] == old(corners[1..])
    {
      var i: bv32 := 0;
      while i < 4
        invariant 0 <= i <= 4
        invariant i > 0 ==> corners[0] == rectiGetCorner(rc.Value(), i - 1)
        invariant corners[1..] == old(corners[1..])
      {
        corners[0] := rectiGetCorner(rc.Value(), i);
        i := i + 1;
      }
    }

    /** Corrected `GetCorners`: corners[i] receives corner i of the diagram. */
    static method GetCorners(corners: array<Int2>, rc: RectInt)
      requires corners.Length == 4
      modifies corners
      ensures corners[..] == Corners(rc.Value())
    {
      var i: bv32 := 0;
      while i < 4
        invariant 0 <= i <= 4
        invariant forall k :: 0 <= k < i as int ==> corners[k] == rectiGetCorner(rc.Value(), k as bv32)
      {
        corners[i] := rectiGetCorner(rc.Value(), i);
        i := i + 1;
      }
    }
  }
}
