/**
 * IntRect: a rectangle with `int` coordinates, half-open on its right and bottom
 * edges. `Left + Width` and `Top + Height` are computed with C# unchecked
 * wrap-around, exactly as the source computes them.
 */
module Rect {
  import opened Int32

  datatype IntRect = IntRect(left: int32, top: int32, width: int32, height: int32)

  /** `Left + Width` as the source evaluates it. */
  function Right(r: IntRect): int32 {
    Wrap(r.left + r.width)
  }

  /** `Top + Height` as the source evaluates it. */
  function Bottom(r: IntRect): int32 {
    Wrap(r.top + r.height)
  }

  /** The right and bottom edges are computed without wrap-around. */
  predicate NoOverflow(r: IntRect) {
    InRange(r.left + r.width) && InRange(r.top + r.height)
  }

  function Max(a: int32, b: int32): int32 {
    if a >= b then a else b
  }

  function Min(a: int32, b: int32): int32 {
    if a <= b then a else b
  }

  /** `Contains(x, y)`: the point lies inside the rectangle's area. */
  predicate Contains(r: IntRect, x: int32, y: int32) {
    x >= r.left && x < Right(r) && y >= r.top && y < Bottom(r)
  }

  /** `Intersects(rect)`: the two rectangles overlap with positive area. */
  predicate Intersects(r: IntRect, s: IntRect) {
    Max(r.left, s.left) < Min(Right(r), Right(s)) && Max(r.top, s.top) < Min(Bottom(r), Bottom(s))
  }

  /**
   * `Intersects(rect, out overlap)`: the same verdict as `Intersects`, with the
   * overlapping rectangle on true and four zero fields on false.
   */
  function IntersectsOverlap(r: IntRect, s: IntRect): (res: (bool, IntRect))
    ensures res.0 == Intersects(r, s)
    ensures !res.0 ==> res.1 == IntRect(0, 0, 0, 0)
    ensures res.0 ==> res.1.left == Max(r.left, s.left) && res.1.top == Max(r.top, s.top)
  {
    var left := Max(r.left, s.left);
    var top := Max(r.top, s.top);
    var right := Min(Right(r), Right(s));
    var bottom := Min(Bottom(r), Bottom(s));
    if left < right && top < bottom then
      (true, IntRect(left, top, Wrap(right - left), Wrap(bottom - top)))
    else
      (false, IntRect(0, 0, 0, 0))
  }

  /** Without overflow, containment is exactly Left <= x < Left+Width and Top <= y < Top+Height. */
  lemma ContainsExactly(r: IntRect, x: int32, y: int32)
    requires NoOverflow(r)
    ensures Contains(r, x, y) <==> r.left <= x < r.left + r.width && r.top <= y < r.top + r.height
  {
  }

  /** Intersection does not depend on the order of the two rectangles. */
  lemma IntersectsSymmetric(r: IntRect, s: IntRect)
    ensures Intersects(r, s) == Intersects(s, r)
    ensures IntersectsOverlap(r, s) == IntersectsOverlap(s, r)
  {
  }

  /**
   * When one rectangle's edges do not overflow, the overlap reported on true spans
   * max-left/max-top to min-right/min-bottom with positive width and height.
   */
  lemma OverlapSpansMinMax(r: IntRect, s: IntRect)
    requires NoOverflow(r) || NoOverflow(s)
    requires Intersects(r, s)
    ensures var o := IntersectsOverlap(r, s).1;
      && o.width > 0 && o.height > 0
      && o.left + o.width == Min(Right(r), Right(s))
      && o.top + o.height == Min(Bottom(r), Bottom(s))
  {
    var left, right := Max(r.left, s.left), Min(Right(r), Right(s));
    var top, bottom := Max(r.top, s.top), Min(Bottom(r), Bottom(s));
    if NoOverflow(r) {
      assert right - left <= r.width && bottom - top <= r.height;
    } else {
      assert right - left <= s.width && bottom - top <= s.height;
    }
  }

  /** Every point of the overlap lies in both rectangles. */
  lemma OverlapInBoth(r: IntRect, s: IntRect, x: int32, y: int32)
    requires NoOverflow(r) && NoOverflow(s)
    requires Intersects(r, s)
    requires Contains(IntersectsOverlap(r, s).1, x, y)
    ensures Contains(r, x, y) && Contains(s, x, y)
  {
    OverlapSpansMinMax(r, s);
  }

  /** A rectangle without positive width or height contains no point and intersects nothing. */
  lemma EmptyRect(r: IntRect, s: IntRect, x: int32, y: int32)
    requires NoOverflow(r)
    requires r.width <= 0 || r.height <= 0
    ensures !Contains(r, x, y)
    ensures !Intersects(r, s) && !Intersects(s, r)
  {
  }

  /** With wrap-around, a rectangle of negative width can contain points. */
  lemma WrappedRectContains()
    ensures var r := IntRect(MinValue, 0, -1, 1);
      !NoOverflow(r) && r.width <= 0 && Contains(r, 0, 0)
  {
  }
}
