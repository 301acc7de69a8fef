/** The geometry helpers of the UIKit extension file: points, frames, the
    frame accessors every view gets, and two small numeric helpers.
    CGFloat is modelled as `real`; floating-point rounding is not modelled. */
module Geometry {

  /** A CGPoint. */
  datatype Point = Point(x: real, y: real)

  /** A CGSize. */
  datatype Size = Size(width: real, height: real)

  /** A CGRect: origin and size as four components. */
  datatype Rect = Rect(x: real, y: real, w: real, h: real) {

    function Right(): real { x + w }

    function Bottom(): real { y + h }
  }

  /** Swift's `max` and `min` on CGFloat. */
  function Max(a: real, b: real): real { if a >= b then a else b }

  function Min(a: real, b: real): real { if a <= b then a else b }

  /** The `-` operator on CGPoint. */
  function Subtract(p: Point, q: Point): Point
  {
    Point(p.x - q.x, p.y - q.y)
  }

  /** The `+` operator on CGPoint; subtracting either operand again gives back the other. */
  function Add(p: Point, q: Point): (r: Point)
    ensures Subtract(r, q) == p
    ensures Subtract(r, p) == q
  {
    Point(p.x + q.x, p.y + q.y)
  }

  /** The `-` operator on CGSize as written: its height is computed from the
      two widths, like its width. */
  function SizeSubtractAsWritten(a: Size, b: Size): Size
  {
    Size(a.width - b.width, a.width - b.width)
  }

  /** The `-` operator on CGSize as evidently intended: componentwise. */
  function SizeSubtract(a: Size, b: Size): Size
  {
    Size(a.width - b.width, a.height - b.height)
  }

  /** The `+` operator on CGSize; the componentwise difference takes either
      operand off again. */
  function SizeAdd(a: Size, b: Size): (r: Size)
    ensures SizeSubtract(r, b) == a
    ensures SizeSubtract(r, a) == b
  {
    Size(a.width + b.width, a.height + b.height)
  }

  /** The `-` written on CGSize undoes `+` exactly for the sizes that are as tall
      as they are wide: Size(1, 2) + Size(0, 0) - Size(0, 0) is Size(1, 1). */
  lemma SizeSubtractAsWrittenUndoesAdd(a: Size, b: Size)
    ensures SizeSubtractAsWritten(SizeAdd(a, b), b) == a <==> a.height == a.width
    ensures SizeSubtractAsWritten(SizeAdd(Size(1.0, 2.0), Size(0.0, 0.0)), Size(0.0, 0.0)) == Size(1.0, 1.0)
  {
    assert SizeSubtractAsWritten(SizeAdd(a, b), b) == Size(a.width, a.width);
  }

  /** `clamp(value, minimum, maximum)`, written as `min(maximum, max(value, minimum))`:
      the upper bound wins when the bounds are crossed. */
  function Clamp(value: real, minimum: real, maximum: real): (r: real)
    ensures r <= maximum
    ensures minimum <= maximum ==> minimum <= r
    ensures minimum <= value <= maximum ==> r == value
    ensures value <= minimum <= maximum ==> r == minimum
    ensures maximum <= value ==> r == maximum
    ensures maximum < minimum ==> r == maximum
  {
    Min(maximum, Max(value, minimum))
  }

  /** Maps a value in [0, 1] linearly onto [minimum, maximum]. */
  function ConvertNormalizedValue(normalizedValue: real, minimum: real, maximum: real): (r: real)
    ensures normalizedValue == 0.0 ==> r == minimum
    ensures normalizedValue == 1.0 ==> r == maximum
  {
    (maximum - minimum) * normalizedValue + minimum
  }

  /** A normalized value in [0, 1] is mapped into [minimum, maximum]. */
  lemma ConvertNormalizedValueInRange(normalizedValue: real, minimum: real, maximum: real)
    requires minimum <= maximum && 0.0 <= normalizedValue <= 1.0
    ensures minimum <= ConvertNormalizedValue(normalizedValue, minimum, maximum) <= maximum
  {
    var d := maximum - minimum;
    assert 0.0 <= d * normalizedValue by { NonNegativeProduct(d, normalizedValue); }
    assert d * normalizedValue <= d by { NonNegativeProduct(d, 1.0 - normalizedValue); }
  }

  lemma NonNegativeProduct(a: real, b: real)
    requires 0.0 <= a && 0.0 <= b
    ensures 0.0 <= a * b
  {
  }

  /** ConvertNormalizedValue is affine in the normalized value: it maps a weighted
      average of two inputs to the same weighted average of their images. */
  lemma ConvertNormalizedValueIsAffine(a: real, s: real, t: real, minimum: real, maximum: real)
    ensures ConvertNormalizedValue(a * s + (1.0 - a) * t, minimum, maximum)
         == a * ConvertNormalizedValue(s, minimum, maximum) + (1.0 - a) * ConvertNormalizedValue(t, minimum, maximum)
  {
  }

  /** A view as seen through its frame. The accessors `x`, `y`, `w`, `h`,
      `right` and `bottom` read the frame; each setter rebuilds the frame
      with one component replaced. The class stands alone: cells and cards
      keep their offset and size as fields of their own. */
  class View {
    var frame: Rect

    constructor (frame: Rect)
      ensures this.frame == frame
    {
      this.frame := frame;
    }

    function X(): real reads this { frame.x }

    function Y(): real reads this { frame.y }

    function W(): real reads this { frame.w }

    function H(): real reads this { frame.h }

    function Right(): real reads this { frame.Right() }

    function Bottom(): real reads this { frame.Bottom() }

    method SetX(value: real)
      modifies this
      ensures X() == value
      ensures Y() == old(Y()) && W() == old(W()) && H() == old(H())
    {
      frame := Rect(value, Y(), W(), H());
    }

    method SetY(value: real)
      modifies this
      ensures Y() == value
      ensures X() == old(X()) && W() == old(W()) && H() == old(H())
    {
      frame := Rect(X(), value, W(), H());
    }

    method SetW(value: real)
      modifies this
      ensures W() == value
      ensures X() == old(X()) && Y() == old(Y()) && H() == old(H())
    {
      frame := Rect(X(), Y(), value, H());
    }

    method SetH(value: real)
      modifies this
      ensures H() == value
      ensures X() == old(X()) && Y() == old(Y()) && W() == old(W())
    {
      frame := Rect(X(), Y(), W(), value);
    }

    /** Moves the view horizontally so that its right edge is at `value`. */
    method SetRight(value: real)
      modifies this
      ensures Right() == value
      ensures X() == value - old(W())
      ensures W() == old(W()) && Y() == old(Y()) && H() == old(H())
    {
      SetX(value - W());
    }

    /** Moves the view vertically so that its bottom edge is at `value`. */
    method SetBottom(value: real)
      modifies this
      ensures Bottom() == value
      ensures Y() == value - old(H())
      ensures H() == old(H()) && X() == old(X()) && W() == old(W())
    {
      SetY(value - H());
    }
  }
}
