/**
 * Plane geometry shared by the decorator and the surface it wraps: signed
 * points, unsigned sizes, top-left-origin rectangles and coloured pixels.
 */
module Geometry {

  /** A pixel coordinate. Coordinates are signed and may lie outside any surface. */
  datatype Point = Point(x: int, y: int)

  /** The extent of a surface or a rectangle; both magnitudes are unsigned. */
  datatype Size = Size(width: nat, height: nat)

  /** An axis-aligned region: its top-left corner, extending toward increasing x and y. */
  datatype Rectangle = Rectangle(topLeft: Point, size: Size)

  /** One point of a drawing call together with its colour. */
  datatype Pixel<C> = Pixel(point: Point, color: C)

  /** True iff `p` is one of the pixels covered by `r`. */
  predicate Contains(r: Rectangle, p: Point) {
    && r.topLeft.x <= p.x < r.topLeft.x + r.size.width
    && r.topLeft.y <= p.y < r.topLeft.y + r.size.height
  }

  /** The finite set of pixels covered by `r`. */
  function Points(r: Rectangle): (s: set<Point>)
    ensures forall p :: p in s <==> Contains(r, p)
  {
    var x0, y0 := r.topLeft.x, r.topLeft.y;
    set x: int, y: int | x0 <= x < x0 + r.size.width && y0 <= y < y0 + r.size.height :: Point(x, y)
  }

  /** The rectangle a surface of size `s` occupies: origin (0, 0), extent `s`. */
  function Bounds(s: Size): (r: Rectangle)
    ensures forall p :: Contains(r, p) <==> 0 <= p.x < s.width && 0 <= p.y < s.height
  {
    Rectangle(Point(0, 0), s)
  }

  /** The set of points a pixel sequence touches. */
  function PointsOf<C>(ps: seq<Pixel<C>>): set<Point> {
    set i | 0 <= i < |ps| :: ps[i].point
  }

  /** True iff no pixel after position `i` of `ps` lands on the same point as `ps[i]`. */
  predicate LastWrite<C>(ps: seq<Pixel<C>>, i: int)
    requires 0 <= i < |ps|
  {
    forall j :: i < j < |ps| ==> ps[j].point != ps[i].point
  }

  /** The points of a non-empty sequence are its first point and those of the rest. */
  lemma PointsOfFirstRest<C>(ps: seq<Pixel<C>>)
    requires |ps| > 0
    ensures PointsOf(ps) == {ps[0].point} + PointsOf(ps[1..])
  {
    var rest := ps[1..];
    forall p | p in PointsOf(ps) ensures p in {ps[0].point} + PointsOf(rest) {
      var i :| 0 <= i < |ps| && ps[i].point == p;
      if i > 0 { assert rest[i - 1].point == p; }
    }
    forall p | p in PointsOf(rest) ensures p in PointsOf(ps) {
      var i :| 0 <= i < |rest| && rest[i].point == p;
      assert ps[i + 1].point == p;
    }
  }
}
