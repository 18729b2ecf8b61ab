/**
 * The transform policy: given the three flags of a coordinate transform and
 * the decorator's own (logical) size, how a point, a rectangle and a pixel
 * sequence are remapped into the wrapped surface's coordinates. Mirroring
 * along x, then mirroring along y, then transposing, always in that order,
 * with both mirrors measured in logical units.
 */
module Transform {
  import opened Geometry

  /** The flags `MIRROR_X`, `MIRROR_Y` and `TRANSPOSE`, fixed for the decorator's lifetime. */
  datatype Config = Config(mirrorX: bool, mirrorY: bool, transpose: bool)

  /** The size the decorator reports for a wrapped surface of size `wrapped`. */
  function LogicalSize(c: Config, wrapped: Size): (s: Size)
    ensures s.width == (if c.transpose then wrapped.height else wrapped.width)
    ensures s.height == (if c.transpose then wrapped.width else wrapped.height)
  {
    if c.transpose then Size(wrapped.height, wrapped.width) else wrapped
  }

  /**
   * Where a logical point lands on the wrapped surface: x is mirrored in the
   * logical width, then y in the logical height, then the axes are swapped.
   * A disabled flag leaves its step the identity.
   */
  function RemapPoint(c: Config, logical: Size, p: Point): (q: Point)
    ensures UnmapPoint(c, logical, q) == p
    ensures Contains(Bounds(logical), p) ==>
      Contains(Bounds(if c.transpose then Size(logical.height, logical.width) else logical), q)
  {
    var x := if c.mirrorX then logical.width - 1 - p.x else p.x;
    var y := if c.mirrorY then logical.height - 1 - p.y else p.y;
    if c.transpose then Point(y, x) else Point(x, y)
  }

  /** The logical point that `RemapPoint` sends to `q`: the three steps undone in reverse order. */
  function UnmapPoint(c: Config, logical: Size, q: Point): Point {
    var x := if c.transpose then q.y else q.x;
    var y := if c.transpose then q.x else q.y;
    Point(if c.mirrorX then logical.width - 1 - x else x,
          if c.mirrorY then logical.height - 1 - y else y)
  }

  /** The point map of a decorator in terms of the wrapped surface's size. */
  function MapToWrapped(c: Config, wrapped: Size, p: Point): Point {
    RemapPoint(c, LogicalSize(c, wrapped), p)
  }

  /** The rectangle a decorator hands to a wrapped surface of size `wrapped` when filling `area`. */
  function RectToWrapped(c: Config, wrapped: Size, area: Rectangle): Rectangle {
    RemapRect(c, LogicalSize(c, wrapped), area)
  }

  /**
   * The rectangle handed to the wrapped surface's fill: the whole span is
   * mirrored (the new corner is the far edge of the old one), then origin and
   * size are swapped.
   */
  function RemapRect(c: Config, logical: Size, area: Rectangle): (r: Rectangle)
    ensures r.size == if c.transpose then Size(area.size.height, area.size.width) else area.size
  {
    var x := if c.mirrorX then logical.width - area.topLeft.x - area.size.width else area.topLeft.x;
    var y := if c.mirrorY then logical.height - area.topLeft.y - area.size.height else area.topLeft.y;
    if c.transpose then
      Rectangle(Point(y, x), Size(area.size.height, area.size.width))
    else
      Rectangle(Point(x, y), area.size)
  }

  /** The pixel sequence handed to the wrapped surface: same order, same colours, remapped points. */
  function RemapPixels<C>(c: Config, logical: Size, ps: seq<Pixel<C>>): (r: seq<Pixel<C>>)
    ensures |r| == |ps|
    ensures forall i :: 0 <= i < |ps| ==>
      r[i].color == ps[i].color && r[i].point == RemapPoint(c, logical, ps[i].point)
  {
    seq(|ps|, i requires 0 <= i < |ps| => Pixel(RemapPoint(c, logical, ps[i].point), ps[i].color))
  }

  // ---------------------------------------------------------------------------
  // Properties of the policy
  // ---------------------------------------------------------------------------

  /** The reported size is swapped iff the transpose flag is set, whatever the mirror flags. */
  lemma SizeSwapsIffTranspose(c: Config, wrapped: Size)
    ensures LogicalSize(c, wrapped) == wrapped || LogicalSize(c, wrapped) == Size(wrapped.height, wrapped.width)
    ensures wrapped.width != wrapped.height ==> (LogicalSize(c, wrapped) != wrapped <==> c.transpose)
    ensures LogicalSize(c, LogicalSize(c, wrapped)) == wrapped
  {
  }

  /** `UnmapPoint` is a two-sided inverse of `RemapPoint`, so the remap is a bijection of the plane. */
  lemma RemapPointInverse(c: Config, logical: Size, p: Point, q: Point)
    ensures UnmapPoint(c, logical, RemapPoint(c, logical, p)) == p
    ensures RemapPoint(c, logical, UnmapPoint(c, logical, q)) == q
  {
  }

  /** Distinct logical points never land on the same wrapped point. */
  lemma RemapPointInjective(c: Config, logical: Size, p: Point, q: Point)
    ensures RemapPoint(c, logical, p) == RemapPoint(c, logical, q) <==> p == q
  {
    RemapPointInverse(c, logical, p, q);
    RemapPointInverse(c, logical, q, p);
  }

  /** Every point inside the decorator's bounds lands inside the wrapped surface's bounds. */
  lemma RemapPointInBounds(c: Config, wrapped: Size, p: Point)
    requires Contains(Bounds(LogicalSize(c, wrapped)), p)
    ensures Contains(Bounds(wrapped), MapToWrapped(c, wrapped, p))
  {
  }

  /** Without transposition the remap undoes itself: each mirror is an involution. */
  lemma MirrorInvolution(c: Config, logical: Size, p: Point)
    requires !c.transpose
    ensures RemapPoint(c, logical, RemapPoint(c, logical, p)) == p
  {
  }

  /**
   * The optimised rectangle remap covers exactly the points obtained by
   * remapping every pixel of the rectangle one by one.
   */
  lemma RemapRectPoints(c: Config, logical: Size, area: Rectangle)
    ensures Points(RemapRect(c, logical, area)) == set p | p in Points(area) :: RemapPoint(c, logical, p)
  {
    var moved := RemapRect(c, logical, area);
    var image := set p | p in Points(area) :: RemapPoint(c, logical, p);
    forall q | q in Points(moved) ensures q in image {
      var p := UnmapPoint(c, logical, q);
      RemapPointInverse(c, logical, p, q);
      RemapRectContains(c, logical, area, p);
      assert p in Points(area);
    }
    forall q | q in image ensures q in Points(moved) {
      var p :| p in Points(area) && RemapPoint(c, logical, p) == q;
      RemapRectContains(c, logical, area, p);
    }
  }

  /** A point lies in a rectangle iff its remap lies in the remapped rectangle. */
  lemma RemapRectContains(c: Config, logical: Size, area: Rectangle, p: Point)
    ensures Contains(area, p) <==> Contains(RemapRect(c, logical, area), RemapPoint(c, logical, p))
  {
  }

  /** The whole logical surface, remapped as a rectangle, is the whole wrapped surface. */
  lemma RemapRectBounds(c: Config, wrapped: Size)
    ensures RemapRect(c, LogicalSize(c, wrapped), Bounds(LogicalSize(c, wrapped))) == Bounds(wrapped)
  {
  }

  /** The remap is a bijection from the decorator's bounds onto the wrapped surface's bounds. */
  lemma RemapBoundsBijection(c: Config, wrapped: Size)
    ensures (set p | p in Points(Bounds(LogicalSize(c, wrapped))) :: MapToWrapped(c, wrapped, p)) == Points(Bounds(wrapped))
    ensures forall p, q :: MapToWrapped(c, wrapped, p) == MapToWrapped(c, wrapped, q) ==> p == q
  {
    var logical := LogicalSize(c, wrapped);
    RemapRectPoints(c, logical, Bounds(logical));
    RemapRectBounds(c, wrapped);
    forall p, q | MapToWrapped(c, wrapped, p) == MapToWrapped(c, wrapped, q) ensures p == q {
      RemapPointInjective(c, logical, p, q);
    }
  }

  /** The points a remapped pixel sequence touches are the remapped points of the original. */
  lemma RemapPixelsPoints<C>(c: Config, logical: Size, ps: seq<Pixel<C>>)
    ensures PointsOf(RemapPixels(c, logical, ps)) == set p | p in PointsOf(ps) :: RemapPoint(c, logical, p)
  {
    var rs := RemapPixels(c, logical, ps);
    forall q | q in PointsOf(rs) ensures q in set p | p in PointsOf(ps) :: RemapPoint(c, logical, p) {
      var i :| 0 <= i < |rs| && rs[i].point == q;
      assert ps[i].point in PointsOf(ps);
    }
    forall q | q in (set p | p in PointsOf(ps) :: RemapPoint(c, logical, p)) ensures q in PointsOf(rs) {
      var p :| p in PointsOf(ps) && RemapPoint(c, logical, p) == q;
      var i :| 0 <= i < |ps| && ps[i].point == p;
      assert rs[i].point == q;
    }
  }

  /** A pixel is the last write to its point before the remap iff it is after it: overdraw order is kept. */
  lemma RemapPixelsLastWrite<C>(c: Config, logical: Size, ps: seq<Pixel<C>>, i: int)
    requires 0 <= i < |ps|
    ensures LastWrite(RemapPixels(c, logical, ps), i) <==> LastWrite(ps, i)
  {
    var rs := RemapPixels(c, logical, ps);
    forall j | i < j < |ps| ensures rs[j].point == rs[i].point <==> ps[j].point == ps[i].point {
      RemapPointInjective(c, logical, ps[j].point, ps[i].point);
    }
  }
}
