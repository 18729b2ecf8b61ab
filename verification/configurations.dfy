/**
 * The named configurations of the library: each name is a fixed flag triple
 * (mirror x, mirror y, transpose). Also how nested decorators compose, which
 * is what makes the four rotations behave as rotations, and the concrete
 * results pinned for each name on a 64 by 64 surface.
 */
module Configurations {
  import opened Geometry
  import opened Surface
  import opened Transform
  import opened Decorator

  const MirrorX := Config(true, false, false)
  const MirrorY := Config(false, true, false)
  const MirrorXY := Config(true, true, false)
  const TransposeXY := Config(false, false, true)
  const Rotate0 := Config(false, false, false)
  const Rotate90 := Config(true, false, true)
  const Rotate180 := Config(true, true, false)
  const Rotate270 := Config(false, true, true)

  // ---------------------------------------------------------------------------
  // Nesting decorators
  // ---------------------------------------------------------------------------

  /** Whether a configuration flips the wrapped surface's x axis, in wrapped terms. */
  function FlipsWrappedX(c: Config): bool {
    if c.transpose then c.mirrorY else c.mirrorX
  }

  /** Whether a configuration flips the wrapped surface's y axis, in wrapped terms. */
  function FlipsWrappedY(c: Config): bool {
    if c.transpose then c.mirrorX else c.mirrorY
  }

  /** The single configuration that behaves like decorator `outer` wrapped around decorator `inner`. */
  function Compose(outer: Config, inner: Config): Config {
    var transpose := outer.transpose != inner.transpose;
    var fx := if inner.transpose then FlipsWrappedX(inner) != FlipsWrappedY(outer)
              else FlipsWrappedX(inner) != FlipsWrappedX(outer);
    var fy := if inner.transpose then FlipsWrappedY(inner) != FlipsWrappedX(outer)
              else FlipsWrappedY(inner) != FlipsWrappedY(outer);
    Config(if transpose then fy else fx, if transpose then fx else fy, transpose)
  }

  /** A decorator wrapped around another behaves, in size and in points, like one decorator. */
  lemma NestingIsOneTransform(outer: Config, inner: Config, wrapped: Size, p: Point)
    ensures LogicalSize(outer, LogicalSize(inner, wrapped)) == LogicalSize(Compose(outer, inner), wrapped)
    ensures MapToWrapped(inner, wrapped, MapToWrapped(outer, LogicalSize(inner, wrapped), p))
         == MapToWrapped(Compose(outer, inner), wrapped, p)
  {
  }

  /** The size reported by a stack of decorators, outermost first, over a surface of size `wrapped`. */
  function NestedSize(cs: seq<Config>, wrapped: Size): Size
    decreases |cs|
  {
    if cs == [] then wrapped else NestedSize(cs[..|cs| - 1], LogicalSize(cs[|cs| - 1], wrapped))
  }

  /** Where a stack of decorators, outermost first, sends point `p` on the innermost surface. */
  function NestedMap(cs: seq<Config>, wrapped: Size, p: Point): Point
    decreases |cs|
  {
    if cs == [] then p
    else
      var inner := cs[|cs| - 1];
      MapToWrapped(inner, wrapped, NestedMap(cs[..|cs| - 1], LogicalSize(inner, wrapped), p))
  }

  /** The configuration equivalent to a whole stack of decorators, outermost first. */
  function ComposeAll(cs: seq<Config>): Config
    decreases |cs|
  {
    if cs == [] then Rotate0 else Compose(ComposeAll(cs[..|cs| - 1]), cs[|cs| - 1])
  }

  /** Any stack of decorators behaves, in size and in points, like the one decorator `ComposeAll`. */
  lemma {:induction false} NestedIsComposeAll(cs: seq<Config>, wrapped: Size, p: Point)
    ensures NestedSize(cs, wrapped) == LogicalSize(ComposeAll(cs), wrapped)
    ensures NestedMap(cs, wrapped, p) == MapToWrapped(ComposeAll(cs), wrapped, p)
    decreases |cs|
  {
    if cs != [] {
      var inner := cs[|cs| - 1];
      var outers := cs[..|cs| - 1];
      NestedIsComposeAll(outers, LogicalSize(inner, wrapped), p);
      NestingIsOneTransform(ComposeAll(outers), inner, wrapped, p);
    }
  }

  // ---------------------------------------------------------------------------
  // The names, and the rotations as rotations
  // ---------------------------------------------------------------------------

  /**
   * The eight names and their (mirror x, mirror y, transpose) triples;
   * `Rotate180` and `MirrorXY` are the same triple, and `Rotate0` is the identity.
   */
  lemma NamedConfigurations(wrapped: Size, p: Point)
    ensures MirrorX == Config(true, false, false) && MirrorY == Config(false, true, false)
    ensures MirrorXY == Config(true, true, false) && TransposeXY == Config(false, false, true)
    ensures Rotate0 == Config(false, false, false) && Rotate90 == Config(true, false, true)
    ensures Rotate180 == Config(true, true, false) && Rotate270 == Config(false, true, true)
    ensures Rotate180 == MirrorXY
    ensures LogicalSize(Rotate0, wrapped) == wrapped && MapToWrapped(Rotate0, wrapped, p) == p
  {
  }

  /**
   * `Rotate90` nested in `Rotate90` is `Rotate180`; three deep it is
   * `Rotate270`; four deep it is `Rotate0`, leaving sizes and points unchanged.
   */
  lemma Rotate90Composes(wrapped: Size, p: Point)
    ensures NestedSize([Rotate90, Rotate90], wrapped) == LogicalSize(Rotate180, wrapped)
    ensures NestedMap([Rotate90, Rotate90], wrapped, p) == MapToWrapped(Rotate180, wrapped, p)
    ensures NestedSize([Rotate90, Rotate90, Rotate90], wrapped) == LogicalSize(Rotate270, wrapped)
    ensures NestedMap([Rotate90, Rotate90, Rotate90], wrapped, p) == MapToWrapped(Rotate270, wrapped, p)
    ensures NestedSize([Rotate90, Rotate90, Rotate90, Rotate90], wrapped) == wrapped
    ensures NestedMap([Rotate90, Rotate90, Rotate90, Rotate90], wrapped, p) == p
  {
    var one, two, three, four := [Rotate90], [Rotate90, Rotate90], [Rotate90, Rotate90, Rotate90], [Rotate90, Rotate90, Rotate90, Rotate90];
    assert one[..0] == [] && two[..1] == one && three[..2] == two && four[..3] == three;
    assert ComposeAll(one) == Rotate90;
    assert ComposeAll(two) == Rotate180;
    assert ComposeAll(three) == Rotate270;
    assert ComposeAll(four) == Rotate0;
    NestedIsComposeAll(two, wrapped, p);
    NestedIsComposeAll(three, wrapped, p);
    NestedIsComposeAll(four, wrapped, p);
  }

  /** `Rotate270` undoes `Rotate90` in either nesting order. */
  lemma Rotate270UndoesRotate90(wrapped: Size, p: Point)
    ensures NestedMap([Rotate90, Rotate270], wrapped, p) == p
    ensures NestedMap([Rotate270, Rotate90], wrapped, p) == p
  {
    var a, b := [Rotate90, Rotate270], [Rotate270, Rotate90];
    assert a[..1] == [Rotate90] && b[..1] == [Rotate270] && [Rotate90][..0] == [] && [Rotate270][..0] == [];
    assert ComposeAll([Rotate90]) == Rotate90 && ComposeAll([Rotate270]) == Rotate270;
    assert ComposeAll(a) == Rotate0 && ComposeAll(b) == Rotate0;
    NestedIsComposeAll(a, wrapped, p);
    NestedIsComposeAll(b, wrapped, p);
  }

  // ---------------------------------------------------------------------------
  // Concrete results on a 64 by 64 surface
  // ---------------------------------------------------------------------------

  const Display64 := Size(64, 64)
  const Square4 := Rectangle(Point(0, 0), Size(4, 4))

  /**
   * Fills `area` with `color` through a decorator over an empty, fault-free
   * surface of size `wrapped`, and returns the set of points that got a colour.
   */
  method AffectedArea<C>(c: Config, wrapped: Size, area: Rectangle, color: C) returns (affected: set<Point>)
    ensures affected == Points(RectToWrapped(c, wrapped, area))
  {
    var display := new CoordinateTransform<C, ()>(Target(wrapped, map[], None, []), c);
    var _ := display.FillSolid(area, color);
    affected := display.target.pixels.Keys;
  }

  lemma MirrorXMovesSquare()
    ensures RectToWrapped(MirrorX, Display64, Square4) == Rectangle(Point(60, 0), Size(4, 4))
  {
  }

  lemma MirrorYMovesSquare()
    ensures RectToWrapped(MirrorY, Display64, Square4) == Rectangle(Point(0, 60), Size(4, 4))
  {
  }

  lemma TransposeXYSwapsSize()
    ensures RectToWrapped(TransposeXY, Display64, Rectangle(Point(0, 0), Size(4, 2)))
         == Rectangle(Point(0, 0), Size(2, 4))
  {
  }

  /** Over a 128 by 64 surface, `TransposeXY` reports size 64 by 128. */
  lemma TransposeXYReportsSwappedSize()
    ensures LogicalSize(TransposeXY, Size(128, 64)) == Size(64, 128)
  {
  }

  lemma Rotate0KeepsSquare()
    ensures RectToWrapped(Rotate0, Display64, Square4) == Square4
  {
  }

  /** `Rotate90` moves the square to the bottom-left corner. */
  lemma Rotate90MovesSquare()
    ensures RectToWrapped(Rotate90, Display64, Square4) == Rectangle(Point(0, 60), Size(4, 4))
  {
  }

  /**
   * Over a 128 by 64 surface, `Rotate90` mirrors in the decorator's own width
   * (64, not 128): the square lands at (0, 60), not at (0, 124).
   */
  lemma Rotate90MirrorsInLogicalWidth()
    ensures RectToWrapped(Rotate90, Size(128, 64), Square4) == Rectangle(Point(0, 60), Size(4, 4))
  {
  }

  lemma Rotate180MovesSquare()
    ensures RectToWrapped(Rotate180, Display64, Square4) == Rectangle(Point(60, 60), Size(4, 4))
    ensures RectToWrapped(MirrorXY, Display64, Square4) == Rectangle(Point(60, 60), Size(4, 4))
  {
  }

  lemma Rotate270MovesSquare()
    ensures RectToWrapped(Rotate270, Display64, Square4) == Rectangle(Point(60, 0), Size(4, 4))
  {
  }
}
