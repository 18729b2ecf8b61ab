/**
 * The coordinate-transform decorator: it owns one wrapped draw target and a
 * fixed flag configuration, reports the wrapped size (swapped when
 * transposing), and remaps every drawing call before handing it on. Errors
 * are those of the wrapped target, returned unchanged.
 */
module Decorator {
  import opened Geometry
  import opened Surface
  import opened Transform

  class CoordinateTransform<C, E> {
    /** The three flags; they never change. */
    const config: Config
    /**
     * The owned draw target. Reading this field directly is the pass-through
     * access to the wrapped target, which applies no remap.
     */
    var target: Target<C, E>

    /** Wraps `target`; nothing is drawn. */
    constructor (target: Target<C, E>, config: Config)
      ensures this.target == target && this.config == config
    {
      this.target := target;
      this.config := config;
    }

    /** Gives the wrapped target back, exactly as it is now. */
    method IntoInner() returns (t: Target<C, E>)
      ensures t == target
    {
      t := target;
    }

    /** The decorator's size: the wrapped size, with width and height swapped iff transposing. */
    function Size(): (s: Size)
      reads this
      ensures s.width == (if config.transpose then target.size.height else target.size.width)
      ensures s.height == (if config.transpose then target.size.width else target.size.height)
    {
      LogicalSize(config, target.size)
    }

    /**
     * Remaps each pixel's point, one pixel at a time and in order, keeping its
     * colour, and hands the sequence to the wrapped target; returns what the
     * wrapped target returns.
     */
    method DrawIter(pixels: seq<Pixel<C>>) returns (r: Outcome<E>)
      modifies this
      ensures target == Receive(old(target), Call.DrawIter(RemapPixels(config, old(Size()), pixels)))
      ensures r == Reply(old(target))
    {
      var width := Size().width;
      var height := Size().height;
      var remapped: seq<Pixel<C>> := [];
      for i := 0 to |pixels|
        invariant remapped == RemapPixels(config, Size(), pixels[..i])
      {
        var point := pixels[i].point;
        if config.mirrorX {
          point := point.(x := width - 1 - point.x);
        }
        if config.mirrorY {
          point := point.(y := height - 1 - point.y);
        }
        if config.transpose {
          point := Point(point.y, point.x);
        }
        assert pixels[..i + 1] == pixels[..i] + [pixels[i]];
        remapped := remapped + [Pixel(point, pixels[i].color)];
      }
      assert pixels[..|pixels|] == pixels;
      r := Reply(target);
      target := Receive(target, Call.DrawIter(remapped));
    }

    /**
     * Mirrors the area's whole span and swaps its origin and size as the flags
     * say, then hands it to the wrapped target's fill; returns what that returns.
     */
    method FillSolid(area: Rectangle, color: C) returns (r: Outcome<E>)
      modifies this
      ensures target == Receive(old(target), Call.FillSolid(RemapRect(config, old(Size()), area), color))
      ensures r == Reply(old(target))
    {
      var width := Size().width;
      var height := Size().height;
      var a := area;
      if config.mirrorX {
        a := a.(topLeft := a.topLeft.(x := width - a.topLeft.x - a.size.width));
      }
      if config.mirrorY {
        a := a.(topLeft := a.topLeft.(y := height - a.topLeft.y - a.size.height));
      }
      if config.transpose {
        a := Rectangle(Point(a.topLeft.y, a.topLeft.x), a.size.(width := a.size.height, height := a.size.width));
      }
      assert a == RemapRect(config, Size(), area);
      r := Reply(target);
      target := Receive(target, Call.FillSolid(a, color));
    }

    /** Hands the colour to the wrapped target's clear, with no remap; returns what that returns. */
    method Clear(color: C) returns (r: Outcome<E>)
      modifies this
      ensures target == Receive(old(target), Call.Clear(color))
      ensures r == Reply(old(target))
    {
      r := Reply(target);
      target := Receive(target, Call.Clear(color));
    }
  }

  // ---------------------------------------------------------------------------
  // What the delegated calls do to the wrapped target's pixels
  // ---------------------------------------------------------------------------

  /**
   * Filling a rectangle through the decorator leaves the wrapped target with
   * the same pixels as drawing, through the decorator, any sequence of pixels
   * of one colour that covers exactly that rectangle.
   */
  lemma FillSolidMatchesDrawIter<C, E>(t: Target<C, E>, c: Config, logical: Size, area: Rectangle, ps: seq<Pixel<C>>, color: C)
    requires forall i :: 0 <= i < |ps| ==> ps[i].color == color
    requires PointsOf(ps) == Points(area)
    ensures Receive(t, Call.FillSolid(RemapRect(c, logical, area), color)).pixels
         == Receive(t, Call.DrawIter(RemapPixels(c, logical, ps))).pixels
  {
    if t.fault.None? {
      var rs := RemapPixels(c, logical, ps);
      PaintUniform(t.pixels, rs, color);
      RemapPixelsPoints(c, logical, ps);
      RemapRectPoints(c, logical, area);
    }
  }

  /**
   * Drawing through the decorator puts each pixel's colour at its remapped
   * point unless a later pixel overdraws the same logical point, and leaves
   * every wrapped point that no pixel reaches as it was.
   */
  lemma DrawIterPaintsRemappedPoints<C, E>(t: Target<C, E>, c: Config, logical: Size, ps: seq<Pixel<C>>)
    requires t.fault.None?
    ensures forall i :: 0 <= i < |ps| && LastWrite(ps, i) ==>
      Receive(t, Call.DrawIter(RemapPixels(c, logical, ps))).pixels[RemapPoint(c, logical, ps[i].point)] == ps[i].color
    ensures forall q :: q in t.pixels && (forall i :: 0 <= i < |ps| ==> RemapPoint(c, logical, ps[i].point) != q) ==>
      Receive(t, Call.DrawIter(RemapPixels(c, logical, ps))).pixels[q] == t.pixels[q]
  {
    var rs := RemapPixels(c, logical, ps);
    forall i | 0 <= i < |ps| && LastWrite(ps, i) ensures LastWrite(rs, i) {
      RemapPixelsLastWrite(c, logical, ps, i);
    }
    forall q | q in t.pixels && (forall i :: 0 <= i < |ps| ==> RemapPoint(c, logical, ps[i].point) != q)
      ensures q !in PointsOf(rs)
    {
      assert forall i :: 0 <= i < |rs| ==> rs[i].point != q;
    }
  }

  /** Clearing is the same as filling the decorator's whole logical area through the decorator. */
  lemma ClearMatchesWholeFill<C, E>(t: Target<C, E>, c: Config, color: C)
    ensures Receive(t, Call.Clear(color)).pixels
         == Receive(t, Call.FillSolid(RectToWrapped(c, t.size, Bounds(LogicalSize(c, t.size))), color)).pixels
  {
    RemapRectBounds(c, t.size);
  }

  // ---------------------------------------------------------------------------
  // Clients of the decorator
  // ---------------------------------------------------------------------------

  /** Unwrapping a freshly wrapped target gives the target back unchanged. */
  method WrapThenUnwrap<C, E>(t: Target<C, E>, c: Config) returns (t': Target<C, E>)
    ensures t' == t
  {
    var d := new CoordinateTransform(t, c);
    t' := d.IntoInner();
  }

  /** Clearing through decorators of any two configurations has the same effect and result. */
  method ClearIgnoresConfig<C, E>(t: Target<C, E>, c1: Config, c2: Config, color: C)
    returns (t1: Target<C, E>, t2: Target<C, E>, r1: Outcome<E>, r2: Outcome<E>)
    ensures t1 == t2 && r1 == r2
    ensures t.fault.None? ==> t1.pixels == Overwrite(t.pixels, Points(Bounds(t.size)), color)
  {
    var d1 := new CoordinateTransform(t, c1);
    var d2 := new CoordinateTransform(t, c2);
    r1 := d1.Clear(color);
    r2 := d2.Clear(color);
    t1 := d1.IntoInner();
    t2 := d2.IntoInner();
  }

  /**
   * Filling a rectangle through a decorator and drawing its pixels one by one
   * through another decorator of the same configuration over the same target
   * leave the same pixels. Each wrapped target received exactly its own
   * forwarded call: the remapped rectangle, or the remapped pixel sequence.
   */
  method FillMatchesPointwiseDraw<C, E>(t: Target<C, E>, c: Config, area: Rectangle, ps: seq<Pixel<C>>, color: C)
    returns (filled: Target<C, E>, drawn: Target<C, E>)
    requires forall i :: 0 <= i < |ps| ==> ps[i].color == color
    requires PointsOf(ps) == Points(area)
    ensures filled.pixels == drawn.pixels
    ensures filled.calls == t.calls + [Call.FillSolid(RectToWrapped(c, t.size, area), color)]
    ensures drawn.calls == t.calls + [Call.DrawIter(RemapPixels(c, LogicalSize(c, t.size), ps))]
  {
    var d1 := new CoordinateTransform(t, c);
    var d2 := new CoordinateTransform(t, c);
    var _ := d1.FillSolid(area, color);
    var _ := d2.DrawIter(ps);
    filled := d1.IntoInner();
    drawn := d2.IntoInner();
    FillSolidMatchesDrawIter(t, c, LogicalSize(c, t.size), area, ps, color);
  }
}
