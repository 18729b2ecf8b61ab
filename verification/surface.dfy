/**
 * The wrapped draw target, seen only through the interface it offers the
 * decorator: a size, bulk point drawing, rectangle fill and clear. Its
 * internals belong to another library, so it is modelled abstractly as a
 * map from points to colours, the log of the calls it received, and an
 * optional fault that makes every drawing call fail with that error value.
 */
module Surface {
  import opened Geometry

  datatype Option<T> = None | Some(value: T)

  /** The result of a drawing call, `Result<(), E>`. */
  datatype Outcome<E> = Ok | Err(error: E)

  /** A drawing call as the wrapped target receives it. */
  datatype Call<C> =
    | DrawIter(pixels: seq<Pixel<C>>)
    | FillSolid(area: Rectangle, color: C)
    | Clear(color: C)

  /** A draw target of fixed size with its pixel contents, its fault, and every call it received. */
  datatype Target<C, E> = Target(size: Size, pixels: map<Point, C>, fault: Option<E>, calls: seq<Call<C>>)

  /** Draws `ps` in order onto `m`; where two pixels share a point, the later one wins. */
  function Paint<C>(m: map<Point, C>, ps: seq<Pixel<C>>): (r: map<Point, C>)
    ensures r.Keys == m.Keys + PointsOf(ps)
    ensures forall p :: p in m && p !in PointsOf(ps) ==> r[p] == m[p]
    ensures forall i :: 0 <= i < |ps| && LastWrite(ps, i) ==> r[ps[i].point] == ps[i].color
    decreases |ps|
  {
    if ps == [] then
      m
    else
      var rest := ps[1..];
      PointsOfFirstRest(ps);
      assert forall i :: 1 <= i < |ps| && LastWrite(ps, i) ==> LastWrite(rest, i - 1) by {
        forall i | 1 <= i < |ps| && LastWrite(ps, i) ensures LastWrite(rest, i - 1) {
          forall j | i - 1 < j < |rest| ensures rest[j].point != rest[i - 1].point {
            assert rest[j] == ps[j + 1];
          }
        }
      }
      assert LastWrite(ps, 0) ==> ps[0].point !in PointsOf(rest) by {
        if LastWrite(ps, 0) {
          forall j | 0 <= j < |rest| ensures rest[j].point != ps[0].point {
            assert rest[j] == ps[j + 1];
          }
        }
      }
      Paint(m[ps[0].point := ps[0].color], rest)
  }

  /** `m` with every point of `s` set to `c`, and nothing else changed. */
  function Overwrite<C>(m: map<Point, C>, s: set<Point>, c: C): (r: map<Point, C>)
    ensures r.Keys == m.Keys + s
    ensures forall p :: p in s ==> r[p] == c
    ensures forall p :: p in m && p !in s ==> r[p] == m[p]
  {
    map p | p in m.Keys + s :: if p in s then c else m[p]
  }

  /**
   * The target after it received `call`: the call is logged, and unless the
   * target is faulty its pixels change as the call says. Filling paints every
   * point of the area; clearing paints every point of the target's bounds.
   */
  function Receive<C, E>(t: Target<C, E>, call: Call<C>): (t': Target<C, E>)
    ensures t'.size == t.size && t'.fault == t.fault && t'.calls == t.calls + [call]
    ensures t.fault.Some? ==> t'.pixels == t.pixels
  {
    var pixels :=
      if t.fault.Some? then t.pixels
      else match call
        case DrawIter(ps) => Paint(t.pixels, ps)
        case FillSolid(area, c) => Overwrite(t.pixels, Points(area), c)
        case Clear(c) => Overwrite(t.pixels, Points(Bounds(t.size)), c);
    t.(pixels := pixels, calls := t.calls + [call])
  }

  /** What a drawing call on `t` returns: its fault as the error, or success. */
  function Reply<C, E>(t: Target<C, E>): (r: Outcome<E>)
    ensures r.Err? <==> t.fault.Some?
    ensures r.Err? ==> r.error == t.fault.value
  {
    if t.fault.Some? then Err(t.fault.value) else Ok
  }

  /** Drawing pixels that all have colour `c` paints exactly the points they touch with `c`. */
  lemma {:induction false} PaintUniform<C>(m: map<Point, C>, ps: seq<Pixel<C>>, c: C)
    requires forall i :: 0 <= i < |ps| ==> ps[i].color == c
    ensures Paint(m, ps) == Overwrite(m, PointsOf(ps), c)
    decreases |ps|
  {
    if ps == [] {
      assert PointsOf(ps) == {};
      assert Overwrite(m, {}, c) == m;
    } else {
      var rest := ps[1..];
      var m' := m[ps[0].point := c];
      PointsOfFirstRest(ps);
      PaintUniform(m', rest, c);
      var lhs, rhs := Overwrite(m', PointsOf(rest), c), Overwrite(m, PointsOf(ps), c);
      assert lhs.Keys == rhs.Keys;
      forall p | p in lhs ensures lhs[p] == rhs[p] {
        if p !in PointsOf(ps) {
          assert p != ps[0].point && p !in PointsOf(rest);
        }
      }
    }
  }
}
