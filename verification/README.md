# Coordinate transform for embedded-graphics draw targets: a Dafny model

This project models the coordinate-transform decorator of
`embedded-graphics-coordinate-transform`. The decorator wraps any draw target
and remaps each drawing call so that the picture appears mirrored along x,
mirrored along y, transposed, or rotated by a multiple of 90 degrees. Its
behaviour comes from three flags: `MIRROR_X`, `MIRROR_Y` and `TRANSPOSE`.

- `geometry.dfy` (module `Geometry`): points, sizes, rectangles, pixels. It also
  gives the set of points a rectangle or a pixel sequence covers.
- `surface.dfy` (module `Surface`): the wrapped draw target, modelled through
  the interface the decorator uses. It has a fixed size and a pixel map. It logs
  every call it receives, and an optional fault makes every drawing call fail
  with that error value. Bulk drawing paints pixels in order, so the last write
  wins. A fill paints every point of its area. A clear paints every point of the
  target's bounds.
- `transform.dfy` (module `Transform`): the policy, as pure functions. A `Config`
  record holds the flags. The reported size is swapped when transposing. The
  point remap applies mirror-x, then mirror-y, then transpose, and measures
  both mirrors in the decorator's own logical width and height. The rectangle
  remap mirrors the whole span and then swaps origin and size. Lemmas prove
  the laws of the policy.
- `decorator.dfy` (module `Decorator`): the class `CoordinateTransform`. It holds
  the flags and the owned target. `DrawIter`, `FillSolid` and `Clear` change the
  target only by delegating to it, and return its result unchanged. The module
  also proves lemmas and client methods about what those calls do to the
  target's pixels.
- `configurations.dfy` (module `Configurations`): the eight named flag triples.
  It shows how nested decorators compose into one, proves that the rotations
  compose like rotations, and gives the concrete results on a 64×64 surface.

## Model

| member | source | states |
|---|---|---|
| `Decorator.CoordinateTransform.constructor` | src/transform.rs:30-33 | Wrapping takes the target as it is and fixes the flags. |
| `Decorator.CoordinateTransform.IntoInner` | src/transform.rs:35-38 | Unwrapping returns the owned target exactly as it now is. |
| `Decorator.WrapThenUnwrap` | src/transform.rs:31-38 | `into_inner(new(d))` is `d`, under every configuration. |
| `Decorator.CoordinateTransform.Size` | src/transform.rs:46-53 | The reported width is the wrapped height, and the reported height the wrapped width, exactly when `TRANSPOSE` is set. Otherwise both are the wrapped ones. |
| `Transform.LogicalSize` | src/transform.rs:46-53 | The policy's size: the reported width is the wrapped height, and the reported height the wrapped width, exactly when `TRANSPOSE` is set. The mirror flags play no part. |
| `Transform.SizeSwapsIffTranspose` | src/transform.rs:46-53 | The reported size is the wrapped size or its swap. On a non-square surface it differs from the wrapped size iff `TRANSPOSE` is set, whatever the mirror flags. Reporting twice gives back the wrapped size. |
| `Decorator.CoordinateTransform.DrawIter` | src/transform.rs:64-87 | The wrapped target receives one bulk draw of the input pixels. Each point is remapped in order: mirror x in the logical width, mirror y in the logical height, then swap. The result is the wrapped target's result, unchanged. |
| `Transform.RemapPoint` | src/transform.rs:72-85 | The point remap: mirror x in the logical width, then mirror y in the logical height, then swap; a disabled flag leaves its step the identity. The contract says the result is undone by `UnmapPoint`, and that a point inside the logical bounds lands inside the logical bounds swapped iff transposing. |
| `Transform.RemapPixels` | src/transform.rs:71-86 | The forwarded pixel sequence has the same length and order and the same colours. Each point is the point remap of the original point. |
| `Transform.RemapPointInverse` | src/transform.rs:72-85 | The point remap has a two-sided inverse, so it is a bijection of the plane for every configuration and size. |
| `Transform.RemapPointInjective` | src/transform.rs:72-85 | Two logical points land on the same wrapped point iff they are equal. |
| `Transform.RemapPointInBounds` | src/transform.rs:68-85 | Every point inside the decorator's bounds lands inside the wrapped surface's bounds. |
| `Transform.RemapBoundsBijection` | src/transform.rs:46-85 | The remap takes the set of points in the decorator's bounds onto exactly the set of points in the wrapped bounds, one to one. |
| `Transform.MirrorInvolution` | src/transform.rs:73-79 | Without transposition, remapping twice gives back the original point: each mirror undoes itself. |
| `Transform.RemapRect` | src/transform.rs:92-104 | The forwarded rectangle keeps its size, swapped iff `TRANSPOSE` is set. Only its origin is moved by mirroring. |
| `Transform.RemapRectPoints` | src/transform.rs:89-105 | The optimised rectangle remap covers exactly the set of points obtained by remapping every pixel of the rectangle one by one. |
| `Transform.RemapRectContains` | src/transform.rs:89-105 | A point lies in a rectangle iff its point remap lies in the remapped rectangle. |
| `Transform.RemapRectBounds` | src/transform.rs:89-105 | The decorator's whole logical area, remapped as a rectangle, is the wrapped surface's whole area. |
| `Transform.RemapPixelsPoints` | src/transform.rs:71-86 | The points touched by the forwarded pixels are the remapped points of the original pixels. |
| `Transform.RemapPixelsLastWrite` | src/transform.rs:71-86 | A pixel is overdrawn later in the forwarded sequence iff it was overdrawn later in the input, so overdraw order is preserved. |
| `Decorator.CoordinateTransform.FillSolid` | src/transform.rs:89-108 | The wrapped target receives one fill of the remapped rectangle, with the same colour. The result is the wrapped target's result, unchanged. |
| `Decorator.CoordinateTransform.Clear` | src/transform.rs:110-112 | The wrapped target receives a clear with the same colour and no remap. The result is its result, unchanged. |
| `Decorator.FillSolidMatchesDrawIter` | src/transform.rs:89-108 | Filling a rectangle through the decorator gives the wrapped target the same pixels as drawing, through the decorator, any one-colour pixel sequence that covers exactly that rectangle. |
| `Decorator.FillMatchesPointwiseDraw` | src/transform.rs:64-108 | Two decorators of one configuration over the same target are compared. One fills a rectangle and the other draws the rectangle's pixels one by one. They leave the same pixels. The first target received exactly one fill of the remapped rectangle, the second exactly one bulk draw of the remapped pixels. |
| `Decorator.DrawIterPaintsRemappedPoints` | src/transform.rs:64-87 | On a working target, drawing through the decorator puts each pixel's colour at its remapped point, unless a later pixel overdraws the same point. Wrapped points that no pixel reaches are unchanged. |
| `Decorator.ClearMatchesWholeFill` | src/transform.rs:110-112 | Clearing the wrapped target has the same effect on its pixels as filling the decorator's whole logical area through the decorator. |
| `Decorator.ClearIgnoresConfig` | src/transform.rs:110-112 | Clearing through decorators of any two configurations leaves the same target and returns the same result. On a working target, every point of its bounds gets the colour. |
| `Configurations.NestingIsOneTransform` | src/transform.rs:46-85 | A decorator wrapped around another one reports the same size and remaps points the same way as one decorator with configuration `Compose(outer, inner)`. |
| `Configurations.NestedIsComposeAll` | src/transform.rs:46-85 | A stack of any depth of nested decorators behaves, in size and in points, like the single decorator `ComposeAll` of the stack. |
| `Configurations.NamedConfigurations` | src/lib.rs:26-48 | The eight constants `MirrorX` … `Rotate270` are the (mirror x, mirror y, transpose) triples of the eight type aliases. `Rotate180` and `MirrorXY` are the same flag triple. `Rotate0` leaves sizes and points unchanged. |
| `Configurations.Rotate90Composes` | src/lib.rs:38-48 | `Rotate90` nested in `Rotate90` remaps like `Rotate180`. Three deep, it remaps like `Rotate270`. Four deep, it leaves sizes and points unchanged, like `Rotate0`. |
| `Configurations.Rotate270UndoesRotate90` | src/lib.rs:41-48 | `Rotate270` and `Rotate90` nested in either order leave every point unchanged. |
| `Configurations.AffectedArea` | src/tests.rs:10-20 | The decorator fills an area on an empty working surface. The points that get a colour are exactly the points of the forwarded rectangle. |
| `Configurations.MirrorXMovesSquare` | src/tests.rs:9-21 | On 64×64, `MirrorX` sends the 4×4 square at (0,0) to (60,0), size 4×4. |
| `Configurations.MirrorYMovesSquare` | src/tests.rs:24-36 | On 64×64, `MirrorY` sends the 4×4 square at (0,0) to (0,60), size 4×4. |
| `Configurations.TransposeXYSwapsSize` | src/tests.rs:39-51 | On 64×64, `TransposeXY` sends the 4×2 rectangle at (0,0) to (0,0), size 2×4. |
| `Configurations.TransposeXYReportsSwappedSize` | src/transform.rs:46-53 | Over a 128×64 surface, `TransposeXY` reports size 64×128. |
| `Configurations.Rotate0KeepsSquare` | src/tests.rs:54-66 | On 64×64, `Rotate0` leaves the 4×4 square at (0,0). |
| `Configurations.Rotate90MovesSquare` | src/tests.rs:69-81 | On 64×64, `Rotate90` sends the 4×4 square at (0,0) to (0,60). |
| `Configurations.Rotate90MirrorsInLogicalWidth` | src/transform.rs:89-104 | Over a 128×64 surface, `Rotate90` sends the 4×4 square at (0,0) to (0,60): the mirror is measured in the decorator's logical width 64, not the wrapped width 128. |
| `Configurations.Rotate180MovesSquare` | src/tests.rs:84-96 | On 64×64, `Rotate180` (the same triple as `MirrorXY`) sends the 4×4 square at (0,0) to (60,60). |
| `Configurations.Rotate270MovesSquare` | src/tests.rs:99-111 | On 64×64, `Rotate270` sends the 4×4 square at (0,0) to (60,0). |

## Left out

- Const-generic specialisation: each of the eight configurations is a separate type in the source. Here the flags are one runtime `Config` record, and the named configurations are constants of it.
- Machine integers: sizes are `u32` and coordinates `i32`, and the source casts `u32 as i32` and subtracts in `i32`. Here both are mathematical integers. The model agrees with the source whenever every size, coordinate and intermediate value fits in `i32`. Wrap-around and overflow panics outside that range are not modelled.
- `Deref`, `DerefMut`, `AsRef`, `AsMut` forwarding: the model has none of this trait plumbing. A caller reaches the wrapped target by reading the public `target` field, which applies no remap.
- `into_inner` consuming the decorator: Dafny cannot consume an object. `IntoInner` returns the target, and the decorator object stays allocated.
- Wrapped draw target internals: colour types are a type parameter and error values are opaque. The target's behaviour is an assumption of this model: it paints pixels in order, fills rectangles, clears its bounds and has an optional fault. A faulty target is assumed to change no pixel. Clipping and panics on out-of-range pixels are not modelled. The decorator passes out-of-range points on unchanged and does no bounds checking of its own.
- `Decorator.FillSolidMatchesDrawIter` and `Decorator.FillMatchesPointwiseDraw`: on a faulty target the pixel equality holds only because the target model assumes a failing call changes nothing. Neither claims that the fill and the point-by-point draw return the same result: they reach two different operations of the wrapped target, which may reply differently (a driver may reject a fill window that sticks out while skipping such pixels in a bulk draw). The model's `Reply` does not depend on the call, so it cannot show that difference.
- `fill_contiguous` and iterator laziness: the decorator does not override `fill_contiguous`, so it is not modelled. `DrawIter` takes a finite pixel sequence and builds the remapped sequence eagerly before delegating. The source's iterator is lazy.
- Primitive drawing in the tests: each test draws a fill-only styled rectangle. The model takes this to reach the decorator as one `fill_solid` call. The test's `affected_area` is the model's set of painted points, which `AffectedArea` relates to the forwarded rectangle.
- `examples/overview.rs`: simulator windows, the event loop, text and triangle rendering are demo code over other libraries, and are not modelled.
