/**
  Frame rotations as maps on rectangles and as sampling matrices, and the pipeline that takes
  damage from the pixels of a framebuffer to the pixels of the desktop.
 */
module Transform {
  import opened Boxes

  datatype Rotation =
    | Normal | R90 | R180 | R270
    | Flipped | Flipped90 | Flipped180 | Flipped270

  // ---------------------------------------------------------------- rectangles

  predicate IsQuarterTurn(t: Rotation) { t.R90? || t.R270? || t.Flipped90? || t.Flipped270? }

  datatype Size = Size(width: nat, height: nat)

  function Dimensions(t: Rotation, size: Size): Size {
    if IsQuarterTurn(t) then Size(size.height, size.width) else size
  }

  function RotateBox(t: Rotation, b: Box, size: Size): Box {
    var w, h := size.width, size.height;
    match t
    case Normal => b
    case R90 => Box(h - b.y2, b.x1, h - b.y1, b.x2)
    case R180 => Box(w - b.x2, h - b.y2, w - b.x1, h - b.y1)
    case R270 => Box(b.y1, w - b.x2, b.y2, w - b.x1)
    case Flipped => Box(w - b.x2, b.y1, w - b.x1, b.y2)
    case Flipped90 => Box(b.y1, b.x1, b.y2, b.x2)
    case Flipped180 => Box(b.x1, h - b.y2, b.x2, h - b.y1)
    case Flipped270 => Box(h - b.y2, w - b.x2, h - b.y1, w - b.x1)
  }

  datatype Pixel = Pixel(x: int, y: int)

  /** Where a single pixel goes. */
  function Rotate(t: Rotation, p: Pixel, size: Size): Pixel {
    var b := RotateBox(t, Box(p.x, p.y, p.x + 1, p.y + 1), size);
    Pixel(b.x1, b.y1)
  }

  // ---------------------------------------------------------------- matrices

  /** The upper two rows of a matrix of 16.16 fixed-point numbers, where 1 is 65536; the third row is `0 0 1`. */
  datatype Matrix = Matrix(xx: int, xy: int, x0: int, yx: int, yy: int, y0: int)

  /** The matrix that takes points of the rotated frame back to points of the frame. */
  function ToPixman(t: Rotation, size: Size): Matrix {
    var w, h := size.width, size.height;
    match t
    case Normal => Matrix(65536, 0, 0, 0, 65536, 0)
    case R90 => Matrix(0, 65536, 0, -65536, 0, h * 65536)
    case R180 => Matrix(-65536, 0, w * 65536, 0, -65536, h * 65536)
    case R270 => Matrix(0, -65536, w * 65536, 65536, 0, 0)
    case Flipped => Matrix(-65536, 0, w * 65536, 0, 65536, 0)
    case Flipped90 => Matrix(0, 65536, 0, 65536, 0, 0)
    case Flipped180 => Matrix(65536, 0, 0, 0, -65536, h * 65536)
    case Flipped270 => Matrix(0, -65536, w * 65536, -65536, 0, h * 65536)
  }

  datatype RealPoint = RealPoint(u: real, v: real)

  function Apply(m: Matrix, p: RealPoint): RealPoint {
    RealPoint((m.xx as real * p.u + m.xy as real * p.v + m.x0 as real) / 65536.0,
          (m.yx as real * p.u + m.yy as real * p.v + m.y0 as real) / 65536.0)
  }

  function Centre(p: Pixel): RealPoint { RealPoint(p.x as real + 0.5, p.y as real + 0.5) }

  function PixelAt(p: RealPoint): Pixel { Pixel(p.u.Floor, p.v.Floor) }

  /** The frame pixel that a pixel of the rotated frame shows. */
  function Sample(t: Rotation, size: Size, p: Pixel): Pixel {
    PixelAt(Apply(ToPixman(t, size), Centre(p)))
  }

  // ---------------------------------------------------------------- the two agree

  /** The matrix without the fixed-point units. */
  lemma MatrixIs(t: Rotation, size: Size, p: RealPoint)
    ensures var w, h := size.width as real, size.height as real;
      Apply(ToPixman(t, size), p) == match t
        case Normal => p
        case R90 => RealPoint(p.v, h - p.u)
        case R180 => RealPoint(w - p.u, h - p.v)
        case R270 => RealPoint(w - p.v, p.u)
        case Flipped => RealPoint(w - p.u, p.v)
        case Flipped90 => RealPoint(p.v, p.u)
        case Flipped180 => RealPoint(p.u, h - p.v)
        case Flipped270 => RealPoint(w - p.v, h - p.u)
  {
  }

  /** The matrix takes the centre of a rotated pixel exactly to the centre of the pixel. */
  lemma MatrixUndoesRotation(t: Rotation, size: Size, p: Pixel)
    ensures Apply(ToPixman(t, size), Centre(Rotate(t, p, size))) == Centre(p)
    ensures Sample(t, size, Rotate(t, p, size)) == p
  {
    MatrixIs(t, size, Centre(Rotate(t, p, size)));
  }

  /** ... and the other way round, so both are bijections of the grid. */
  lemma {:induction false} RotationUndoesMatrix(t: Rotation, size: Size, p: Pixel)
    ensures Rotate(t, Sample(t, size, p), size) == p
    ensures Apply(ToPixman(t, size), Centre(p)) == Centre(Sample(t, size, p))
  {
    MatrixIs(t, size, Centre(p));
  }

  predicate InSize(size: Size, p: Pixel) { 0 <= p.x < size.width && 0 <= p.y < size.height }

  /** The pixels of the frame and of the rotated frame correspond. */
  lemma GridOntoGrid(t: Rotation, size: Size, p: Pixel)
    ensures InSize(size, p) <==> InSize(Dimensions(t, size), Rotate(t, p, size))
  {
  }

  /** A rotated rectangle holds exactly the rotated pixels of the rectangle. */
  lemma RotateBoxIsPointwise(t: Rotation, b: Box, size: Size, p: Pixel)
    ensures InBox(RotateBox(t, b, size), p.x, p.y)
      <==> InBox(b, Sample(t, size, p).x, Sample(t, size, p).y)
  {
    RotationUndoesMatrix(t, size, p);
  }

  function Inverse(t: Rotation): Rotation {
    if t == R90 then R270 else if t == R270 then R90 else t
  }

  /** Rotating back: the quarter turns undo each other, all others undo themselves. */
  lemma RotateBack(t: Rotation, b: Box, size: Size)
    ensures RotateBox(Inverse(t), RotateBox(t, b, size), Dimensions(t, size)) == b
    ensures Dimensions(Inverse(t), Dimensions(t, size)) == size
  {
  }

  /** `nvnc_transform_region` */
  method TransformRegion(src: seq<Box>, t: Rotation, size: Size) returns (dst: seq<Box>)
    ensures forall p: Pixel :: Covers(dst, p.x, p.y) <==> Covers(src, Sample(t, size, p).x, Sample(t, size, p).y)
    ensures AllProper(src) ==> AllProper(dst)
  {
    if t == Normal {
      forall p: Pixel ensures Sample(t, size, p) == p {
        RotationUndoesMatrix(t, size, p);
      }
      return src;
    }
    var rects := [];
    for i := 0 to |src|
      invariant |rects| == i
      invariant forall k :: 0 <= k < i ==> rects[k] == RotateBox(t, src[k], size)
    {
      rects := rects + [RotateBox(t, src[i], size)];
    }
    forall p: Pixel
      ensures Covers(rects, p.x, p.y) <==> Covers(src, Sample(t, size, p).x, Sample(t, size, p).y)
    {
      RotatedRects(t, size, src, rects, p);
    }
    return rects;
  }

  lemma RotatedRects(t: Rotation, size: Size, src: seq<Box>, dst: seq<Box>, p: Pixel)
    requires |src| == |dst| && forall k :: 0 <= k < |dst| ==> dst[k] == RotateBox(t, src[k], size)
    ensures Covers(dst, p.x, p.y) <==> Covers(src, Sample(t, size, p).x, Sample(t, size, p).y)
  {
    var q := Sample(t, size, p);
    forall k | 0 <= k < |dst| ensures InBox(dst[k], p.x, p.y) <==> InBox(src[k], q.x, q.y) {
      RotateBoxIsPointwise(t, src[k], size, p);
    }
  }

  // ---------------------------------------------------------------- scaling

  function Ceil(r: real): int { -((-r).Floor) }

  /** Grid line `x`, scaled. */
  function Line(x: int, s: real): real { x as real * s }

  function ScaleBox(b: Box, hs: real, vs: real): Box {
    Box(Line(b.x1, hs).Floor, Line(b.y1, vs).Floor, Ceil(Line(b.x2, hs)), Ceil(Line(b.y2, vs)))
  }

  /** The image of the unit interval at `x` under scaling by `s` overlaps the unit interval at `X`. */
  predicate Touches(X: int, x: int, s: real) {
    Line(x, s) < X as real + 1.0 && (X as real) < Line(x + 1, s)
  }

  /** Scaling keeps the order: `q` lies on the same side of line `x` as `d`, its image, of the scaled line. */
  lemma Side(q: real, d: real, x: int, s: real)
    requires s > 0.0 && q * s == d
    ensures q < x as real <==> d < Line(x, s)
    ensures x as real < q <==> Line(x, s) < d
  {
    var y := x as real;
    assert (q < y) == (q * s < y * s);
    assert (y < q) == (y * s < q * s);
  }

  lemma LinesAreOrdered(x: int, y: int, s: real)
    requires s > 0.0 && x <= y
    ensures Line(x, s) <= Line(y, s)
  {
    Side(x as real, Line(x, s), y, s);
  }

  /** A rounded-out interval holds exactly the unit intervals touched by the image of one of its own. */
  lemma IntervalTouch(x1: int, x2: int, s: real, X: int)
    requires s > 0.0 && x1 < x2
    ensures Line(x1, s).Floor <= X < Ceil(Line(x2, s)) <==> exists x :: x1 <= x < x2 && Touches(X, x, s)
  {
    if Line(x1, s).Floor <= X < Ceil(Line(x2, s)) {
      var x := TouchWitness(x1, x2, s, X);
    }
    forall x | x1 <= x < x2 && Touches(X, x, s)
      ensures Line(x1, s).Floor <= X < Ceil(Line(x2, s))
    {
      LinesAreOrdered(x1, x, s);
      LinesAreOrdered(x + 1, x2, s);
    }
  }

  lemma TouchWitness(x1: int, x2: int, s: real, X: int) returns (x: int)
    requires s > 0.0 && x1 < x2
    requires Line(x1, s).Floor <= X < Ceil(Line(x2, s))
    ensures x1 <= x < x2 && Touches(X, x, s)
  {
    var q := X as real / s;
    assert q * s == X as real;
    x := if q.Floor >= x1 then q.Floor else x1;
    Side(q, X as real, x2, s);
    Side(q, X as real, x + 1, s);
    Side(q, X as real, x, s);
  }

  predicate TouchesPixel(X: int, Y: int, x: int, y: int, hs: real, vs: real) {
    Touches(X, x, hs) && Touches(Y, y, vs)
  }

  lemma ScaleBoxIsTight(b: Box, hs: real, vs: real, X: int, Y: int)
    requires Proper(b) && hs > 0.0 && vs > 0.0
    ensures InBox(ScaleBox(b, hs, vs), X, Y)
      <==> exists x, y :: InBox(b, x, y) && TouchesPixel(X, Y, x, y, hs, vs)
  {
    IntervalTouch(b.x1, b.x2, hs, X);
    IntervalTouch(b.y1, b.y2, vs, Y);
    if InBox(ScaleBox(b, hs, vs), X, Y) {
      var x :| b.x1 <= x < b.x2 && Touches(X, x, hs);
      var y :| b.y1 <= y < b.y2 && Touches(Y, y, vs);
      assert InBox(b, x, y) && TouchesPixel(X, Y, x, y, hs, vs);
    }
    forall x, y | InBox(b, x, y) && TouchesPixel(X, Y, x, y, hs, vs)
      ensures InBox(ScaleBox(b, hs, vs), X, Y)
    {
    }
  }

  /** What scaling a region means: all pixels that the image of one of its pixels overlaps. */
  ghost predicate ScaledCovers(src: seq<Box>, hs: real, vs: real, X: int, Y: int) {
    exists x, y :: Covers(src, x, y) && TouchesPixel(X, Y, x, y, hs, vs)
  }

  /** `nvnc_region_scale` */
  method ScaleRegion(src: seq<Box>, hs: real, vs: real) returns (dst: seq<Box>)
    requires AllProper(src) && hs > 0.0 && vs > 0.0
    ensures AllProper(dst)
    ensures forall X, Y :: Covers(dst, X, Y) <==> ScaledCovers(src, hs, vs, X, Y)
  {
    if hs == 1.0 && vs == 1.0 {
      forall X, Y ensures Covers(src, X, Y) <==> ScaledCovers(src, hs, vs, X, Y) {
        UnscaledCovers(src, X, Y);
      }
      return src;
    }
    dst := [];
    for i := 0 to |src|
      invariant |dst| == i
      invariant forall k :: 0 <= k < i ==> dst[k] == ScaleBox(src[k], hs, vs)
    {
      dst := dst + [ScaleBox(src[i], hs, vs)];
    }
    forall X, Y ensures Covers(dst, X, Y) <==> ScaledCovers(src, hs, vs, X, Y) {
      ScaledRects(src, dst, hs, vs, X, Y);
    }
    dst := Normalise(dst);
  }

  lemma UnscaledCovers(src: seq<Box>, X: int, Y: int)
    ensures Covers(src, X, Y) <==> ScaledCovers(src, 1.0, 1.0, X, Y)
  {
    assert TouchesPixel(X, Y, X, Y, 1.0, 1.0);
    forall x, y | TouchesPixel(X, Y, x, y, 1.0, 1.0) ensures x == X && y == Y {
    }
  }

  lemma ScaledRects(src: seq<Box>, dst: seq<Box>, hs: real, vs: real, X: int, Y: int)
    requires AllProper(src) && hs > 0.0 && vs > 0.0
    requires |src| == |dst| && forall k :: 0 <= k < |dst| ==> dst[k] == ScaleBox(src[k], hs, vs)
    ensures Covers(dst, X, Y) <==> ScaledCovers(src, hs, vs, X, Y)
  {
    if Covers(dst, X, Y) {
      var k :| 0 <= k < |dst| && InBox(dst[k], X, Y);
      ScaleBoxIsTight(src[k], hs, vs, X, Y);
      var x, y :| InBox(src[k], x, y) && TouchesPixel(X, Y, x, y, hs, vs);
      assert Covers(src, x, y);
    }
    if ScaledCovers(src, hs, vs, X, Y) {
      var x, y :| Covers(src, x, y) && TouchesPixel(X, Y, x, y, hs, vs);
      var k :| 0 <= k < |src| && InBox(src[k], x, y);
      ScaleBoxIsTight(src[k], hs, vs, X, Y);
    }
  }

  /** `nvnc_region_translate` */
  method TranslateRegion(src: seq<Box>, dx: int, dy: int) returns (dst: seq<Box>)
    ensures forall x, y :: Covers(dst, x, y) <==> Covers(src, x - dx, y - dy)
  {
    if dx == 0 && dy == 0 {
      return src;
    }
    dst := [];
    for i := 0 to |src|
      invariant |dst| == i
      invariant forall k :: 0 <= k < i ==>
        dst[k] == Box(src[k].x1 + dx, src[k].y1 + dy, src[k].x2 + dx, src[k].y2 + dy)
    {
      var r := src[i];
      dst := dst + [Box(r.x1 + dx, r.y1 + dy, r.x2 + dx, r.y2 + dy)];
    }
    forall x, y ensures Covers(dst, x, y) <==> Covers(src, x - dx, y - dy) {
      assert forall k :: 0 <= k < |src| ==> (InBox(dst[k], x, y) <==> InBox(src[k], x - dx, y - dy));
    }
  }

  // ---------------------------------------------------------------- the pipeline

  /** How a frame lies on the desktop; a logical size of zero in either direction means unscaled. */
  datatype Placement = Placement(t: Rotation, size: Size, logical: Size, dx: int, dy: int)

  predicate IsScaled(pl: Placement) { pl.logical.width != 0 && pl.logical.height != 0 }

  function HScale(pl: Placement): real
    requires pl.size.width > 0 && pl.size.height > 0
  {
    if IsScaled(pl) then pl.logical.width as real / Dimensions(pl.t, pl.size).width as real else 1.0
  }

  function VScale(pl: Placement): real
    requires pl.size.width > 0 && pl.size.height > 0
  {
    if IsScaled(pl) then pl.logical.height as real / Dimensions(pl.t, pl.size).height as real else 1.0
  }

  /** The desktop pixel `(X, Y)` overlaps the image of frame pixel `p`. */
  ghost predicate Shows(pl: Placement, X: int, Y: int, p: Pixel)
    requires pl.size.width > 0 && pl.size.height > 0
  {
    var q := Rotate(pl.t, p, pl.size);
    TouchesPixel(X - pl.dx, Y - pl.dy, q.x, q.y, HScale(pl), VScale(pl))
  }

  /** What the damage of a frame means on the desktop. */
  ghost predicate DesktopDamage(pl: Placement, damage: seq<Box>, X: int, Y: int)
    requires pl.size.width > 0 && pl.size.height > 0
  {
    exists p: Pixel :: Covers(damage, p.x, p.y) && Shows(pl, X, Y, p)
  }

  /** The damage part of `nvnc_display_feed_frame`: rotate, scale, translate. */
  method PlaceDamage(pl: Placement, damage: seq<Box>) returns (placed: seq<Box>)
    requires pl.size.width > 0 && pl.size.height > 0
    ensures forall X, Y :: Covers(placed, X, Y) <==> DesktopDamage(pl, damage, X, Y)
  {
    var rotated := TransformRegion(damage, pl.t, pl.size);
    var rects := Normalise(rotated);
    var hs, vs := 1.0, 1.0;
    if pl.logical.width != 0 && pl.logical.height != 0 {
      var d := Dimensions(pl.t, pl.size);
      hs := pl.logical.width as real / d.width as real;
      vs := pl.logical.height as real / d.height as real;
      PositiveRatio(pl.logical.width, d.width);
      PositiveRatio(pl.logical.height, d.height);
    }
    var scaled := ScaleRegion(rects, hs, vs);
    placed := TranslateRegion(scaled, pl.dx, pl.dy);
    forall X, Y ensures Covers(placed, X, Y) <==> DesktopDamage(pl, damage, X, Y) {
      PlacedIsDesktop(pl, damage, rects, X, Y);
    }
  }

  lemma PositiveRatio(a: nat, b: nat)
    requires a > 0 && b > 0
    ensures a as real / b as real > 0.0
  {
  }

  lemma PlacedIsDesktop(pl: Placement, damage: seq<Box>, rects: seq<Box>, X: int, Y: int)
    requires pl.size.width > 0 && pl.size.height > 0
    requires forall p: Pixel ::
      Covers(rects, p.x, p.y) <==> Covers(damage, Sample(pl.t, pl.size, p).x, Sample(pl.t, pl.size, p).y)
    ensures ScaledCovers(rects, HScale(pl), VScale(pl), X - pl.dx, Y - pl.dy) <==> DesktopDamage(pl, damage, X, Y)
  {
    var hs, vs := HScale(pl), VScale(pl);
    if ScaledCovers(rects, hs, vs, X - pl.dx, Y - pl.dy) {
      var x, y :| Covers(rects, x, y) && TouchesPixel(X - pl.dx, Y - pl.dy, x, y, hs, vs);
      RotationUndoesMatrix(pl.t, pl.size, Pixel(x, y));
      assert Shows(pl, X, Y, Sample(pl.t, pl.size, Pixel(x, y)));
    }
    if DesktopDamage(pl, damage, X, Y) {
      var p: Pixel :| Covers(damage, p.x, p.y) && Shows(pl, X, Y, p);
      MatrixUndoesRotation(pl.t, pl.size, p);
      var q := Rotate(pl.t, p, pl.size);
      assert Covers(rects, q.x, q.y);
    }
  }

  // ---------------------------------------------------------------- what a desktop pixel shows

  /** The point of the frame that the desktop shows at `d`, through translation, scale and matrix. */
  function Pull(pl: Placement, d: RealPoint): RealPoint
    requires pl.size.width > 0 && pl.size.height > 0 && HScale(pl) > 0.0 && VScale(pl) > 0.0
  {
    Apply(ToPixman(pl.t, pl.size), RealPoint((d.u - pl.dx as real) / HScale(pl), (d.v - pl.dy as real) / VScale(pl)))
  }

  predicate Inside(p: Pixel, d: RealPoint) {
    p.x as real < d.u < p.x as real + 1.0 && p.y as real < d.v < p.y as real + 1.0
  }

  lemma ScalesArePositive(pl: Placement)
    requires pl.size.width > 0 && pl.size.height > 0
    ensures HScale(pl) > 0.0 && VScale(pl) > 0.0
  {
    if IsScaled(pl) {
      PositiveRatio(pl.logical.width, Dimensions(pl.t, pl.size).width);
      PositiveRatio(pl.logical.height, Dimensions(pl.t, pl.size).height);
    }
  }

  /** The matrix takes the inside of a rotated pixel to the inside of the pixel, and nothing else there. */
  lemma InsideRotated(t: Rotation, size: Size, p: Pixel, d: RealPoint)
    ensures Inside(p, Apply(ToPixman(t, size), d)) <==> Inside(Rotate(t, p, size), d)
  {
    MatrixIs(t, size, d);
  }

  /**
    No change is lost on the way to the desktop: if any point of desktop pixel `(X, Y)` shows
    the inside of a damaged frame pixel, then `(X, Y)` is damaged.
   */
  lemma {:induction false} ShownChangeIsDamaged(pl: Placement, damage: seq<Box>, p: Pixel, d: RealPoint, X: int, Y: int)
    requires pl.size.width > 0 && pl.size.height > 0 && HScale(pl) > 0.0 && VScale(pl) > 0.0
    requires Covers(damage, p.x, p.y)
    requires X as real <= d.u < X as real + 1.0 && Y as real <= d.v < Y as real + 1.0
    requires Inside(p, Pull(pl, d))
    ensures DesktopDamage(pl, damage, X, Y)
  {
    var hs, vs := HScale(pl), VScale(pl);
    var e := RealPoint((d.u - pl.dx as real) / hs, (d.v - pl.dy as real) / vs);
    InsideRotated(pl.t, pl.size, p, e);
    var q := Rotate(pl.t, p, pl.size);
    TouchesAround(X - pl.dx, q.x, hs, e.u, d.u - pl.dx as real);
    TouchesAround(Y - pl.dy, q.y, vs, e.v, d.v - pl.dy as real);
    assert Shows(pl, X, Y, p);
  }

  lemma TouchesAround(X: int, x: int, s: real, e: real, d: real)
    requires s > 0.0 && e == d / s && X as real <= d < X as real + 1.0 && x as real < e < x as real + 1.0
    ensures Touches(X, x, s)
  {
    assert e * s == d;
    Side(e, d, x, s);
    Side(e, d, x + 1, s);
  }

  /** What a pixel of the frame damages lies within the area that the frame occupies on the desktop. */
  lemma {:induction false} DamageStaysOnDisplay(pl: Placement, p: Pixel, X: int, Y: int)
    requires pl.size.width > 0 && pl.size.height > 0 && InSize(pl.size, p)
    requires Shows(pl, X, Y, p)
    ensures var area := if IsScaled(pl) then pl.logical else Dimensions(pl.t, pl.size);
      InSize(area, Pixel(X - pl.dx, Y - pl.dy))
  {
    ScalesArePositive(pl);
    GridOntoGrid(pl.t, pl.size, p);
    var q, d := Rotate(pl.t, p, pl.size), Dimensions(pl.t, pl.size);
    WithinScaled(X - pl.dx, q.x, d.width, HScale(pl));
    WithinScaled(Y - pl.dy, q.y, d.height, VScale(pl));
    LastLine(pl);
  }

  lemma WithinScaled(X: int, x: int, w: nat, s: real)
    requires s > 0.0 && 0 <= x < w && Touches(X, x, s)
    ensures 0 <= X && X as real < Line(w, s)
  {
    LinesAreOrdered(0, x, s);
    LinesAreOrdered(x + 1, w, s);
  }

  /** The far edges of the rotated frame are scaled to the far edges of the logical area. */
  lemma LastLine(pl: Placement)
    requires pl.size.width > 0 && pl.size.height > 0
    ensures var d := Dimensions(pl.t, pl.size); var area := if IsScaled(pl) then pl.logical else d;
      Line(d.width, HScale(pl)) == area.width as real && Line(d.height, VScale(pl)) == area.height as real
  {
    if IsScaled(pl) {
      RatioTimes(pl.logical.width, Dimensions(pl.t, pl.size).width);
      RatioTimes(pl.logical.height, Dimensions(pl.t, pl.size).height);
    }
  }

  lemma RatioTimes(a: nat, b: nat)
    requires b > 0
    ensures b as real * (a as real / b as real) == a as real
  {
  }
}
