/**
 * The depth-buffered framebuffer: a colour grid beside a depth grid of the same
 * `width * height` cells, a depth-tested point write, an overlay write that
 * bypasses the depth test, two resets and a bounds-checked read.
 *
 * The state is described twice: as a value (`Frame`) with one function per
 * operation, about which the laws of the depth test are proved, and as the
 * class `Framebuffer`, whose methods update two arrays in place and promise
 * that the new state is the function of the old one.
 */
module Framebuffer {
  import opened Values

  /** Rust's `i32`. */
  type I32 = x: int | -0x8000_0000 <= x <= 0x7fff_ffff

  const I32Max: int := 0x7fff_ffff

  /** An `f32` depth cell: a finite depth, or the `f32::INFINITY` of a cell nothing was drawn to. */
  datatype Depth = Finite(value: real) | Infinity

  /** The depth test `depth < stored`: `d` is strictly nearer than `stored`. */
  predicate Nearer(d: Depth, stored: Depth) {
    match d
    case Infinity => false
    case Finite(a) => stored.Infinity? || a < stored.value
  }

  /** `d <= e` on depths. */
  predicate NoFarther(d: Depth, e: Depth) {
    d == e || Nearer(d, e)
  }

  /** The depth test is a strict total order, so the nearest of several writes is well defined. */
  lemma NearerIsStrictTotalOrder()
    ensures forall d :: !Nearer(d, d)
    ensures forall d, e, g :: Nearer(d, e) && Nearer(e, g) ==> Nearer(d, g)
    ensures forall d, e :: d != e ==> Nearer(d, e) || Nearer(e, d)
    ensures forall a: real :: Nearer(Finite(a), Infinity) && !Nearer(Infinity, Finite(a))
  {
  }

  // ---------------------------------------------------------------------------
  // Colour conversion

  function Clamp01(c: real): (r: real)
    ensures 0.0 <= r <= 1.0
    ensures 0.0 <= c <= 1.0 ==> r == c
  {
    if c < 0.0 then 0.0 else if c > 1.0 then 1.0 else c
  }

  /**
   * One channel of the colour `point` stores: the component clamped to [0, 1],
   * scaled by 255 and truncated to an 8-bit value (over the reals, not `f32`).
   */
  function ChannelByte(c: real): (b: Byte)
    ensures c <= 0.0 ==> b == 0
    ensures c >= 1.0 ==> b == 255
  {
    (Clamp01(c) * 255.0).Floor
  }

  /** A brighter component never gives a darker channel. */
  lemma ChannelByteMonotone(c1: real, c2: real)
    requires c1 <= c2
    ensures ChannelByte(c1) <= ChannelByte(c2)
  {
    assert Clamp01(c1) <= Clamp01(c2);
  }

  /**
   * The colour `point` stores for a colour vector: always opaque, and each
   * channel saturates at 0 and 255 outside the unit interval.
   */
  function PixelColor(color: Vec3): (p: Color)
    ensures p.a == 255
    ensures color.x <= 0.0 ==> p.r == 0
    ensures color.x >= 1.0 ==> p.r == 255
    ensures color.y <= 0.0 ==> p.g == 0
    ensures color.y >= 1.0 ==> p.g == 255
    ensures color.z <= 0.0 ==> p.b == 0
    ensures color.z >= 1.0 ==> p.b == 255
    ensures p.r == ChannelByte(color.x) && p.g == ChannelByte(color.y) && p.b == ChannelByte(color.z)
  {
    Color(ChannelByte(color.x), ChannelByte(color.y), ChannelByte(color.z), 255)
  }

  // ---------------------------------------------------------------------------
  // Pixel addressing

  /** The bounds check shared by `set_pixel`, `point` and `get_pixel_color`. */
  predicate InBounds(width: int, height: int, x: int, y: int) {
    0 <= x < width && 0 <= y < height
  }

  /** The row-major cell index `y * width + x` of pixel (x, y). */
  function Index(width: int, x: int, y: int): int {
    y * width + x
  }

  lemma MulMonotone(a: int, b: int, c: int)
    requires a <= b && 0 <= c
    ensures a * c <= b * c
  {
    assert b * c - a * c == (b - a) * c;
  }

  /** Every in-bounds pixel addresses a cell of a `width * height` buffer. */
  lemma IndexInRange(width: int, height: int, x: int, y: int)
    requires InBounds(width, height, x, y)
    ensures 0 <= Index(width, x, y) < width * height
  {
    MulMonotone(0, y, width);
    MulMonotone(y + 1, height, width);
    assert (y + 1) * width == y * width + width;
  }

  /** Distinct in-bounds pixels address distinct cells. */
  lemma IndexInjective(width: int, height: int, x1: int, y1: int, x2: int, y2: int)
    requires InBounds(width, height, x1, y1) && InBounds(width, height, x2, y2)
    ensures Index(width, x1, y1) == Index(width, x2, y2) <==> x1 == x2 && y1 == y2
  {
    if y1 < y2 {
      MulMonotone(y1 + 1, y2, width);
      assert (y1 + 1) * width == y1 * width + width;
    } else if y2 < y1 {
      MulMonotone(y2 + 1, y1, width);
      assert (y2 + 1) * width == y2 * width + width;
    }
  }

  /** Replacing the cell of pixel (x, y) leaves the cell of every other pixel as it was. */
  lemma OtherCellUnchanged<T>(width: int, height: int, cells: seq<T>, x: int, y: int, v: T, x': int, y': int)
    requires |cells| == width * height
    requires InBounds(width, height, x, y) && InBounds(width, height, x', y') && (x', y') != (x, y)
    ensures 0 <= Index(width, x, y) < |cells| && 0 <= Index(width, x', y') < |cells|
    ensures cells[Index(width, x, y) := v][Index(width, x', y')] == cells[Index(width, x', y')]
  {
    IndexInRange(width, height, x, y);
    IndexInRange(width, height, x', y');
    IndexInjective(width, height, x, y, x', y');
  }

  // ---------------------------------------------------------------------------
  // The framebuffer as a value

  /** The framebuffer's fields: `colors` is the colour image, `depths` the depth buffer, both row-major. */
  datatype Frame = Frame(width: int, height: int, colors: seq<Color>, depths: seq<Depth>,
                         background: Color, current: Color)

  /** Both buffers hold exactly `width * height` cells. */
  predicate WellFormed(f: Frame) {
    0 <= f.width && 0 <= f.height &&
    |f.colors| == f.width * f.height && |f.depths| == f.width * f.height
  }

  /** Two frames of the same size and colour settings. */
  predicate SameShape(f: Frame, g: Frame) {
    g.width == f.width && g.height == f.height &&
    g.background == f.background && g.current == f.current
  }

  function DepthAt(f: Frame, x: int, y: int): Depth
    requires WellFormed(f) && InBounds(f.width, f.height, x, y)
  {
    IndexInRange(f.width, f.height, x, y);
    f.depths[Index(f.width, x, y)]
  }

  function ColorAt(f: Frame, x: int, y: int): Color
    requires WellFormed(f) && InBounds(f.width, f.height, x, y)
  {
    IndexInRange(f.width, f.height, x, y);
    f.colors[Index(f.width, x, y)]
  }

  /** `clear`: every colour cell becomes the background colour and every depth cell `+inf`. */
  function ClearFrame(f: Frame): (g: Frame)
    requires WellFormed(f)
    ensures WellFormed(g) && SameShape(f, g)
    ensures forall i :: 0 <= i < |g.colors| ==> g.colors[i] == f.background
    ensures forall i :: 0 <= i < |g.depths| ==> g.depths[i] == Infinity
  {
    f.(colors := seq(|f.colors|, _ => f.background), depths := seq(|f.depths|, _ => Infinity))
  }

  /** `clear_depth`: every depth cell becomes `+inf`; the colours stay as they were. */
  function ClearDepthFrame(f: Frame): (g: Frame)
    requires WellFormed(f)
    ensures WellFormed(g) && SameShape(f, g)
    ensures g.colors == f.colors
    ensures forall i :: 0 <= i < |g.depths| ==> g.depths[i] == Infinity
  {
    f.(depths := seq(|f.depths|, _ => Infinity))
  }

  /** `set_pixel`: the current colour at an in-bounds pixel, without a depth test. */
  function SetPixelFrame(f: Frame, x: int, y: int): (g: Frame)
    requires WellFormed(f)
    ensures WellFormed(g) && SameShape(f, g)
    ensures g.depths == f.depths
    ensures !InBounds(f.width, f.height, x, y) ==> g == f
    ensures InBounds(f.width, f.height, x, y) ==>
      ColorAt(g, x, y) == f.current &&
      forall x', y' :: InBounds(f.width, f.height, x', y') && (x', y') != (x, y) ==>
        ColorAt(g, x', y') == ColorAt(f, x', y')
  {
    if InBounds(f.width, f.height, x, y) then
      IndexInRange(f.width, f.height, x, y);
      var g := f.(colors := f.colors[Index(f.width, x, y) := f.current]);
      assert forall x', y' :: InBounds(f.width, f.height, x', y') && (x', y') != (x, y) ==>
        ColorAt(g, x', y') == ColorAt(f, x', y') by {
        forall x', y' | InBounds(f.width, f.height, x', y') && (x', y') != (x, y)
          ensures ColorAt(g, x', y') == ColorAt(f, x', y')
        {
          OtherCellUnchanged(f.width, f.height, f.colors, x, y, f.current, x', y');
        }
      }
      g
    else
      f
  }

  /** `point`: a bounds-checked, depth-tested write of a depth and a colour. */
  function PointFrame(f: Frame, x: int, y: int, depth: Depth, color: Vec3): (g: Frame)
    requires WellFormed(f)
    ensures WellFormed(g) && SameShape(f, g)
  {
    if InBounds(f.width, f.height, x, y) then
      IndexInRange(f.width, f.height, x, y);
      var i := Index(f.width, x, y);
      if Nearer(depth, f.depths[i]) then
        f.(depths := f.depths[i := depth], colors := f.colors[i := PixelColor(color)])
      else
        f
    else
      f
  }

  /** An out-of-bounds write, or one not strictly nearer than the stored depth, changes nothing at all. */
  lemma PointRejected(f: Frame, x: int, y: int, depth: Depth, color: Vec3)
    requires WellFormed(f)
    requires !InBounds(f.width, f.height, x, y) || !Nearer(depth, DepthAt(f, x, y))
    ensures PointFrame(f, x, y, depth, color) == f
  {
  }

  /**
   * An in-bounds write strictly nearer than the stored depth stores that depth
   * and an opaque colour at (x, y), and leaves every other pixel as it was.
   */
  lemma PointAccepted(f: Frame, x: int, y: int, depth: Depth, color: Vec3)
    requires WellFormed(f) && InBounds(f.width, f.height, x, y)
    requires Nearer(depth, DepthAt(f, x, y))
    ensures var g := PointFrame(f, x, y, depth, color);
      DepthAt(g, x, y) == depth && ColorAt(g, x, y) == PixelColor(color) && ColorAt(g, x, y).a == 255
    ensures var g := PointFrame(f, x, y, depth, color);
      forall x', y' :: InBounds(f.width, f.height, x', y') && (x', y') != (x, y) ==>
        DepthAt(g, x', y') == DepthAt(f, x', y') && ColorAt(g, x', y') == ColorAt(f, x', y')
  {
    IndexInRange(f.width, f.height, x, y);
    var i := Index(f.width, x, y);
    var g := PointFrame(f, x, y, depth, color);
    assert g == f.(depths := f.depths[i := depth], colors := f.colors[i := PixelColor(color)]);
    forall x', y' | InBounds(f.width, f.height, x', y') && (x', y') != (x, y)
      ensures DepthAt(g, x', y') == DepthAt(f, x', y') && ColorAt(g, x', y') == ColorAt(f, x', y')
    {
      OtherCellUnchanged(f.width, f.height, f.depths, x, y, depth, x', y');
      OtherCellUnchanged(f.width, f.height, f.colors, x, y, PixelColor(color), x', y');
    }
  }

  /** A write never makes any stored depth farther. */
  lemma PointDepthNeverIncreases(f: Frame, x: int, y: int, depth: Depth, color: Vec3)
    requires WellFormed(f)
    ensures var g := PointFrame(f, x, y, depth, color);
      forall i :: 0 <= i < |f.depths| ==> NoFarther(g.depths[i], f.depths[i])
  {
  }

  /** Writing the same point twice leaves the state the first write produced. */
  lemma PointIdempotent(f: Frame, x: int, y: int, depth: Depth, color: Vec3)
    requires WellFormed(f)
    ensures var g := PointFrame(f, x, y, depth, color);
      PointFrame(g, x, y, depth, color) == g
  {
  }

  /**
   * Two writes to one pixel at depths `d1` nearer than `d2` give the same state
   * in either order, and when `d1` passes the depth test the pixel ends with
   * `d1` and the colour of the `d1` write.
   */
  lemma PointNearestWins(f: Frame, x: int, y: int, d1: Depth, c1: Vec3, d2: Depth, c2: Vec3)
    requires WellFormed(f) && InBounds(f.width, f.height, x, y)
    requires Nearer(d1, d2)
    ensures PointFrame(PointFrame(f, x, y, d1, c1), x, y, d2, c2) ==
            PointFrame(PointFrame(f, x, y, d2, c2), x, y, d1, c1)
    ensures Nearer(d1, DepthAt(f, x, y)) ==>
      var g := PointFrame(PointFrame(f, x, y, d1, c1), x, y, d2, c2);
      DepthAt(g, x, y) == d1 && ColorAt(g, x, y) == PixelColor(c1)
  {
    IndexInRange(f.width, f.height, x, y);
    var i := Index(f.width, x, y);
    NearerIsStrictTotalOrder();
    var g12 := PointFrame(PointFrame(f, x, y, d1, c1), x, y, d2, c2);
    var g21 := PointFrame(PointFrame(f, x, y, d2, c2), x, y, d1, c1);
    if Nearer(d1, f.depths[i]) {
      assert g12 == f.(depths := f.depths[i := d1], colors := f.colors[i := PixelColor(c1)]);
      if Nearer(d2, f.depths[i]) {
        assert f.depths[i := d2][i := d1] == f.depths[i := d1];
        assert f.colors[i := PixelColor(c2)][i := PixelColor(c1)] == f.colors[i := PixelColor(c1)];
      }
    } else {
      assert !Nearer(d2, f.depths[i]);
    }
  }

  /** Writes to two different pixels commute. */
  lemma PointsAtDistinctPixelsCommute(f: Frame, x1: int, y1: int, d1: Depth, c1: Vec3,
                                      x2: int, y2: int, d2: Depth, c2: Vec3)
    requires WellFormed(f) && (x1, y1) != (x2, y2)
    ensures PointFrame(PointFrame(f, x1, y1, d1, c1), x2, y2, d2, c2) ==
            PointFrame(PointFrame(f, x2, y2, d2, c2), x1, y1, d1, c1)
  {
    if InBounds(f.width, f.height, x1, y1) && InBounds(f.width, f.height, x2, y2) {
      IndexInRange(f.width, f.height, x1, y1);
      IndexInRange(f.width, f.height, x2, y2);
      IndexInjective(f.width, f.height, x1, y1, x2, y2);
      var i, j := Index(f.width, x1, y1), Index(f.width, x2, y2);
      var p1, p2 := PixelColor(c1), PixelColor(c2);
      if Nearer(d1, f.depths[i]) && Nearer(d2, f.depths[j]) {
        assert f.depths[i := d1][j := d2] == f.depths[j := d2][i := d1];
        assert f.colors[i := p1][j := p2] == f.colors[j := p2][i := p1];
      }
    }
  }

  /** After `clear`, a write of any finite depth to an in-bounds pixel succeeds. */
  lemma ClearThenPointWrites(f: Frame, x: int, y: int, v: real, color: Vec3)
    requires WellFormed(f) && InBounds(f.width, f.height, x, y)
    ensures var g := PointFrame(ClearFrame(f), x, y, Finite(v), color);
      DepthAt(g, x, y) == Finite(v) && ColorAt(g, x, y) == PixelColor(color)
  {
    IndexInRange(f.width, f.height, x, y);
    PointAccepted(ClearFrame(f), x, y, Finite(v), color);
  }

  /**
   * After `clear_depth`, a write of any finite depth to an in-bounds pixel
   * succeeds whatever was drawn there before, and other pixels keep their colour.
   */
  lemma ClearDepthThenPointWrites(f: Frame, x: int, y: int, v: real, color: Vec3)
    requires WellFormed(f) && InBounds(f.width, f.height, x, y)
    ensures var g := PointFrame(ClearDepthFrame(f), x, y, Finite(v), color);
      DepthAt(g, x, y) == Finite(v) && ColorAt(g, x, y) == PixelColor(color) &&
      forall x', y' :: InBounds(f.width, f.height, x', y') && (x', y') != (x, y) ==>
        ColorAt(g, x', y') == ColorAt(f, x', y')
  {
    IndexInRange(f.width, f.height, x, y);
    PointAccepted(ClearDepthFrame(f), x, y, Finite(v), color);
  }

  // ---------------------------------------------------------------------------
  // A frame's worth of depth-tested writes

  /** One call `point(x, y, depth, color)`. */
  datatype Write = Write(x: int, y: int, depth: Depth, color: Vec3)

  predicate Targets(w: Write, x: int, y: int) {
    w.x == x && w.y == y
  }

  /** The writes `ws` applied in submission order. */
  function PointAll(f: Frame, ws: seq<Write>): (g: Frame)
    requires WellFormed(f)
    ensures WellFormed(g) && SameShape(f, g)
    decreases |ws|
  {
    if ws == [] then f
    else PointAll(PointFrame(f, ws[0].x, ws[0].y, ws[0].depth, ws[0].color), ws[1..])
  }

  /** The depth a single write leaves at an in-bounds pixel (x, y). */
  lemma PointDepthAt(f: Frame, w: Write, x: int, y: int)
    requires WellFormed(f) && InBounds(f.width, f.height, x, y)
    ensures var d := DepthAt(PointFrame(f, w.x, w.y, w.depth, w.color), x, y);
      d == if Targets(w, x, y) && Nearer(w.depth, DepthAt(f, x, y)) then w.depth else DepthAt(f, x, y)
    ensures Targets(w, x, y) && Nearer(w.depth, DepthAt(f, x, y)) ==>
      ColorAt(PointFrame(f, w.x, w.y, w.depth, w.color), x, y) == PixelColor(w.color)
    ensures !(Targets(w, x, y) && Nearer(w.depth, DepthAt(f, x, y))) ==>
      ColorAt(PointFrame(f, w.x, w.y, w.depth, w.color), x, y) == ColorAt(f, x, y)
  {
    if InBounds(f.width, f.height, w.x, w.y) && Nearer(w.depth, DepthAt(f, w.x, w.y)) {
      PointAccepted(f, w.x, w.y, w.depth, w.color);
    } else {
      PointRejected(f, w.x, w.y, w.depth, w.color);
    }
  }

  /**
   * Whatever the order of submission, the depth a pixel ends with is no farther
   * than its starting depth and than every write to it, and it is one of those.
   */
  lemma {:induction false} PointAllKeepsNearest(f: Frame, ws: seq<Write>, x: int, y: int)
    requires WellFormed(f) && InBounds(f.width, f.height, x, y)
    ensures var d := DepthAt(PointAll(f, ws), x, y);
      NoFarther(d, DepthAt(f, x, y)) &&
      (forall k :: 0 <= k < |ws| && Targets(ws[k], x, y) ==> NoFarther(d, ws[k].depth)) &&
      (d == DepthAt(f, x, y) || exists k :: 0 <= k < |ws| && Targets(ws[k], x, y) && d == ws[k].depth)
    decreases |ws|
  {
    if ws != [] {
      var w, rest := ws[0], ws[1..];
      var f' := PointFrame(f, w.x, w.y, w.depth, w.color);
      PointDepthAt(f, w, x, y);
      PointAllKeepsNearest(f', rest, x, y);
      NearerIsStrictTotalOrder();
      var d := DepthAt(PointAll(f, ws), x, y);
      assert PointAll(f, ws) == PointAll(f', rest);
      forall k | 0 <= k < |ws| && Targets(ws[k], x, y)
        ensures NoFarther(d, ws[k].depth)
      {
        if k > 0 {
          assert rest[k - 1] == ws[k];
        }
      }
      if d != DepthAt(f, x, y) && d != DepthAt(f', x, y) {
        var k :| 0 <= k < |rest| && Targets(rest[k], x, y) && d == rest[k].depth;
        assert ws[k + 1] == rest[k];
      }
    }
  }

  /** Writes that all fail the depth test at (x, y) leave its depth and colour alone. */
  lemma {:induction false} PointAllFarther(f: Frame, ws: seq<Write>, x: int, y: int)
    requires WellFormed(f) && InBounds(f.width, f.height, x, y)
    requires forall k :: 0 <= k < |ws| && Targets(ws[k], x, y) ==> !Nearer(ws[k].depth, DepthAt(f, x, y))
    ensures DepthAt(PointAll(f, ws), x, y) == DepthAt(f, x, y)
    ensures ColorAt(PointAll(f, ws), x, y) == ColorAt(f, x, y)
    decreases |ws|
  {
    if ws != [] {
      var f' := PointFrame(f, ws[0].x, ws[0].y, ws[0].depth, ws[0].color);
      PointDepthAt(f, ws[0], x, y);
      assert forall k :: 0 <= k < |ws| - 1 ==> ws[1..][k] == ws[k + 1];
      PointAllFarther(f', ws[1..], x, y);
    }
  }

  /**
   * Nearest wins regardless of arrival order: if write `k` is strictly nearer
   * than the pixel's starting depth and than every other write to that pixel,
   * the pixel ends with write `k`'s depth and colour.
   */
  lemma {:induction false} PointAllNearestColorWins(f: Frame, ws: seq<Write>, k: nat)
    requires WellFormed(f) && k < |ws| && InBounds(f.width, f.height, ws[k].x, ws[k].y)
    requires Nearer(ws[k].depth, DepthAt(f, ws[k].x, ws[k].y))
    requires forall j :: 0 <= j < |ws| && j != k && Targets(ws[j], ws[k].x, ws[k].y) ==>
      Nearer(ws[k].depth, ws[j].depth)
    ensures DepthAt(PointAll(f, ws), ws[k].x, ws[k].y) == ws[k].depth
    ensures ColorAt(PointAll(f, ws), ws[k].x, ws[k].y) == PixelColor(ws[k].color)
    decreases |ws|
  {
    var x, y := ws[k].x, ws[k].y;
    var w, rest := ws[0], ws[1..];
    var f' := PointFrame(f, w.x, w.y, w.depth, w.color);
    assert PointAll(f, ws) == PointAll(f', rest);
    PointDepthAt(f, w, x, y);
    NearerIsStrictTotalOrder();
    if k == 0 {
      forall j | 0 <= j < |rest| && Targets(rest[j], x, y)
        ensures !Nearer(rest[j].depth, DepthAt(f', x, y))
      {
        assert ws[j + 1] == rest[j];
      }
      PointAllFarther(f', rest, x, y);
    } else {
      forall j | 0 <= j < |rest| && j != k - 1 && Targets(rest[j], x, y)
        ensures Nearer(rest[k - 1].depth, rest[j].depth)
      {
        assert ws[j + 1] == rest[j];
      }
      assert rest[k - 1] == ws[k];
      PointAllNearestColorWins(f', rest, k - 1);
    }
  }

  // ---------------------------------------------------------------------------
  // The framebuffer as an object

  class Framebuffer {
    const width: I32
    const height: I32
    /** The colour image, row-major: pixel (x, y) is cell `y * width + x`. */
    const colorBuffer: array<Color>
    const depthBuffer: array<Depth>
    var backgroundColor: Color
    var currentColor: Color

    /** Both buffers hold `width * height` cells, a count that fits an `i32`. */
    ghost predicate Valid()
      reads this
    {
      0 <= width && 0 <= height && width * height <= I32Max &&
      colorBuffer.Length == width * height && depthBuffer.Length == width * height
    }

    /** The framebuffer's state as a value. */
    ghost function State(): (f: Frame)
      reads this, colorBuffer, depthBuffer
      requires Valid()
      ensures WellFormed(f)
    {
      Frame(width, height, colorBuffer[..], depthBuffer[..], backgroundColor, currentColor)
    }

    /** `new`: a white image and an all-`+inf` depth buffer of `width * height` cells. */
    constructor (width: I32, height: I32)
      requires 0 <= width && 0 <= height && width * height <= I32Max
      ensures Valid() && this.width == width && this.height == height
      ensures fresh(colorBuffer) && fresh(depthBuffer)
      ensures colorBuffer.Length == width * height && depthBuffer.Length == width * height
      ensures forall i :: 0 <= i < colorBuffer.Length ==> colorBuffer[i] == White
      ensures forall i :: 0 <= i < depthBuffer.Length ==> depthBuffer[i] == Infinity
      ensures backgroundColor == White && currentColor == White
    {
      this.width := width;
      this.height := height;
      colorBuffer := new Color[width * height](_ => White);
      depthBuffer := new Depth[width * height](_ => Infinity);
      backgroundColor := White;
      currentColor := White;
    }

    /** `clear`: both buffers reset in place, their sizes kept. */
    method Clear()
      requires Valid()
      modifies colorBuffer, depthBuffer
      ensures Valid()
      ensures State() == ClearFrame(old(State()))
    {
      forall i | 0 <= i < colorBuffer.Length {
        colorBuffer[i] := backgroundColor;
      }
      forall i | 0 <= i < depthBuffer.Length {
        depthBuffer[i] := Infinity;
      }
    }

    /** `clear_depth`: only the depth buffer is reset. */
    method ClearDepth()
      requires Valid()
      modifies depthBuffer
      ensures Valid()
      ensures State() == ClearDepthFrame(old(State()))
    {
      forall i | 0 <= i < depthBuffer.Length {
        depthBuffer[i] := Infinity;
      }
    }

    /** `set_pixel`: the current colour at (x, y) if it is in bounds, depth untouched. */
    method SetPixel(x: I32, y: I32)
      requires Valid()
      modifies colorBuffer
      ensures Valid()
      ensures State() == SetPixelFrame(old(State()), x, y)
    {
      if x >= 0 && x < width && y >= 0 && y < height {
        IndexInRange(width, height, x, y);
        colorBuffer[y * width + x] := currentColor;
      }
    }

    /** `point`: the depth-tested write. */
    method Point(x: I32, y: I32, depth: Depth, color: Vec3)
      requires Valid()
      modifies colorBuffer, depthBuffer
      ensures Valid()
      ensures State() == PointFrame(old(State()), x, y, depth, color)
    {
      if x >= 0 && x < width && y >= 0 && y < height {
        IndexInRange(width, height, x, y);
        var index := y * width + x;
        if Nearer(depth, depthBuffer[index]) {
          depthBuffer[index] := depth;
          colorBuffer[index] := PixelColor(color);
        }
      }
    }

    /** `get_pixel_color`: the colour at (x, y), or `None` out of bounds. */
    method GetPixelColor(x: I32, y: I32) returns (c: Option<Color>)
      requires Valid()
      ensures c.Some? <==> InBounds(width, height, x, y)
      ensures c.Some? ==> c.value == ColorAt(State(), x, y)
    {
      if x >= 0 && x < width && y >= 0 && y < height {
        IndexInRange(width, height, x, y);
        c := Some(colorBuffer[y * width + x]);
      } else {
        c := None;
      }
    }

    /** `set_background_color`: the colour the next `clear` paints. */
    method SetBackgroundColor(color: Color)
      requires Valid()
      modifies this
      ensures Valid()
      ensures State() == old(State()).(background := color)
    {
      backgroundColor := color;
    }

    /** `set_current_color`: the colour the next `set_pixel` draws. */
    method SetCurrentColor(color: Color)
      requires Valid()
      modifies this
      ensures Valid()
      ensures State() == old(State()).(current := color)
    {
      currentColor := color;
    }
  }
}
