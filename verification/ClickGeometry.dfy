/** From a pixel in a screenshot to the device pixel that is clicked, over real scale factors. */
module ClickGeometry {
  import opened Decimal
  import Pointer

  /** Rounding to the nearest integer, halves away from zero. */
  function Round(r: real): int {
    if r >= 0.0 then (r + 0.5).Floor else -(-r + 0.5).Floor
  }

  /** Whole numbers stay, and halves go away from zero. */
  lemma RoundHalves(n: int)
    requires n >= 0
    ensures Round(n as real) == n && Round(-(n as real)) == -n
    ensures Round(n as real + 0.5) == n + 1 && Round(-(n as real + 0.5)) == -(n + 1)
  {
  }

  /** A float-to-`i32` conversion saturates. */
  function Saturate(n: int): i32 {
    if n > I32_MAX then I32_MAX else if n < I32_MIN then I32_MIN else n
  }

  function RoundToI32(r: real): i32 {
    Saturate(Round(r))
  }

  type Scale = s: real | s > 0.0 witness 1.0

  datatype Monitor = Monitor(x: i32, y: i32, width: i32, height: i32, scale: Scale, focused: bool)

  datatype Region = Region(x: i32, y: i32, w: nat, h: nat)

  /** The logical bounds of a monitor are its device mode divided by its scale. */
  predicate Covers(m: Monitor, x: int, y: int) {
    var lw, lh := RoundToI32(m.width as real / m.scale), RoundToI32(m.height as real / m.scale);
    m.x <= x < m.x + lw && m.y <= y < m.y + lh
  }

  /** The first monitor that covers the point, else the focused one, else the first, else scale one. */
  function ScaleAt(monitors: seq<Monitor>, x: int, y: int): Scale {
    var covering := FirstCovering(monitors, x, y);
    if covering < |monitors| then monitors[covering].scale else FallbackScale(monitors)
  }

  function FirstCovering(monitors: seq<Monitor>, x: int, y: int): (k: nat)
    ensures k <= |monitors|
    ensures k < |monitors| ==> Covers(monitors[k], x, y)
    ensures forall j | 0 <= j < k :: !Covers(monitors[j], x, y)
  {
    if monitors == [] || Covers(monitors[0], x, y) then 0
    else 1 + FirstCovering(monitors[1..], x, y)
  }

  function FirstFocused(monitors: seq<Monitor>): (k: nat)
    ensures k <= |monitors|
    ensures k < |monitors| ==> monitors[k].focused
    ensures forall j | 0 <= j < k :: !monitors[j].focused
  {
    if monitors == [] || monitors[0].focused then 0 else 1 + FirstFocused(monitors[1..])
  }

  function FallbackScale(monitors: seq<Monitor>): Scale {
    var focused := FirstFocused(monitors);
    if focused < |monitors| then monitors[focused].scale
    else if monitors != [] then monitors[0].scale
    else 1.0
  }

  datatype MaybeRegion = FullScreen | Scoped(region: Region)

  function PickScale(monitors: seq<Monitor>, scope: MaybeRegion): Scale {
    if scope.Scoped? && FirstCovering(monitors, scope.region.x, scope.region.y) < |monitors|
    then monitors[FirstCovering(monitors, scope.region.x, scope.region.y)].scale
    else FallbackScale(monitors)
  }

  // ---- which monitor -------------------------------------------------------------------------------

  function LogicalWidth(m: Monitor): int {
    RoundToI32(m.width as real / m.scale)
  }

  /** The scale a region is scanned at is the one its origin is clicked at. */
  lemma ScaleAgrees(monitors: seq<Monitor>, region: Region)
    ensures PickScale(monitors, Scoped(region)) == ScaleAt(monitors, region.x, region.y)
  {
  }

  /** A point that only one monitor covers has that monitor's scale. */
  lemma ScaleOfCovering(monitors: seq<Monitor>, k: nat, x: int, y: int)
    requires k < |monitors| && Covers(monitors[k], x, y)
    requires forall j | 0 <= j < |monitors| && j != k :: !Covers(monitors[j], x, y)
    ensures ScaleAt(monitors, x, y) == monitors[k].scale
  {
    assert FirstCovering(monitors, x, y) == k;
  }

  /**
   * A point that no monitor covers, and a full-screen scan, have the scale of the focused monitor, if there is just
   * one, and otherwise of the first if none is focused.
   */
  lemma ScaleElsewhere(monitors: seq<Monitor>, k: nat)
    requires k < |monitors|
    requires forall j | 0 <= j < |monitors| && j != k :: !monitors[j].focused
    requires monitors[k].focused || k == 0
    ensures PickScale(monitors, FullScreen) == monitors[k].scale
    ensures forall x, y | (forall j | 0 <= j < |monitors| :: !Covers(monitors[j], x, y)) ::
      ScaleAt(monitors, x, y) == monitors[k].scale
  {
    assert FirstFocused(monitors) == if monitors[k].focused then k else |monitors|;
    forall x, y | (forall j | 0 <= j < |monitors| :: !Covers(monitors[j], x, y))
      ensures ScaleAt(monitors, x, y) == monitors[k].scale
    {
      assert FirstCovering(monitors, x, y) == |monitors|;
    }
  }

  /** Monitors side by side, of whatever scales, share no point and leave no gap between them. */
  lemma SideBySide(a: Monitor, b: Monitor, x: int, y: int)
    requires b.x == a.x + LogicalWidth(a) && 0 <= LogicalWidth(a) && 0 <= LogicalWidth(b)
    requires b.y == a.y && RoundToI32(b.height as real / b.scale) == RoundToI32(a.height as real / a.scale)
    ensures !(Covers(a, x, y) && Covers(b, x, y))
    ensures Covers(a, x, y) || Covers(b, x, y)
      <==> a.x <= x < a.x + (LogicalWidth(a) + LogicalWidth(b))
           && a.y <= y < a.y + RoundToI32(a.height as real / a.scale)
  {
  }

  // ---- the chain ---------------------------------------------------------------------------------

  /** One axis of a match's centre, shifted by the region's origin as the scan already does. */
  function Scanned(pixel: int, origin: int, scoped: bool): int {
    if scoped then pixel + origin else pixel
  }

  /** Image pixel to logical coordinate; a scoped click adds the region's origin here. */
  function ToLogical(scanned: int, origin: int, scoped: bool, scale: Scale): int {
    var logical := RoundToI32(scanned as real / scale);
    if scoped then logical + origin else logical
  }

  /** Logical coordinate to device pixel. */
  function ToDevice(logical: int, scale: Scale): i32 {
    RoundToI32(logical as real * scale)
  }

  lemma RoundClose(r: real)
    ensures -0.5 <= Round(r) as real - r <= 0.5
  {
  }

  lemma RoundInRange(r: real, low: int, high: int)
    requires low as real <= r <= high as real
    ensures low <= Round(r) <= high
  {
    RoundClose(r);
  }

  function Distance(a: real, b: real): real {
    if a >= b then a - b else b - a
  }

  lemma ScaleBounds(d: real, s: real)
    requires s > 0.0 && -0.5 <= d <= 0.5
    ensures -(s / 2.0) <= d * s <= s / 2.0
  {
  }

  lemma ScaledBack(p: real, q: real, l: real, s: real)
    requires s > 0.0 && q * s == p && -0.5 <= l - q <= 0.5
    ensures -(s / 2.0) <= l * s - p <= s / 2.0
  {
    var d := l - q;
    ScaleBounds(d, s);
    Distribute(l, q, s);
    assert d * s == l * s - p;
  }

  lemma Distribute(a: real, b: real, s: real)
    ensures (a - b) * s == a * s - b * s
  {
  }

  lemma Quotient(p: real, s: real)
    requires s > 0.0
    ensures (p / s) * s == p
  {
  }

  /** The device position, not yet rounded, of the logical coordinate nearest to the pixel. */
  function Back(pixel: int, scale: Scale): real {
    Round(pixel as real / scale) as real * scale
  }

  /** Rounding to logical coordinates and back costs at most half a logical pixel and half a device pixel. */
  lemma ThereAndBack(pixel: int, scale: Scale)
    ensures -(scale / 2.0) <= Back(pixel, scale) - pixel as real <= scale / 2.0
    ensures Distance(Round(Back(pixel, scale)) as real, pixel as real) <= scale / 2.0 + 0.5
  {
    var p := pixel as real;
    var q := p / scale;
    Quotient(p, scale);
    RoundClose(q);
    ScaledBack(p, q, Round(q) as real, scale);
    RoundClose(Back(pixel, scale));
  }

  // ---- full-screen scans -------------------------------------------------------------------------

  /** One axis of a click on a full-screen match: where the pointer is sent within `extent`. */
  function Clicked(pixel: int, picked: Scale, at: Scale, extent: Pointer.u32): Pointer.u32 {
    Pointer.Clamp(ToDevice(ToLogical(Scanned(pixel, 0, false), 0, false, picked), at), extent)
  }

  lemma OrderedByProduct(a: real, b: real, s: real)
    requires s > 0.0 && a * s <= b * s
    ensures a <= b
  {
    Distribute(a, b, s);
  }

  lemma SmallerByProduct(a: real, b: real, s: real)
    requires s > 0.0 && a * s < b * s
    ensures a < b
  {
    Distribute(a, b, s);
  }

  lemma QuotientBounds(p: real, top: real, s: real)
    requires s > 0.0 && 0.0 <= p <= top
    ensures 0.0 <= p / s <= top / s
  {
    Quotient(p, s);
    Quotient(top, s);
    OrderedByProduct(p / s, top / s, s);
  }

  /** Saturating and clamping bring no two places further apart. */
  lemma ClampKeepsDistance(n: int, extent: Pointer.u32, pixel: i32)
    ensures Pointer.Gap(Pointer.Clamp(Saturate(n), extent), Pointer.Clamp(pixel, extent)) <= Pointer.Gap(n, pixel)
  {
  }

  lemma UnscopedLogical(pixel: i32, size: i32, scale: Scale)
    requires 0 <= pixel <= size && size as real / scale <= I32_MAX as real
    ensures ToDevice(ToLogical(Scanned(pixel, 0, false), 0, false, scale), scale) == Saturate(Round(Back(pixel, scale)))
  {
    QuotientBounds(pixel as real, size as real, scale);
    RoundInRange(pixel as real / scale, 0, I32_MAX);
  }

  lemma AxisLands(pixel: i32, size: i32, scale: Scale, extent: Pointer.u32)
    requires 0 <= pixel <= size && size as real / scale <= I32_MAX as real
    ensures Distance(Clicked(pixel, scale, scale, extent) as real, Pointer.Clamp(pixel, extent) as real)
         <= scale / 2.0 + 0.5
  {
    hide Round;
    UnscopedLogical(pixel, size, scale);
    ThereAndBack(pixel, scale);
    var n := Round(Back(pixel, scale));
    ClampKeepsDistance(n, extent, pixel);
    GapAsDistance(Clicked(pixel, scale, scale, extent), Pointer.Clamp(pixel, extent));
    GapAsDistance(n, pixel);
  }

  lemma GapAsDistance(a: int, b: int)
    ensures Distance(a as real, b as real) == Pointer.Gap(a, b) as real
  {
  }

  /** The logical coordinate that a pixel of a region's or a monitor's image shows. */
  function Shown(pixel: int, origin: int, scale: Scale): int {
    origin + Round(pixel as real / scale)
  }

  /**
   * Click rounding: on a single monitor of any scale and position whose logical size fits, a click on an image
   * pixel of a full-screen scan lands within half a logical pixel plus half a device pixel of the place with the
   * pixel's own coordinates, or of the nearest one inside the extents; inside they are unless the monitor is placed
   * left of or above zero.
   */
  lemma ClickLandsNearby(m: Monitor, id: nat, ex: Pointer.u32, ey: Pointer.u32, px: i32, py: i32)
    requires Pointer.IsExtent(ex, map[id := Pointer.Geom(m.x, m.y, m.width, m.height)], true)
    requires Pointer.IsExtent(ey, map[id := Pointer.Geom(m.x, m.y, m.width, m.height)], false)
    requires 0 <= px < m.width && 0 <= py < m.height
    requires m.width as real / m.scale <= I32_MAX as real && m.height as real / m.scale <= I32_MAX as real
    ensures var picked := PickScale([m], FullScreen);
      var at := ScaleAt([m], ToLogical(px, 0, false, picked), ToLogical(py, 0, false, picked));
      && Distance(Clicked(px, picked, at, ex) as real, Pointer.Clamp(px, ex) as real) <= m.scale / 2.0 + 0.5
      && Distance(Clicked(py, picked, at, ey) as real, Pointer.Clamp(py, ey) as real) <= m.scale / 2.0 + 0.5
    ensures m.x >= 0 ==> Pointer.Clamp(px, ex) == px
    ensures m.y >= 0 ==> Pointer.Clamp(py, ey) == py
  {
    var geom := Pointer.Geom(m.x, m.y, m.width, m.height);
    var outputs := map[id := geom];
    assert id in outputs && outputs[id] == geom;
    assert Pointer.FarEdge(geom, true) <= ex && Pointer.FarEdge(geom, false) <= ey;
    AxisLands(px, m.width, m.scale, ex);
    AxisLands(py, m.height, m.scale, ey);
  }

  /**
   * Those are the coordinates the pixel is shown at exactly when the monitor is placed at zero on that axis: the
   * monitor's own position is nowhere added.
   */
  lemma FullClickExact(position: int, size: i32, scale: Scale)
    requires size >= 1 && size as real / scale <= I32_MAX as real
    ensures (forall pixel: nat | pixel < size :: ToLogical(Scanned(pixel, 0, false), 0, false, scale)
                                              == Shown(pixel, position, scale))
      <==> position == 0
  {
    hide Round, Shown;
    forall pixel: nat | pixel < size
      ensures ToLogical(Scanned(pixel, 0, false), 0, false, scale) == Shown(pixel, position, scale) - position
    {
      FullClickDisplacement(pixel, size, position, scale);
    }
    if position != 0 {
      var first: nat := 0;
      assert ToLogical(Scanned(first, 0, false), 0, false, scale) == Shown(first, position, scale) - position;
    }
  }

  lemma FullClickDisplacement(pixel: nat, size: i32, position: int, scale: Scale)
    requires pixel < size && size as real / scale <= I32_MAX as real
    ensures ToLogical(Scanned(pixel, 0, false), 0, false, scale) == Shown(pixel, position, scale) - position
  {
    QuotientBounds(pixel as real, size as real, scale);
    RoundInRange(pixel as real / scale, 0, I32_MAX);
  }

  // ---- scoped scans ------------------------------------------------------------------------------

  /** Where a click on a pixel of a region's image is sent. */
  function Sent(pixel: int, origin: int, scale: Scale): int {
    ToLogical(Scanned(pixel, origin, true), origin, true, scale)
  }

  /** The conversion of every pixel that a region of the given width shows stays within 32 bits. */
  predicate ScopeFits(origin: int, width: nat, scale: Scale) {
    I32_MIN as real <= origin as real / scale
    && (width as real * scale + origin as real) / scale <= I32_MAX as real
  }

  lemma SumOverScale(a: real, b: real, s: real)
    requires s > 0.0
    ensures (a + b) / s == a / s + b / s
  {
    Quotient(a + b, s);
    Quotient(a, s);
    Quotient(b, s);
    var whole, parts := (a + b) / s, a / s + b / s;
    assert parts * s == (a / s) * s + (b / s) * s;
    if whole != parts { Distribute(whole, parts, s); }
  }

  lemma QuotientOrder(a: real, b: real, s: real)
    requires s > 0.0 && a <= b
    ensures a / s <= b / s
  {
    Quotient(a, s);
    Quotient(b, s);
    OrderedByProduct(a / s, b / s, s);
  }

  lemma SentUnsaturated(pixel: int, origin: int, width: nat, scale: Scale)
    requires 0 <= pixel && pixel as real <= width as real * scale && ScopeFits(origin, width, scale)
    ensures Sent(pixel, origin, scale) == origin + Round((pixel + origin) as real / scale)
  {
    QuotientOrder(origin as real, (pixel + origin) as real, scale);
    QuotientOrder((pixel + origin) as real, width as real * scale + origin as real, scale);
    RoundInRange((pixel + origin) as real / scale, I32_MIN, I32_MAX);
  }

  /** The region's origin is added once in image pixels and once in logical ones: clicks are off by origin / scale. */
  lemma ScopedDisplacement(pixel: int, origin: int, width: nat, scale: Scale)
    requires 0 <= pixel && pixel as real <= width as real * scale && ScopeFits(origin, width, scale)
    ensures var off := Sent(pixel, origin, scale) as real - (origin as real + pixel as real / scale);
      -0.5 <= off - origin as real / scale <= 0.5
  {
    SentUnsaturated(pixel, origin, width, scale);
    RoundClose((pixel + origin) as real / scale);
    SumOverScale(pixel as real, origin as real, scale);
  }

  lemma BelowHalf(p: real, s: real)
    requires s > 0.0 && p < s / 2.0
    ensures p / s < 0.5
  {
    Quotient(p, s);
    SmallerByProduct(p / s, 0.5, s);
  }

  lemma AtLeastHalf(p: real, s: real)
    requires s > 0.0 && p >= s / 2.0
    ensures p / s >= 0.5
  {
    Quotient(p, s);
    OrderedByProduct(0.5, p / s, s);
  }

  /** The first pixel past the left half of the first logical column. */
  function HalfWay(scale: Scale): int {
    var half := scale / 2.0;
    if half.Floor as real == half then half.Floor else half.Floor + 1
  }

  /** A pixel that a region not starting at zero misses: on one side of a rounding boundary, its click on the other. */
  function Witness(origin: int, scale: Scale): int {
    if origin > 0 then HalfWay(scale) - 1 else if scale <= 2.0 then 0 else HalfWay(scale)
  }

  lemma MissedRight(origin: int, scale: Scale)
    requires origin >= 1
    ensures var p := Witness(origin, scale);
      Round(p as real / scale) <= 0 && Round((p + origin) as real / scale) >= 1
  {
    var p := Witness(origin, scale);
    assert p as real < scale / 2.0 <= (p + origin) as real;
    BelowHalf(p as real, scale);
    AtLeastHalf((p + origin) as real, scale);
  }

  lemma MissedLeft(origin: int, scale: Scale)
    requires origin <= -1
    ensures var p := Witness(origin, scale);
      Round((p + origin) as real / scale) < Round(p as real / scale)
  {
    var p := Witness(origin, scale);
    if scale <= 2.0 {
      AtLeastHalf(-origin as real, scale);
      Negated(-origin as real, scale);
      Quotient(0.0, scale);
      assert (p + origin) as real == -(-origin as real);
    } else {
      assert (p + origin) as real < scale / 2.0 <= p as real;
      BelowHalf((p + origin) as real, scale);
      AtLeastHalf(p as real, scale);
    }
  }

  lemma Negated(a: real, s: real)
    requires s > 0.0
    ensures (-a) / s == -(a / s)
  {
    SumOverScale(a, -a, s);
    Quotient(0.0, s);
  }

  lemma WitnessShown(origin: int, width: nat, scale: Scale)
    requires width >= 1
    ensures 0 <= Witness(origin, scale) && Witness(origin, scale) as real < width as real * scale
  {
    WidthCovers(width, scale);
  }

  lemma WidthCovers(width: nat, scale: Scale)
    requires width >= 1
    ensures width as real * scale >= scale
  {
  }

  /**
   * Every pixel a region shows is clicked where it is shown exactly when the region starts at zero on that axis:
   * everywhere else the origin that is added twice sends some click to another logical coordinate.
   */
  lemma ScopedClickExact(origin: int, width: nat, scale: Scale)
    requires width >= 1 && ScopeFits(origin, width, scale)
    ensures (forall pixel: nat | pixel as real < width as real * scale ::
              Sent(pixel, origin, scale) == Shown(pixel, origin, scale))
      <==> origin == 0
  {
    hide Round, Witness, ScopeFits, Sent;
    if origin == 0 {
      forall pixel: nat | pixel as real < width as real * scale
        ensures Sent(pixel, origin, scale) == Shown(pixel, origin, scale)
      {
        SentUnsaturated(pixel, 0, width, scale);
      }
    } else {
      WitnessShown(origin, width, scale);
      var p: nat := Witness(origin, scale);
      SentUnsaturated(p, origin, width, scale);
      if origin > 0 { MissedRight(origin, scale); } else { MissedLeft(origin, scale); }
      assert Sent(p, origin, scale) != Shown(p, origin, scale);
    }
  }

  /** A region that starts at 100 on a monitor of scale two: its first pixel shows 100, and is clicked at 150. */
  lemma RegionAtHundred()
    ensures Shown(0, 100, 2.0) == 100 && Sent(0, 100, 2.0) == 150
  {
    assert 100.0 / 2.0 == 50.0 && 0.0 / 2.0 == 0.0;
  }
}
