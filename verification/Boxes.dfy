/** Bounding boxes over 32-bit coordinates. */
module Boxes {
  import opened Decimal

  datatype BBox = BBox(x: i32, y: i32, w: i32, h: i32)

  function SaturatingAdd(a: i32, b: i32): i32 {
    if a + b > I32_MAX then I32_MAX else if a + b < I32_MIN then I32_MIN else a + b
  }

  /** 32-bit subtraction, which wraps. */
  function WrappingSub(a: i32, b: i32): i32 {
    if a - b > I32_MAX then a - b - 0x1_0000_0000
    else if a - b < I32_MIN then a - b + 0x1_0000_0000
    else a - b
  }

  /** Division by two, towards zero. */
  function Half(n: i32): i32 {
    var m: int := n;
    if m >= 0 then m / 2 else -(-m / 2)
  }

  function Min(a: i32, b: i32): i32 {
    if a <= b then a else b
  }

  function Max(a: i32, b: i32): i32 {
    if a >= b then a else b
  }

  function Union(a: BBox, b: BBox): BBox {
    var x, y := Min(a.x, b.x), Min(a.y, b.y);
    var right := Max(SaturatingAdd(a.x, a.w), SaturatingAdd(b.x, b.w));
    var bottom := Max(SaturatingAdd(a.y, a.h), SaturatingAdd(b.y, b.h));
    BBox(x, y, WrappingSub(right, x), WrappingSub(bottom, y))
  }

  function Center(b: BBox): (i32, i32) {
    (SaturatingAdd(b.x, Half(b.w)), SaturatingAdd(b.y, Half(b.h)))
  }

  /** The row spans intersect, even by one pixel. */
  predicate SameRow(a: BBox, b: BBox) {
    a.y < SaturatingAdd(b.y, b.h) && b.y < SaturatingAdd(a.y, a.h)
  }

  // ---- boxes as sets of points ------------------------------------------------------------------

  predicate RowHas(b: BBox, y: int) {
    b.y <= y < b.y + b.h
  }

  predicate Contains(outer: BBox, inner: BBox) {
    outer.x <= inner.x && outer.y <= inner.y
    && inner.x + inner.w <= outer.x + outer.w && inner.y + inner.h <= outer.y + outer.h
  }

  /** The near edge of a box on one axis, and the far one. */
  function Low(b: BBox, across: bool): i32 {
    if across then b.x else b.y
  }

  function High(b: BBox, across: bool): int {
    if across then b.x + b.w else b.y + b.h
  }

  /** The far edge of two boxes together, and their whole extent, are 32-bit numbers. */
  predicate SpanFits(a: BBox, b: BBox, across: bool) {
    var low := if Low(a, across) <= Low(b, across) then Low(a, across) else Low(b, across);
    var high := if High(a, across) >= High(b, across) then High(a, across) else High(b, across);
    I32_MIN <= high <= I32_MAX && I32_MIN <= high - low <= I32_MAX
  }

  predicate UnionFits(a: BBox, b: BBox) {
    SpanFits(a, b, true) && SpanFits(a, b, false)
  }

  ghost predicate IsSmallest(u: BBox, a: BBox, b: BBox) {
    Contains(u, a) && Contains(u, b) && forall c | Contains(c, a) && Contains(c, b) :: Contains(c, u)
  }

  /** The union starts at the nearer edge and, if the extent is a number, ends at the farther one, clamped. */
  lemma UnionEdges(a: BBox, b: BBox, across: bool)
    ensures var u := Union(a, b);
      var high := if High(a, across) >= High(b, across) then High(a, across) else High(b, across);
      var right := if high > I32_MAX then I32_MAX else if high < I32_MIN then I32_MIN else high;
      && (Low(u, across) == Low(a, across) || Low(u, across) == Low(b, across))
      && Low(u, across) <= Low(a, across) && Low(u, across) <= Low(b, across)
      && High(u, across) == if right - Low(u, across) <= I32_MAX then right else right - 0x1_0000_0000
  {
  }

  /** A union that contains both boxes without fitting reaches too far, and a box that stops short of it would do. */
  lemma Tighter(a: BBox, b: BBox, across: bool) returns (c: BBox)
    requires var u := Union(a, b); Contains(u, a) && Contains(u, b) && !SpanFits(a, b, across)
    ensures Contains(c, a) && Contains(c, b) && !Contains(c, Union(a, b))
  {
    var u := Union(a, b);
    var high := if High(a, across) >= High(b, across) then High(a, across) else High(b, across);
    var low := if high - Low(u, across) >= I32_MIN then Low(u, across) else I32_MIN;
    c := if across then u.(x := low, w := high - low) else u.(y := low, h := high - low);
  }

  /** The union is the smallest box around both exactly when the far edges and the extents are 32-bit numbers. */
  lemma UnionIsSmallest(a: BBox, b: BBox)
    ensures IsSmallest(Union(a, b), a, b) <==> UnionFits(a, b)
  {
    var u := Union(a, b);
    UnionEdges(a, b, true);
    UnionEdges(a, b, false);
    if Contains(u, a) && Contains(u, b) && !UnionFits(a, b) {
      var c := Tighter(a, b, !SpanFits(a, b, true));
    }
  }

  // ---- centre and rows -----------------------------------------------------------------------------

  function CenterOn(b: BBox, across: bool): i32 {
    if across then Center(b).0 else Center(b).1
  }

  /** If the far edge is a 32-bit number the centre is as far from both edges, or a pixel nearer to the near one. */
  lemma CenterInMiddle(b: BBox, across: bool)
    requires I32_MIN <= High(b, across) <= I32_MAX
    ensures var near, far := CenterOn(b, across) - Low(b, across), High(b, across) - CenterOn(b, across);
      if High(b, across) >= Low(b, across) then far == near || far == near + 1 else far == near || far == near - 1
    ensures High(b, across) > Low(b, across) ==> Low(b, across) <= CenterOn(b, across) < High(b, across)
  {
  }

  /** Wherever the far edge is: inside a box of positive size, and otherwise at its near edge or before it. */
  lemma CenterAgainstEdges(b: BBox, across: bool)
    ensures High(b, across) > Low(b, across) ==> Low(b, across) <= CenterOn(b, across) < High(b, across)
    ensures High(b, across) <= Low(b, across) ==>
      if High(b, across) - Low(b, across) >= -1 || Low(b, across) == I32_MIN
      then CenterOn(b, across) == Low(b, across) else CenterOn(b, across) < Low(b, across)
  {
  }

  /** Boxes of positive height share a row exactly when a line other than the last expressible one crosses both. */
  lemma SharedRow(a: BBox, b: BBox)
    requires a.h > 0 && b.h > 0
    ensures SameRow(a, b) <==> exists y :: RowHas(a, y) && RowHas(b, y) && y < I32_MAX
  {
    var top := if a.y >= b.y then a.y else b.y;
    if SameRow(a, b) { assert RowHas(a, top) && RowHas(b, top); }
  }
}
