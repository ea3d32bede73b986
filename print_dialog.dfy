/** The print dialog's placement of the image on the page: conversion between the
  * printer's units, the rotated bounds of the item, its orientation and natural
  * size, the size it is offered, and updateImageGeometry, which fits the print
  * rectangle into the printable area. Lengths are reals (the source's doubles,
  * without rounding); the printer's paper and page rectangles and its resolution
  * are parameters. */
module PrintPlacement {
  import opened Common

  datatype Unit = Millimeter | Point | Inch | Pica | Didot | Cicero | DevicePixel

  /** multiplierForUnit: points per unit; a device pixel is 1/resolution inch. */
  function Multiplier(unit: Unit, resolution: int): (m: real)
    requires resolution >= 1
    ensures m > 0.0
  {
    match unit
    case Millimeter => 2.83464566929
    case Point => 1.0
    case Inch => 72.0
    case Pica => 12.0
    case Didot => 1.065826771
    case Cicero => 12.789921252
    case DevicePixel => 72.0 / (resolution as real)
  }

  /** convert: through points, value * multiplier(from) / multiplier(to). */
  function Convert(value: real, from: Unit, to: Unit, resolution: int): (r: real)
    requires resolution >= 1
    ensures (r > 0.0 <==> value > 0.0) && (r == 0.0 <==> value == 0.0)
  {
    Through(value, Multiplier(from, resolution), Multiplier(to, resolution))
  }

  /** A value in a unit of mFrom points, expressed in a unit of mTo points. */
  function Through(value: real, mFrom: real, mTo: real): real
    requires mTo > 0.0
  {
    value * mFrom / mTo
  }

  lemma ConvertIdentity(value: real, u: Unit, resolution: int)
    requires resolution >= 1
    ensures Convert(value, u, u, resolution) == value
  {
    DivCancel(value, Multiplier(u, resolution));
  }

  lemma DivCancel(v: real, m: real)
    requires m > 0.0
    ensures Through(v, m, m) == v
  {
  }

  /** Converting there and back gives the value again. */
  lemma ConvertRoundTrip(value: real, a: Unit, b: Unit, resolution: int)
    requires resolution >= 1
    ensures Convert(Convert(value, a, b, resolution), b, a, resolution) == value
  {
    var ma, mb := Multiplier(a, resolution), Multiplier(b, resolution);
    ChainCancel(value, ma, mb, ma);
    DivCancel(value, ma);
  }

  /** Converting through an intermediate unit is converting directly. */
  lemma ConvertTransitive(value: real, a: Unit, b: Unit, c: Unit, resolution: int)
    requires resolution >= 1
    ensures Convert(Convert(value, a, b, resolution), b, c, resolution) == Convert(value, a, c, resolution)
  {
    ChainCancel(value, Multiplier(a, resolution), Multiplier(b, resolution), Multiplier(c, resolution));
  }

  lemma ChainCancel(v: real, ma: real, mb: real, mc: real)
    requires ma > 0.0 && mb > 0.0 && mc > 0.0
    ensures Through(Through(v, ma, mb), mb, mc) == Through(v, ma, mc)
  {
    var t := v * ma;
    assert (t / mb) * mb == t;
  }

  // ---- Rectangles and sizes ------------------------------------------------------

  datatype Size = Size(w: real, h: real)

  /** QRectF: top-left corner and size; right() and bottom() are x + w and y + h. */
  datatype Rect = Rect(x: real, y: real, w: real, h: real)
  {
    function Right(): real { x + w }
    function Bottom(): real { y + h }
    function CenterX(): real { x + w / 2.0 }
    function CenterY(): real { y + h / 2.0 }
    function Dims(): Size { Size(w, h) }
    predicate IsEmpty() { w <= 0.0 || h <= 0.0 }
  }

  /** QRectF::normalized: a negative width or height flipped to the other side. */
  function Normalized(r: Rect): (n: Rect)
    ensures n.w >= 0.0 && n.h >= 0.0
    ensures n.CenterX() == r.CenterX() && n.CenterY() == r.CenterY()
  {
    var (x, w) := if r.w < 0.0 then (r.x + r.w, -r.w) else (r.x, r.w);
    var (y, h) := if r.h < 0.0 then (r.y + r.h, -r.h) else (r.y, r.h);
    Rect(x, y, w, h)
  }

  /** |cos| and |sin| of the rotation; for a multiple of 90 degrees QTransform uses
    * the exact values. */
  datatype Turn = Turn(cos: real, sin: real)

  function QuarterTurn(angle: int): (t: Turn)
    requires angle % 90 == 0
  {
    var q := (angle % 360) / 90;
    if q == 0 || q == 2 then Turn(1.0, 0.0) else Turn(0.0, 1.0)
  }

  /** itemBounds: no item gives the null rectangle; otherwise the bounding box of the
    * item's normalized bounds rotated about their centre. */
  function ItemBounds(item: Option<Rect>, t: Turn): (b: Rect)
    requires t.cos >= 0.0 && t.sin >= 0.0
    ensures item.None? ==> b == Rect(0.0, 0.0, 0.0, 0.0)
    ensures item.Some? ==> b.CenterX() == item.value.CenterX() && b.CenterY() == item.value.CenterY()
  {
    if item.None? then Rect(0.0, 0.0, 0.0, 0.0)
    else
      var n := Normalized(item.value);
      var w := n.w * t.cos + n.h * t.sin;
      var h := n.w * t.sin + n.h * t.cos;
      Rect(n.CenterX() - w / 2.0, n.CenterY() - h / 2.0, w, h)
  }

  /** A quarter or three-quarter turn swaps width and height, a half or full turn
    * keeps them. */
  lemma QuarterTurnBounds(r: Rect, angle: int)
    requires angle % 90 == 0
    ensures var b := ItemBounds(Some(r), QuarterTurn(angle));
      var n := Normalized(r);
      var q := (angle % 360) / 90;
      (q == 1 || q == 3 ==> b.w == n.h && b.h == n.w) &&
      (q == 0 || q == 2 ==> b.w == n.w && b.h == n.h)
  {
    var q := (angle % 360) / 90;
    assert 0 <= q < 4;
  }

  datatype Orientation = Horizontal | Vertical

  /** itemOrientation: Vertical unless the bounds are strictly wider than tall. */
  function ItemOrientation(item: Option<Rect>, t: Turn): (o: Orientation)
    requires t.cos >= 0.0 && t.sin >= 0.0
    ensures o == Vertical <==> item.None? || ItemBounds(item, t).h >= ItemBounds(item, t).w
  {
    if item.None? then Vertical
    else
      var b := ItemBounds(item, t);
      if b.h >= b.w then Vertical else Horizontal
  }

  /** A square item counts as Vertical whatever the turn. */
  lemma SquareIsVertical(r: Rect, t: Turn)
    requires t.cos >= 0.0 && t.sin >= 0.0
    requires r.w == r.h
    ensures ItemOrientation(Some(r), t) == Vertical
  {
  }

  /** itemDpi. */
  const ITEM_DPI: real := 72.0

  /** itemSize: the bounds read at 72 dpi, in inches, converted to the unit. */
  function ItemSize(bounds: Rect, unit: Unit, resolution: int): (s: Size)
    requires resolution >= 1
    ensures (s.w > 0.0 <==> bounds.w > 0.0) && (s.h > 0.0 <==> bounds.h > 0.0)
  {
    Size(Convert(bounds.w / ITEM_DPI, Inch, unit, resolution),
         Convert(bounds.h / ITEM_DPI, Inch, unit, resolution))
  }

  /** In points, an item's size is its bounds: one pixel at 72 dpi is one point. */
  lemma ItemSizeInPoints(bounds: Rect, resolution: int)
    requires resolution >= 1
    ensures ItemSize(bounds, Point, resolution) == bounds.Dims()
  {
    DpiCancel(bounds.w);
    DpiCancel(bounds.h);
  }

  lemma DpiCancel(v: real)
    ensures v / 72.0 * 72.0 / 1.0 == v
  {
  }

  /** QSizeF::scaled: IgnoreAspectRatio (or a zero side) gives the target; keeping the
    * aspect ratio gives the largest size of the same shape inside the target. */
  function Scaled(s: Size, target: Size, keepAspect: bool): (r: Size)
  {
    if !keepAspect || s.w == 0.0 || s.h == 0.0 then target
    else
      var rw := target.h * s.w / s.h;
      if rw <= target.w then Size(rw, target.h) else Size(target.w, target.w * s.h / s.w)
  }

  /** The scaled size fits inside the target. */
  lemma ScaledFits(s: Size, target: Size, keepAspect: bool)
    requires s.w > 0.0 && s.h > 0.0 && target.w >= 0.0 && target.h >= 0.0
    ensures Scaled(s, target, keepAspect).w <= target.w && Scaled(s, target, keepAspect).h <= target.h
  {
    if keepAspect {
      var rw := target.h * s.w / s.h;
      if rw > target.w {
        WidthBoundGivesHeightBound(target.w, target.h, s.w, s.h);
      }
    }
  }

  lemma WidthBoundGivesHeightBound(tw: real, th: real, sw: real, sh: real)
    requires sw > 0.0 && sh > 0.0 && tw >= 0.0
    requires tw < th * sw / sh
    ensures tw * sh / sw <= th
  {
    var k := th * sw / sh;
    assert k * sh == th * sw;
    assert tw * sh < k * sh;
    assert tw * sh < th * sw;
    assert (tw * sh / sw) * sw == tw * sh;
  }

  /** Keeping the aspect ratio keeps the shape: width/height of the result is that of
    * the source. */
  lemma ScaledKeepsShape(s: Size, target: Size)
    requires s.w > 0.0 && s.h > 0.0
    ensures Scaled(s, target, true).w * s.h == Scaled(s, target, true).h * s.w
  {
    var r := Scaled(s, target, true);
    var rw := target.h * s.w / s.h;
    if rw <= target.w {
      assert rw * s.h == target.h * s.w;
    } else {
      assert (target.w * s.h / s.w) * s.w == target.w * s.h;
    }
  }

  /** availableItemSize: without a printer, the invalid size (-1, -1); otherwise the
    * available rectangle's size, shrunk to the item's shape when keeping the aspect. */
  function AvailableItemSize(hasPrinter: bool, available: Size, itemSize: Size, keepAspect: bool): (a: Size)
    ensures hasPrinter && itemSize.w > 0.0 && itemSize.h > 0.0 && available.w >= 0.0 && available.h >= 0.0 ==>
      a.w <= available.w && a.h <= available.h
    ensures hasPrinter && keepAspect && itemSize.w > 0.0 && itemSize.h > 0.0 ==>
      a.w * itemSize.h == a.h * itemSize.w
  {
    if !hasPrinter then Size(-1.0, -1.0)
    else if keepAspect then Scaled(itemSize, available, true)
    else available
  }

  /** preferredItemSize: the natural size if it fits, the largest same-shaped size
    * that fits otherwise. */
  function PreferredItemSize(hasPrinter: bool, available: Size, itemSize: Size): (p: Size)
    ensures hasPrinter && itemSize.w > 0.0 && itemSize.h > 0.0 && available.w >= 0.0 && available.h >= 0.0 ==>
      p.w <= available.w && p.h <= available.h
  {
    var a := AvailableItemSize(hasPrinter, available, itemSize, true);
    if itemSize.w <= a.w && itemSize.h <= a.h then itemSize else a
  }

  /** With a printer, the preferred size fits the available area and has the item's
    * shape. */
  lemma PreferredFits(available: Size, itemSize: Size)
    requires itemSize.w > 0.0 && itemSize.h > 0.0 && available.w >= 0.0 && available.h >= 0.0
    ensures var p := PreferredItemSize(true, available, itemSize);
      p.w <= available.w && p.h <= available.h && p.w * itemSize.h == p.h * itemSize.w
  {
    ScaledFits(itemSize, available, true);
    ScaledKeepsShape(itemSize, available);
  }

  /** An item that already fits is printed at its natural size. */
  lemma NaturalSizeWhenItFits(available: Size, itemSize: Size)
    requires itemSize.w > 0.0 && itemSize.h > 0.0
    requires itemSize.w <= available.w && itemSize.h <= available.h
    ensures PreferredItemSize(true, available, itemSize) == itemSize
  {
    var a := Scaled(itemSize, available, true);
    ScaledKeepsShape(itemSize, available);
    var rw := available.h * itemSize.w / itemSize.h;
    if rw <= available.w {
      ShapeAtLeast(itemSize.w, itemSize.h, available.h);
    } else {
      ShapeAtLeast(itemSize.h, itemSize.w, available.w);
    }
  }

  lemma ShapeAtLeast(a: real, b: real, t: real)
    requires a > 0.0 && b > 0.0 && b <= t
    ensures a <= t * a / b
  {
    assert t * a / b * b == t * a;
    assert b * a <= t * a;
  }

  // ---- updatePageOrientation ------------------------------------------------------

  datatype PageOrientation = Portrait | Landscape

  /** With auto-rotate, the page follows the item (portrait for a vertical item);
    * otherwise the printer keeps its orientation. */
  function PageOrientationAfter(autoRotate: bool, item: Orientation, current: PageOrientation): (o: PageOrientation)
    ensures autoRotate ==> (o == Portrait <==> item == Vertical)
    ensures !autoRotate ==> o == current
  {
    if autoRotate then (if item == Vertical then Portrait else Landscape) else current
  }

  /** The two radio buttons after updatePageOrientation: exactly one is checked. */
  function RadioButtons(o: PageOrientation): (r: (bool, bool))
    ensures r.0 != r.1
    ensures r.0 <==> o == Portrait
  {
    (o == Portrait, o == Landscape)
  }

  // ---- updateImageGeometry --------------------------------------------------------

  /** Centering flags: Qt::Horizontal is bit 0, Qt::Vertical bit 1. */
  predicate CenterH(c: nat) { c % 2 == 1 }
  predicate CenterV(c: nat) { (c / 2) % 2 == 1 }

  /** What updateImageGeometry reads besides the print rectangle. */
  datatype Layout = Layout(available: Rect, preferred: Size, keepAspect: bool, centering: nat)

  /** An empty rectangle starts at the preferred size, at the available area's top-left
    * corner, centred on each selected axis. */
  function InitialRect(l: Layout): (r: Rect)
    ensures r.Dims() == l.preferred
    ensures CenterH(l.centering) ==> r.CenterX() == l.available.CenterX()
    ensures !CenterH(l.centering) ==> r.x == l.available.x
    ensures CenterV(l.centering) ==> r.CenterY() == l.available.CenterY()
    ensures !CenterV(l.centering) ==> r.y == l.available.y
  {
    var p := l.preferred;
    var a := l.available;
    var tx := if CenterH(l.centering) then a.CenterX() else a.x + p.w / 2.0;
    var ty := if CenterV(l.centering) then a.CenterY() else a.y + p.h / 2.0;
    Rect(tx - p.w / 2.0, ty - p.h / 2.0, p.w, p.h)
  }

  /** Resizing to `target` keeps the centre on each centred axis and the top-left
    * corner on the others. */
  function Resize(r: Rect, target: Size, centering: nat): (n: Rect)
    ensures n.Dims() == target
    ensures CenterH(centering) ==> n.CenterX() == r.CenterX()
    ensures !CenterH(centering) ==> n.x == r.x
    ensures CenterV(centering) ==> n.CenterY() == r.CenterY()
    ensures !CenterV(centering) ==> n.y == r.y
  {
    var dx := if CenterH(centering) then (r.w - target.w) / 2.0 else 0.0;
    var dy := if CenterV(centering) then (r.h - target.h) / 2.0 else 0.0;
    Rect(r.x + dx, r.y + dy, target.w, target.h)
  }

  function Min(a: real, b: real): real { if a <= b then a else b }

  /** A rectangle too large for the available area is shrunk into it (keeping its shape
    * when asked to), never grown. */
  function Overflow(r: Rect, l: Layout): (n: Rect)
    ensures n.w <= r.w && n.h <= r.h
  {
    var a := l.available;
    if r.w > a.w || r.h > a.h then
      var t := Scaled(r.Dims(), a.Dims(), l.keepAspect);
      Resize(r, Size(Min(t.w, r.w), Min(t.h, r.h)), l.centering)
    else r
  }

  /** After the overflow step the rectangle fits the available size. */
  lemma OverflowFits(r: Rect, l: Layout)
    requires r.w > 0.0 && r.h > 0.0 && l.available.w >= 0.0 && l.available.h >= 0.0
    ensures Overflow(r, l).w <= l.available.w && Overflow(r, l).h <= l.available.h
  {
    ScaledFits(r.Dims(), l.available.Dims(), l.keepAspect);
  }

  /** With keep-aspect, a rectangle whose shape differs from the preferred size's is
    * narrowed to that shape inside its current size. */
  function AspectFix(r: Rect, l: Layout): (n: Rect)
    ensures !l.keepAspect ==> n == r
    ensures l.keepAspect && l.preferred.w > 0.0 && l.preferred.h > 0.0 ==>
      n.w * l.preferred.h == n.h * l.preferred.w
  {
    var p := l.preferred;
    if l.keepAspect && p.w * r.h != r.w * p.h then Resize(r, Scaled(p, r.Dims(), true), l.centering)
    else r
  }

  lemma AspectFixShrinks(r: Rect, l: Layout)
    requires l.preferred.w > 0.0 && l.preferred.h > 0.0 && r.w >= 0.0 && r.h >= 0.0
    ensures AspectFix(r, l).w <= r.w && AspectFix(r, l).h <= r.h
  {
    ScaledFits(l.preferred, r.Dims(), true);
  }

  /** Each centred axis is moved onto the available area's centre. */
  function Recenter(r: Rect, l: Layout): (n: Rect)
    ensures n.Dims() == r.Dims()
    ensures CenterH(l.centering) ==> n.CenterX() == l.available.CenterX()
    ensures CenterV(l.centering) ==> n.CenterY() == l.available.CenterY()
  {
    var a := l.available;
    var r1 := if CenterH(l.centering) && r.CenterX() != a.CenterX() then r.(x := a.CenterX() - r.w / 2.0) else r;
    if CenterV(l.centering) && r1.CenterY() != a.CenterY() then r1.(y := a.CenterY() - r1.h / 2.0) else r1
  }

  /** The final clamp: right, bottom, top, then left edge pulled inside. */
  function Clamp(r: Rect, a: Rect): (n: Rect)
    ensures n.Dims() == r.Dims()
    ensures n.x >= a.x && n.y >= a.y
    ensures r.w <= a.w ==> n.Right() <= a.Right()
    ensures r.h <= a.h ==> n.Bottom() <= a.Bottom()
  {
    var r1 := if r.Right() > a.Right() then r.(x := a.Right() - r.w) else r;
    var r2 := if r1.Bottom() > a.Bottom() then r1.(y := a.Bottom() - r1.h) else r1;
    var r3 := if r2.y < a.y then r2.(y := a.y) else r2;
    if r3.x < a.x then r3.(x := a.x) else r3
  }

  /** A rectangle that fits stays where it is. */
  lemma ClampKeepsInside(r: Rect, a: Rect)
    requires a.x <= r.x && r.Right() <= a.Right() && a.y <= r.y && r.Bottom() <= a.Bottom()
    ensures Clamp(r, a) == r
  {
  }

  predicate Inside(r: Rect, a: Rect)
  {
    a.x <= r.x && r.Right() <= a.Right() && a.y <= r.y && r.Bottom() <= a.Bottom()
  }

  /** updateImageGeometry's rectangle: started afresh when empty, then shrunk, shaped,
    * centred and clamped. */
  function Geometry(r: Rect, l: Layout): (n: Rect)
    ensures n.x >= l.available.x && n.y >= l.available.y
  {
    var r0 := if r.IsEmpty() then InitialRect(l) else r;
    Clamp(Recenter(AspectFix(Overflow(r0, l), l), l), l.available)
  }

  lemma OverflowNonNegative(r: Rect, l: Layout)
    requires r.w > 0.0 && r.h > 0.0 && l.available.w >= 0.0 && l.available.h >= 0.0
    ensures Overflow(r, l).w >= 0.0 && Overflow(r, l).h >= 0.0
  {
    ScaledNonNegative(r.Dims(), l.available.Dims(), l.keepAspect);
  }

  lemma ScaledNonNegative(s: Size, target: Size, keepAspect: bool)
    requires s.w > 0.0 && s.h > 0.0 && target.w >= 0.0 && target.h >= 0.0
    ensures Scaled(s, target, keepAspect).w >= 0.0 && Scaled(s, target, keepAspect).h >= 0.0
  {
    assert target.h * s.w >= 0.0 && target.w * s.h >= 0.0;
  }

  /** Whatever the rectangle was, with a positive preferred size the result lies inside
    * the available area. */
  lemma GeometryInside(r: Rect, l: Layout)
    requires l.preferred.w > 0.0 && l.preferred.h > 0.0
    requires l.available.w >= 0.0 && l.available.h >= 0.0
    ensures Inside(Geometry(r, l), l.available)
  {
    var r0 := if r.IsEmpty() then InitialRect(l) else r;
    OverflowFits(r0, l);
    OverflowNonNegative(r0, l);
    var r1 := Overflow(r0, l);
    AspectFixShrinks(r1, l);
    var r2 := AspectFix(r1, l);
    var r3 := Recenter(r2, l);
    assert r3.w <= l.available.w && r3.h <= l.available.h;
    ClampFits(r3, l.available);
    assert Geometry(r, l) == Clamp(r3, l.available);
  }

  /** A rectangle no larger than the area is clamped into it. */
  lemma ClampFits(r: Rect, a: Rect)
    requires r.w <= a.w && r.h <= a.h
    ensures Inside(Clamp(r, a), a)
  {
  }

  /** A non-empty rectangle that already fits, has the preferred shape and sits centred
    * where asked is left as it is. */
  lemma GeometryStable(r: Rect, l: Layout)
    requires !r.IsEmpty() && Inside(r, l.available)
    requires l.keepAspect ==> l.preferred.w * r.h == r.w * l.preferred.h
    requires CenterH(l.centering) ==> r.CenterX() == l.available.CenterX()
    requires CenterV(l.centering) ==> r.CenterY() == l.available.CenterY()
    ensures Geometry(r, l) == r
  {
    ClampKeepsInside(r, l.available);
  }

  /** Editing an edge clears the centering bit of its axis and keeps the other. */
  function ClearH(c: nat): (r: nat)
    ensures !CenterH(r) && (CenterV(r) <==> CenterV(c))
  {
    if CenterH(c) then c - 1 else c
  }

  function ClearV(c: nat): (r: nat)
    ensures !CenterV(r) && (CenterH(r) <==> CenterH(c))
  {
    if CenterV(c) then c - 2 else c
  }

  /** What the dialog's widgets and the printer supply. */
  datatype Env = Env(hasPrinter: bool, item: Option<Rect>, turn: Turn, resolution: int,
                     paper: Rect, page: Rect, ignoreMargins: bool, keepAspect: bool,
                     sizeUnit: Unit, resolutionUnit: Unit)
  {
    predicate Valid()
    {
      resolution >= 1 && turn.cos >= 0.0 && turn.sin >= 0.0
    }

    function Available(): Rect { if ignoreMargins then paper else page }

    function Bounds(): Rect
      requires Valid()
    {
      ItemBounds(item, turn)
    }

    function LayoutFor(centering: nat): Layout
      requires Valid()
    {
      var preferred := PreferredItemSize(hasPrinter, Available().Dims(), ItemSize(Bounds(), Point, resolution));
      Layout(Available(), preferred, keepAspect, centering)
    }
  }

  /** A width edit, in points; with keep-aspect the height follows the item's shape. */
  function WidthEdit(r: Rect, env: Env, value: real): (n: Rect)
    requires env.Valid() && (env.keepAspect ==> env.Bounds().w > 0.0 && env.Bounds().h > 0.0)
    ensures n.x == r.x && n.y == r.y && n.w == Convert(value, env.sizeUnit, Point, env.resolution)
    ensures env.keepAspect ==> n.w * env.Bounds().h == n.h * env.Bounds().w
    ensures !env.keepAspect ==> n.h == r.h
  {
    var w := Convert(value, env.sizeUnit, Point, env.resolution);
    if env.keepAspect then
      var b := env.Bounds();
      AspectDivide(w, b.w, b.h);
      r.(w := w, h := w / (b.w / b.h))
    else r.(w := w)
  }

  lemma AspectDivide(w: real, bw: real, bh: real)
    requires bw > 0.0 && bh > 0.0
    ensures w * bh == (w / (bw / bh)) * bw
  {
    var q := bw / bh;
    assert q * bh == bw;
    assert (w / q) * q == w;
  }

  /** A height edit, in points; with keep-aspect the width follows. */
  function HeightEdit(r: Rect, env: Env, value: real): (n: Rect)
    requires env.Valid() && (env.keepAspect ==> env.Bounds().h > 0.0)
    ensures n.x == r.x && n.y == r.y && n.h == Convert(value, env.sizeUnit, Point, env.resolution)
    ensures env.keepAspect ==> n.w * env.Bounds().h == n.h * env.Bounds().w
    ensures !env.keepAspect ==> n.w == r.w
  {
    var h := Convert(value, env.sizeUnit, Point, env.resolution);
    if env.keepAspect then
      var b := env.Bounds();
      AspectMultiply(h, b.w, b.h);
      r.(h := h, w := h * (b.w / b.h))
    else r.(h := h)
  }

  lemma AspectMultiply(h: real, bw: real, bh: real)
    requires bh > 0.0
    ensures (h * (bw / bh)) * bh == h * bw
  {
    assert (bw / bh) * bh == bw;
  }

  /** The print-resolution edits: value pixels per resolution unit give the width (or
    * height) of the item in that unit, converted to points. */
  function XResolutionEdit(r: Rect, env: Env, value: real): (n: Rect)
    requires env.Valid() && value != 0.0 && (env.keepAspect ==> env.Bounds().w > 0.0 && env.Bounds().h > 0.0)
    ensures n.x == r.x && n.y == r.y
    ensures n.w == Convert(env.Bounds().w / value, env.resolutionUnit, Point, env.resolution)
    ensures env.keepAspect ==> n.w * env.Bounds().h == n.h * env.Bounds().w
    ensures !env.keepAspect ==> n.h == r.h
  {
    var b := env.Bounds();
    var w := Convert(b.w / value, env.resolutionUnit, Point, env.resolution);
    if env.keepAspect then
      AspectDivide(w, b.w, b.h);
      r.(w := w, h := w / (b.w / b.h))
    else r.(w := w)
  }

  function YResolutionEdit(r: Rect, env: Env, value: real): (n: Rect)
    requires env.Valid() && value != 0.0 && (env.keepAspect ==> env.Bounds().h > 0.0)
    ensures n.x == r.x && n.y == r.y
    ensures n.h == Convert(env.Bounds().h / value, env.resolutionUnit, Point, env.resolution)
    ensures env.keepAspect ==> n.w * env.Bounds().h == n.h * env.Bounds().w
    ensures !env.keepAspect ==> n.w == r.w
  {
    var b := env.Bounds();
    var h := Convert(b.h / value, env.resolutionUnit, Point, env.resolution);
    if env.keepAspect then
      AspectMultiply(h, b.w, b.h);
      r.(h := h, w := h * (b.w / b.h))
    else r.(h := h)
  }

  /** The printer's state label; an unknown state shows its number. */
  function StateLabel(state: int): (s: string)
    ensures 0 <= state <= 3 ==> |s| <= 7
    ensures !(0 <= state <= 3) ==> |s| >= 11 && s[..9] == "Unknown (" && s[|s| - 1] == ')'
  {
    if state == 0 then "Idle"
    else if state == 1 then "Active"
    else if state == 2 then "Aborted"
    else if state == 3 then "Error"
    else "Unknown (" + IntToString(state) + ")"
  }

  /** Different states get different labels. */
  lemma StateLabelsDiffer(a: int, b: int)
    requires a != b
    ensures StateLabel(a) != StateLabel(b)
  {
    if !(0 <= a <= 3) && !(0 <= b <= 3) {
      UnknownLabelsDiffer(a, b);
    }
  }

  lemma UnknownLabelsDiffer(a: int, b: int)
    requires a != b && !(0 <= a <= 3) && !(0 <= b <= 3)
    ensures StateLabel(a) != StateLabel(b)
  {
    var ia, ib := IntToString(a), IntToString(b);
    IntToStringParses(a);
    IntToStringParses(b);
    assert ia != ib;
    LabelsOfDistinctNumbers("Unknown (", ia, ib, ")");
  }

  lemma LabelsOfDistinctNumbers(prefix: string, x: string, y: string, suffix: string)
    requires x != y
    ensures prefix + x + suffix != prefix + y + suffix
  {
    if |x| == |y| {
      var k :| 0 <= k < |x| && x[k] != y[k];
      assert (prefix + x + suffix)[|prefix| + k] == x[k];
      assert (prefix + y + suffix)[|prefix| + k] == y[k];
    } else {
      assert |prefix + x + suffix| != |prefix + y + suffix|;
    }
  }

  // ---- The dialog ------------------------------------------------------------------

  /** The dialog's own state: the print rectangle in points, the centering flags and
    * the printer's page orientation. */
  class PrintDialog {
    var itemPrintRect: Rect
    var centering: nat
    var orientation: PageOrientation

    /** A new dialog centres on both axes and has no print rectangle yet. */
    constructor (printerOrientation: PageOrientation)
      ensures itemPrintRect == Rect(0.0, 0.0, 0.0, 0.0) && centering == 3 && orientation == printerOrientation
    {
      itemPrintRect := Rect(0.0, 0.0, 0.0, 0.0);
      centering := 3;
      orientation := printerOrientation;
    }

    /** updateImageGeometry: nothing without a printer or an item. */
    method UpdateImageGeometry(env: Env)
      requires env.Valid()
      modifies this
      ensures !env.hasPrinter || env.item.None? ==> itemPrintRect == old(itemPrintRect)
      ensures env.hasPrinter && env.item.Some? ==>
        itemPrintRect == Geometry(old(itemPrintRect), env.LayoutFor(centering))
      ensures centering == old(centering) && orientation == old(orientation)
    {
      if !env.hasPrinter || env.item.None? {
        return;
      }
      var l := env.LayoutFor(centering);
      var rect := itemPrintRect;
      if rect.IsEmpty() {
        rect := InitialRect(l);
      }
      rect := Overflow(rect, l);
      rect := AspectFix(rect, l);
      rect := Recenter(rect, l);
      rect := Clamp(rect, l.available);
      itemPrintRect := rect;
    }

    /** updatePageOrientation followed by the geometry, after forgetting the rectangle
      * (updatePageInfo). */
    method UpdatePageInfo(env: Env, autoRotate: bool)
      requires env.Valid()
      modifies this
      ensures env.hasPrinter ==>
        orientation == PageOrientationAfter(autoRotate, ItemOrientation(env.item, env.turn), old(orientation))
      ensures !env.hasPrinter ==> orientation == old(orientation)
      ensures env.hasPrinter && env.item.Some? ==>
        itemPrintRect == Geometry(Rect(0.0, 0.0, 0.0, 0.0), env.LayoutFor(centering))
      ensures !(env.hasPrinter && env.item.Some?) ==> itemPrintRect == Rect(0.0, 0.0, 0.0, 0.0)
      ensures centering == old(centering)
    {
      itemPrintRect := Rect(0.0, 0.0, 0.0, 0.0);
      if env.hasPrinter && autoRotate {
        orientation := if ItemOrientation(env.item, env.turn) == Vertical then Portrait else Landscape;
      }
      UpdateImageGeometry(env);
    }

    method OnWidthChanged(env: Env, value: real)
      requires env.Valid() && (env.keepAspect ==> env.Bounds().w > 0.0 && env.Bounds().h > 0.0)
      modifies this
      ensures env.hasPrinter && env.item.Some? ==>
        itemPrintRect == Geometry(WidthEdit(old(itemPrintRect), env, value), env.LayoutFor(centering))
      ensures !(env.hasPrinter && env.item.Some?) ==> itemPrintRect == WidthEdit(old(itemPrintRect), env, value)
      ensures centering == old(centering) && orientation == old(orientation)
    {
      itemPrintRect := WidthEdit(itemPrintRect, env, value);
      UpdateImageGeometry(env);
    }

    method OnHeightChanged(env: Env, value: real)
      requires env.Valid() && (env.keepAspect ==> env.Bounds().h > 0.0)
      modifies this
      ensures env.hasPrinter && env.item.Some? ==>
        itemPrintRect == Geometry(HeightEdit(old(itemPrintRect), env, value), env.LayoutFor(centering))
      ensures !(env.hasPrinter && env.item.Some?) ==> itemPrintRect == HeightEdit(old(itemPrintRect), env, value)
      ensures centering == old(centering) && orientation == old(orientation)
    {
      itemPrintRect := HeightEdit(itemPrintRect, env, value);
      UpdateImageGeometry(env);
    }

    method OnXResolutionChanged(env: Env, value: real)
      requires env.Valid() && value != 0.0 && (env.keepAspect ==> env.Bounds().w > 0.0 && env.Bounds().h > 0.0)
      modifies this
      ensures env.hasPrinter && env.item.Some? ==>
        itemPrintRect == Geometry(XResolutionEdit(old(itemPrintRect), env, value), env.LayoutFor(centering))
      ensures !(env.hasPrinter && env.item.Some?) ==> itemPrintRect == XResolutionEdit(old(itemPrintRect), env, value)
      ensures centering == old(centering) && orientation == old(orientation)
    {
      itemPrintRect := XResolutionEdit(itemPrintRect, env, value);
      UpdateImageGeometry(env);
    }

    method OnYResolutionChanged(env: Env, value: real)
      requires env.Valid() && value != 0.0 && (env.keepAspect ==> env.Bounds().h > 0.0)
      modifies this
      ensures env.hasPrinter && env.item.Some? ==>
        itemPrintRect == Geometry(YResolutionEdit(old(itemPrintRect), env, value), env.LayoutFor(centering))
      ensures !(env.hasPrinter && env.item.Some?) ==> itemPrintRect == YResolutionEdit(old(itemPrintRect), env, value)
      ensures centering == old(centering) && orientation == old(orientation)
    {
      itemPrintRect := YResolutionEdit(itemPrintRect, env, value);
      UpdateImageGeometry(env);
    }

    /** onLeftChanged / onRightChanged: the rectangle moved horizontally, horizontal
      * centering switched off. */
    method OnLeftChanged(env: Env, value: real)
      requires env.Valid()
      modifies this
      ensures centering == ClearH(old(centering)) && orientation == old(orientation)
      ensures env.hasPrinter && env.item.Some? ==>
        itemPrintRect == Geometry(old(itemPrintRect).(x := Convert(value, env.sizeUnit, Point, env.resolution)),
                                  env.LayoutFor(centering))
      ensures !(env.hasPrinter && env.item.Some?) ==>
        itemPrintRect == old(itemPrintRect).(x := Convert(value, env.sizeUnit, Point, env.resolution))
    {
      itemPrintRect := itemPrintRect.(x := Convert(value, env.sizeUnit, Point, env.resolution));
      centering := ClearH(centering);
      UpdateImageGeometry(env);
    }

    method OnRightChanged(env: Env, value: real)
      requires env.Valid()
      modifies this
      ensures centering == ClearH(old(centering)) && orientation == old(orientation)
      ensures env.hasPrinter && env.item.Some? ==>
        itemPrintRect == Geometry(old(itemPrintRect).(x := Convert(value, env.sizeUnit, Point, env.resolution) - old(itemPrintRect).w),
                                  env.LayoutFor(centering))
      ensures !(env.hasPrinter && env.item.Some?) ==>
        itemPrintRect == old(itemPrintRect).(x := Convert(value, env.sizeUnit, Point, env.resolution) - old(itemPrintRect).w)
    {
      itemPrintRect := itemPrintRect.(x := Convert(value, env.sizeUnit, Point, env.resolution) - itemPrintRect.w);
      centering := ClearH(centering);
      UpdateImageGeometry(env);
    }

    /** onTopChanged / onBottomChanged: moved vertically, vertical centering off. */
    method OnTopChanged(env: Env, value: real)
      requires env.Valid()
      modifies this
      ensures centering == ClearV(old(centering)) && orientation == old(orientation)
      ensures env.hasPrinter && env.item.Some? ==>
        itemPrintRect == Geometry(old(itemPrintRect).(y := Convert(value, env.sizeUnit, Point, env.resolution)),
                                  env.LayoutFor(centering))
      ensures !(env.hasPrinter && env.item.Some?) ==>
        itemPrintRect == old(itemPrintRect).(y := Convert(value, env.sizeUnit, Point, env.resolution))
    {
      itemPrintRect := itemPrintRect.(y := Convert(value, env.sizeUnit, Point, env.resolution));
      centering := ClearV(centering);
      UpdateImageGeometry(env);
    }

    method OnBottomChanged(env: Env, value: real)
      requires env.Valid()
      modifies this
      ensures centering == ClearV(old(centering)) && orientation == old(orientation)
      ensures env.hasPrinter && env.item.Some? ==>
        itemPrintRect == Geometry(old(itemPrintRect).(y := Convert(value, env.sizeUnit, Point, env.resolution) - old(itemPrintRect).h),
                                  env.LayoutFor(centering))
      ensures !(env.hasPrinter && env.item.Some?) ==>
        itemPrintRect == old(itemPrintRect).(y := Convert(value, env.sizeUnit, Point, env.resolution) - old(itemPrintRect).h)
    {
      itemPrintRect := itemPrintRect.(y := Convert(value, env.sizeUnit, Point, env.resolution) - itemPrintRect.h);
      centering := ClearV(centering);
      UpdateImageGeometry(env);
    }

    /** onLoadDefaultsClicked: the rectangle recomputed from scratch. */
    method OnLoadDefaultsClicked(env: Env)
      requires env.Valid()
      modifies this
      ensures env.hasPrinter && env.item.Some? ==>
        itemPrintRect == Geometry(Rect(0.0, 0.0, 0.0, 0.0), env.LayoutFor(centering))
      ensures !(env.hasPrinter && env.item.Some?) ==> itemPrintRect == Rect(0.0, 0.0, 0.0, 0.0)
      ensures centering == old(centering) && orientation == old(orientation)
    {
      itemPrintRect := Rect(0.0, 0.0, 0.0, 0.0);
      UpdateImageGeometry(env);
    }
  }
}
