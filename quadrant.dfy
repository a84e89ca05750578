/** Quarter circles for the corners of a rounded rectangle: `QuadrantIterator`
    classifies offsets exactly as `CircleIterator` does, over one quarter of
    the square, and `quadrant` puts every pixel it yields. */
module Quadrants {
  import opened Api
  import opened Framebuffer
  import opened Circles

  datatype Quadrant = TopLeft | TopRight | BottomLeft | BottomRight

  predicate IsTop(quad: Quadrant) {
    quad.TopLeft? || quad.TopRight?
  }

  /** The cursor's column range: the left quadrants wrap past 0 back to -r,
      the right ones past r back to 0. */
  function XMin(quad: Quadrant, r: int): int {
    if quad.TopLeft? || quad.BottomLeft? then -r else 0
  }

  function XMax(quad: Quadrant, r: int): int {
    if quad.TopLeft? || quad.BottomLeft? then 0 else r
  }

  /** The offset `quadrant` starts the cursor at. */
  function StartOffset(quad: Quadrant, r: int): Point {
    match quad
    case TopLeft => Point(-r, -r)
    case TopRight => Point(0, -r)
    case BottomLeft => Point(-r, 0)
    case BottomRight => Point(0, 0)
  }

  /** The pixels a top quadrant still yields from cursor p: it stops, with
      None, as soon as the advanced cursor is below row 1, which drops the
      item of the last offset (XMax, 1). */
  function TopScan(center: Point, r: int, style: DrawStyle, clip: Option<Rectangle>, quad: Quadrant, p: Point): seq<Pixel>
    requires IsTop(quad)
    decreases 2 - p.y, XMax(quad, r) - p.x
  {
    if Transparent(style) then []
    else
      var q := Advance(p, XMin(quad, r), XMax(quad, r));
      if q.y > 1 then [] else AsSeq(CircleItem(center, r, style, clip, p)) + TopScan(center, r, style, clip, quad, q)
  }

  /** Below this row no offset has a class, whatever its column. */
  function BottomBound(r: int, style: DrawStyle): int {
    Abs(r) + Abs(style.strokeWidth) + 2
  }

  /** An offset at or below row BottomBound is too far out for the border ring
      and for the disc. */
  lemma FarRowEmpty(center: Point, r: int, style: DrawStyle, clip: Option<Rectangle>, t: Point)
    ensures t.y >= BottomBound(r, style) ==> CircleItem(center, r, style, clip, t) == None
  {
    if t.y >= BottomBound(r, style) {
      var a, w := Abs(r), Abs(style.strokeWidth);
      var inner := r - style.strokeWidth + 1;
      var len := t.x * t.x + t.y * t.y;
      assert a * a == r * r;
      assert t.x * t.x >= 0;
      assert t.y * t.y >= (a + w + 2) * (a + w + 2) by {
        SquareMonotone(a + w + 2, t.y);
      }
      assert (a + w) * (a + w) >= a * a by {
        SquareMonotone(a, a + w);
      }
      assert (a + w + 2) * (a + w + 2) == (a + w) * (a + w) + 4 * (a + w) + 4;
      assert len >= r * r + inner && len > r * r + 1;
      assert CircleColor(r, style, t) == None;
    }
  }

  /** The pixels a bottom quadrant still yields from cursor p.  Once the
      advanced cursor is below row r the step returns its item whatever it
      is, so the `for` loop stops at the first None but goes on past the
      box's last row while the items keep coming. */
  function BottomScan(center: Point, r: int, style: DrawStyle, clip: Option<Rectangle>, quad: Quadrant, p: Point): seq<Pixel>
    requires !IsTop(quad)
    decreases BottomBound(r, style) + 1 - p.y, XMax(quad, r) - p.x
  {
    if Transparent(style) then []
    else
      var item := CircleItem(center, r, style, clip, p);
      var q := Advance(p, XMin(quad, r), XMax(quad, r));
      if q.y > r && item.None? then []
      else
        FarRowEmpty(center, r, style, clip, p);
        AsSeq(item) + BottomScan(center, r, style, clip, quad, q)
  }

  function QuadrantScan(center: Point, r: int, style: DrawStyle, clip: Option<Rectangle>, quad: Quadrant, p: Point): seq<Pixel> {
    if IsTop(quad) then TopScan(center, r, style, clip, quad, p)
    else BottomScan(center, r, style, clip, quad, p)
  }

  /** Whether one pass of the loop from p goes on to the advanced cursor q
      rather than ending the scan. */
  predicate GoesOn(r: int, quad: Quadrant, item: Option<Pixel>, q: Point) {
    if IsTop(quad) then q.y <= 1 else !(q.y > r && item.None?)
  }

  /** One pass of the iterator's loop from p: classify p and advance; the scan
      ends there or goes on, after p's item, from the advanced cursor. */
  lemma QuadrantStep(center: Point, r: int, style: DrawStyle, clip: Option<Rectangle>, quad: Quadrant, p: Point, last: int)
    requires !Transparent(style)
    requires last == if IsTop(quad) then 1 else BottomBound(r, style)
    ensures var item := CircleItem(center, r, style, clip, p);
      var q := Advance(p, XMin(quad, r), XMax(quad, r));
      var scan := QuadrantScan(center, r, style, clip, quad, p);
      && (!GoesOn(r, quad, item, q) ==> scan == [])
      && (GoesOn(r, quad, item, q) && item.None? ==> scan == QuadrantScan(center, r, style, clip, quad, q))
      && (GoesOn(r, quad, item, q) && item.Some? ==> scan == [item.value] + QuadrantScan(center, r, style, clip, quad, q))
      && (GoesOn(r, quad, item, q) ==> p.y <= last && q.y <= last)
  {
    FarRowEmpty(center, r, style, clip, p);
    var item := CircleItem(center, r, style, clip, p);
    var q := Advance(p, XMin(quad, r), XMax(quad, r));
    if item.None? {
      assert AsSeq(item) + QuadrantScan(center, r, style, clip, quad, q) == QuadrantScan(center, r, style, clip, quad, q);
    }
    assert r * r >= 0;
  }

  /** Everything `quadrant` draws for a circle and a quadrant tag. */
  function QuadrantPixels(c: Circle, quad: Quadrant, clip: Option<Rectangle>): seq<Pixel> {
    QuadrantScan(c.center, c.radius, c.style, clip, quad, StartOffset(quad, c.radius))
  }

  // ---------------------------------------------------------------- the iterator

  class QuadrantIterator {
    const center: Point
    /** The radius as the i16 the iterator reads back from its u16 field. */
    const radius: int
    const style: DrawStyle
    var p: Point
    const quad: Quadrant
    const clip: Option<Rectangle>

    /** The pixels still to come. */
    ghost function Remaining(): seq<Pixel>
      reads this
    {
      QuadrantScan(center, radius, style, clip, quad, p)
    }

    constructor(center: Point, radius: int, style: DrawStyle, p: Point, quad: Quadrant, clip: Option<Rectangle>)
      ensures this.center == center && this.radius == radius && this.style == style
      ensures this.p == p && this.quad == quad && this.clip == clip
    {
      this.center := center;
      this.radius := radius;
      this.style := style;
      this.p := p;
      this.quad := quad;
      this.clip := clip;
    }

    /** `self.p.x += 1` and the tag's row wrap: the left quadrants wrap past
        column 0 to -r, the right ones past column r to 0. */
    method AdvanceCursor()
      modifies this
      ensures p == Advance(old(p), XMin(quad, radius), XMax(quad, radius))
    {
      p := Point(p.x + 1, p.y);
      match quad
      case TopLeft | BottomLeft =>
        if p.x > 0 {
          p := Point(-radius, p.y + 1);
        }
      case TopRight | BottomRight =>
        if p.x > radius {
          p := Point(0, p.y + 1);
        }
    }

    /** `next`: None when nothing remains, else the first remaining pixel.
        After a None of a bottom quadrant further calls could go on. */
    method Next() returns (item: Option<Pixel>)
      modifies this
      ensures item.None? ==> old(Remaining()) == []
      ensures item.Some? ==> old(Remaining()) == [item.value] + Remaining()
    {
      if style.strokeColor.None? && style.fillColor.None? {
        return None;
      }
      var innerRadius := radius - style.strokeWidth + 1;
      var outerRadius := radius;
      var innerRadiusSq := innerRadius * innerRadius;
      var outerRadiusSq := outerRadius * outerRadius;
      ghost var last := if IsTop(quad) then 1 else BottomBound(radius, style);
      while true
        invariant Remaining() == old(Remaining())
        decreases last + 1 - p.y, XMax(quad, radius) - p.x
      {
        ghost var p0 := p;
        item := None;
        if clip.None? || Contains(clip.value, Add(p, center)) {
          var t := p;
          var len := t.x * t.x + t.y * t.y;
          var isBorder := len > innerRadiusSq - innerRadius && len < outerRadiusSq + innerRadius;
          var isFill := len <= outerRadiusSq + 1;
          if isBorder && style.strokeColor.Some? {
            item := Some(Pixel(Add(center, t), style.strokeColor.value));
          } else if isFill && style.fillColor.Some? {
            item := Some(Pixel(Add(center, t), style.fillColor.value));
          }
        }
        assert item == CircleItem(center, radius, style, clip, p0);
        QuadrantStep(center, radius, style, clip, quad, p0, last);
        AdvanceCursor();
        if IsTop(quad) {
          if p.y > 1 {
            return None;
          }
        } else {
          if p.y > radius {
            return item;
          }
        }
        if item.Some? {
          return item;
        }
      }
    }
  }

  /** `quadrant`: puts every pixel of the iterator started at the tag's offset. */
  method DrawQuadrant(fb: array<bv32>, circle: Circle, quad: Quadrant, clip: Option<Rectangle>)
    requires fb.Length == FrameBufSize
    requires Drawable(QuadrantPixels(circle, quad, clip))
    modifies fb
    ensures fb[..] == PaintAll(old(fb[..]), QuadrantPixels(circle, quad, clip))
  {
    var startingPixel := match quad
      case TopLeft => Point(-circle.radius, -circle.radius)
      case TopRight => Point(0, -circle.radius)
      case BottomLeft => Point(-circle.radius, 0)
      case BottomRight => Point(0, 0);
    var q := new QuadrantIterator(circle.center, circle.radius, circle.style, startingPixel, quad, clip);
    ghost var all := QuadrantPixels(circle, quad, clip);
    ghost var done: seq<Pixel> := [];
    while true
      invariant q.center == circle.center && q.radius == circle.radius && q.style == circle.style
      invariant q.quad == quad && q.clip == clip
      invariant done + q.Remaining() == all
      invariant Drawable(done)
      invariant fb[..] == PaintAll(old(fb[..]), done)
      decreases |q.Remaining()|
    {
      var item := q.Next();
      if item.None? {
        assert done == all;
        break;
      }
      var px := item.value;
      DrawableStep(done, px, q.Remaining());
      PutPixel(fb, px.p.x, px.p.y, px.c);
      PaintAllSnoc(old(fb[..]), done, px);
      done := done + [px];
    }
  }

  // ---------------------------------------------------------------- what the scan yields

  /** Every pixel of a top quadrant's scan from p has its offset at or after p. */
  lemma {:induction false} TopScanAfter(center: Point, r: int, style: DrawStyle, clip: Option<Rectangle>, quad: Quadrant, p: Point, px: Pixel)
    requires IsTop(quad) && px in TopScan(center, r, style, clip, quad, p)
    ensures !Before(Sub(px.p, center), p)
    decreases 2 - p.y, XMax(quad, r) - p.x
  {
    var q := Advance(p, XMin(quad, r), XMax(quad, r));
    if px !in AsSeq(CircleItem(center, r, style, clip, p)) {
      TopScanAfter(center, r, style, clip, quad, q, px);
    }
  }

  /** Every pixel of a bottom quadrant's scan from p has its offset at or after p. */
  lemma {:induction false} BottomScanAfter(center: Point, r: int, style: DrawStyle, clip: Option<Rectangle>, quad: Quadrant, p: Point, px: Pixel)
    requires !IsTop(quad) && px in BottomScan(center, r, style, clip, quad, p)
    ensures !Before(Sub(px.p, center), p)
    decreases BottomBound(r, style) + 1 - p.y, XMax(quad, r) - p.x
  {
    var q := Advance(p, XMin(quad, r), XMax(quad, r));
    FarRowEmpty(center, r, style, clip, p);
    if px !in AsSeq(CircleItem(center, r, style, clip, p)) {
      BottomScanAfter(center, r, style, clip, quad, q, px);
    }
  }

  /** A quadrant's pixels come in strictly increasing row-major order. */
  lemma {:induction false} TopScanRowMajor(center: Point, r: int, style: DrawStyle, clip: Option<Rectangle>, quad: Quadrant, p: Point)
    requires IsTop(quad)
    ensures RowMajor(TopScan(center, r, style, clip, quad, p))
    decreases 2 - p.y, XMax(quad, r) - p.x
  {
    var q := Advance(p, XMin(quad, r), XMax(quad, r));
    if !Transparent(style) && q.y <= 1 {
      var item := CircleItem(center, r, style, clip, p);
      var rest := TopScan(center, r, style, clip, quad, q);
      TopScanRowMajor(center, r, style, clip, quad, q);
      forall j | 0 <= j < |rest|
        ensures item.Some? ==> Before(item.value.p, rest[j].p)
      {
        TopScanAfter(center, r, style, clip, quad, q, rest[j]);
      }
      RowMajorCons(item, rest);
    }
  }

  lemma {:induction false} BottomScanRowMajor(center: Point, r: int, style: DrawStyle, clip: Option<Rectangle>, quad: Quadrant, p: Point)
    requires !IsTop(quad)
    ensures RowMajor(BottomScan(center, r, style, clip, quad, p))
    decreases BottomBound(r, style) + 1 - p.y, XMax(quad, r) - p.x
  {
    var q := Advance(p, XMin(quad, r), XMax(quad, r));
    var item := CircleItem(center, r, style, clip, p);
    FarRowEmpty(center, r, style, clip, p);
    if !Transparent(style) && !(q.y > r && item.None?) {
      var rest := BottomScan(center, r, style, clip, quad, q);
      BottomScanRowMajor(center, r, style, clip, quad, q);
      forall j | 0 <= j < |rest|
        ensures item.Some? ==> Before(item.value.p, rest[j].p)
      {
        BottomScanAfter(center, r, style, clip, quad, q, rest[j]);
      }
      RowMajorCons(item, rest);
    }
  }

  lemma QuadrantRowMajor(c: Circle, quad: Quadrant, clip: Option<Rectangle>)
    ensures RowMajor(QuadrantPixels(c, quad, clip))
  {
    var p := StartOffset(quad, c.radius);
    if IsTop(quad) {
      TopScanRowMajor(c.center, c.radius, c.style, clip, quad, p);
    } else {
      BottomScanRowMajor(c.center, c.radius, c.style, clip, quad, p);
    }
  }

  /** Offsets in the cursor's columns, on or above row `last`. */
  predicate InColumnsUpTo(quad: Quadrant, r: int, last: int, t: Point) {
    XMin(quad, r) <= t.x <= XMax(quad, r) && t.y <= last
  }

  /** A top quadrant yields a pixel from p exactly when its offset lies in
      the columns, on or above row 1, at or after p and is not the dropped
      last offset (XMax, 1), and the offset's item is the pixel. */
  lemma {:induction false} TopScanMember(center: Point, r: int, style: DrawStyle, clip: Option<Rectangle>, quad: Quadrant, p: Point, px: Pixel)
    requires IsTop(quad) && XMin(quad, r) <= p.x <= XMax(quad, r)
    ensures px in TopScan(center, r, style, clip, quad, p) <==>
      var t := Sub(px.p, center);
      InColumnsUpTo(quad, r, 1, t) && !Before(t, p) && t != Point(XMax(quad, r), 1)
      && CircleItem(center, r, style, clip, t) == Some(px)
    decreases 2 - p.y, XMax(quad, r) - p.x
  {
    var t := Sub(px.p, center);
    if Transparent(style) {
      assert CircleColor(r, style, t) == None;
    } else {
      var q := Advance(p, XMin(quad, r), XMax(quad, r));
      if q.y <= 1 {
        TopScanMember(center, r, style, clip, quad, q, px);
        if XMin(quad, r) <= t.x <= XMax(quad, r) {
          AdvanceCovers(p, XMin(quad, r), XMax(quad, r), t);
        }
      }
    }
  }

  /** A bottom quadrant yields a pixel whose offset is on or above row r
      exactly when the offset lies in the columns at or after p and its item
      is the pixel: unlike the circle and the top quadrants it keeps its last
      offset (XMax, r). */
  lemma {:induction false} BottomScanMember(center: Point, r: int, style: DrawStyle, clip: Option<Rectangle>, quad: Quadrant, p: Point, px: Pixel)
    requires !IsTop(quad) && XMin(quad, r) <= p.x <= XMax(quad, r)
    ensures px in BottomScan(center, r, style, clip, quad, p) && Sub(px.p, center).y <= r <==>
      var t := Sub(px.p, center);
      InColumnsUpTo(quad, r, r, t) && !Before(t, p) && CircleItem(center, r, style, clip, t) == Some(px)
    decreases BottomBound(r, style) + 1 - p.y, XMax(quad, r) - p.x
  {
    var t := Sub(px.p, center);
    var item := CircleItem(center, r, style, clip, p);
    var q := Advance(p, XMin(quad, r), XMax(quad, r));
    FarRowEmpty(center, r, style, clip, p);
    if Transparent(style) {
      assert CircleColor(r, style, t) == None;
    } else if q.y <= r {
      BottomScanMember(center, r, style, clip, quad, q, px);
      if XMin(quad, r) <= t.x <= XMax(quad, r) {
        AdvanceCovers(p, XMin(quad, r), XMax(quad, r), t);
      }
    } else {
      if px in BottomScan(center, r, style, clip, quad, q) {
        BottomScanAfter(center, r, style, clip, quad, q, px);
      }
      if XMin(quad, r) <= t.x <= XMax(quad, r) {
        AdvanceCovers(p, XMin(quad, r), XMax(quad, r), t);
      }
    }
  }

  /** The last row a bottom quadrant can reach: row r, or row 1 for the
      radius-0 overrun. */
  function LastRow(r: int): int {
    if r >= 1 then r else 1
  }

  /** For r >= 0 no offset below `LastRow(r)` has a class, whatever the
      stroke width: its squared length is past the disc, and past the ring,
      which is empty when the inner radius exceeds r (always, for r = 0). */
  lemma BelowRowEmpty(center: Point, r: int, style: DrawStyle, clip: Option<Rectangle>, t: Point)
    requires r >= 0 && t.y > LastRow(r)
    ensures CircleItem(center, r, style, clip, t) == None
  {
    var inner := r - style.strokeWidth + 1;
    assert t.x * t.x >= 0;
    if r >= 1 {
      assert t.y * t.y >= (r + 1) * (r + 1) by {
        SquareMonotone(r + 1, t.y);
      }
      assert (r + 1) * (r + 1) == r * r + 2 * r + 1;
      if inner > r {
        assert inner * inner - inner >= r * r + inner - 1 by {
          SquareMonotone(r, inner - 1);
          assert inner * inner - inner - (r * r + inner - 1) == (inner - 1) * (inner - 1) - r * r;
        }
      }
    } else {
      assert t.y * t.y >= 4 by {
        SquareMonotone(2, t.y);
      }
      assert inner * inner - inner >= inner - 1 by {
        assert inner * inner - inner - (inner - 1) == (inner - 1) * (inner - 1);
      }
    }
    assert CircleColor(r, style, t) == None;
  }

  lemma SquareMonotone(a: int, b: int)
    requires 0 <= a <= b
    ensures a * a <= b * b
  {
    MulMono(a, a, b);
    MulMono(b, a, b);
  }

  /** So a bottom quadrant stays on rows up to `LastRow(r)`: in its box for
      r >= 1, and one row below it for r = 0. */
  lemma {:induction false} BottomNoOverrun(center: Point, r: int, style: DrawStyle, clip: Option<Rectangle>, quad: Quadrant, p: Point, px: Pixel)
    requires !IsTop(quad) && r >= 0
    ensures px in BottomScan(center, r, style, clip, quad, p) ==> Sub(px.p, center).y <= LastRow(r)
    decreases BottomBound(r, style) + 1 - p.y, XMax(quad, r) - p.x
  {
    if px in BottomScan(center, r, style, clip, quad, p) {
      var item := CircleItem(center, r, style, clip, p);
      var q := Advance(p, XMin(quad, r), XMax(quad, r));
      FarRowEmpty(center, r, style, clip, p);
      if p.y > LastRow(r) {
        BelowRowEmpty(center, r, style, clip, p);
        BelowRowEmpty(center, r, style, clip, q);
      }
      if px !in AsSeq(item) {
        BottomNoOverrun(center, r, style, clip, quad, q, px);
      }
    }
  }

  /** Every pixel of a bottom quadrant's scan is the item of its own offset,
      and that offset lies in the tag's columns. */
  lemma {:induction false} BottomScanItem(center: Point, r: int, style: DrawStyle, clip: Option<Rectangle>, quad: Quadrant, p: Point, px: Pixel)
    requires !IsTop(quad) && XMin(quad, r) <= p.x <= XMax(quad, r)
    ensures px in BottomScan(center, r, style, clip, quad, p) ==>
      var t := Sub(px.p, center);
      XMin(quad, r) <= t.x <= XMax(quad, r) && CircleItem(center, r, style, clip, t) == Some(px)
    decreases BottomBound(r, style) + 1 - p.y, XMax(quad, r) - p.x
  {
    if px in BottomScan(center, r, style, clip, quad, p) {
      var item := CircleItem(center, r, style, clip, p);
      var q := Advance(p, XMin(quad, r), XMax(quad, r));
      FarRowEmpty(center, r, style, clip, p);
      if px in AsSeq(item) {
        assert Sub(Add(center, p), center) == p;
      } else {
        BottomScanItem(center, r, style, clip, quad, q, px);
      }
    }
  }

  /** The offsets `quadrant` covers for a tag: the tag's columns, rows -r..1
      for the top quadrants (without their dropped last offset (XMax, 1)) and
      rows 0..r for the bottom ones. */
  predicate InQuadrant(quad: Quadrant, r: int, t: Point) {
    if IsTop(quad) then InColumnsUpTo(quad, r, 1, t) && -r <= t.y && t != Point(XMax(quad, r), 1)
    else InColumnsUpTo(quad, r, r, t) && 0 <= t.y
  }

  /** For r >= 0 (and for the bottom quadrants r >= 1),
      `quadrant` yields the point q in colour k exactly when q's offset from
      the centre is in the tag's quarter, q passes the clip and k is the
      offset's class. */
  lemma QuadrantPixelAt(c: Circle, quad: Quadrant, clip: Option<Rectangle>, q: Point, k: PixelColor)
    requires c.radius >= 0 && (IsTop(quad) || c.radius >= 1)
    ensures Pixel(q, k) in QuadrantPixels(c, quad, clip) <==>
      var t := Sub(q, c.center);
      InQuadrant(quad, c.radius, t) && ClipAllows(clip, q) && CircleColor(c.radius, c.style, t) == Some(k)
  {
    var r := c.radius;
    var p := StartOffset(quad, r);
    var px := Pixel(q, k);
    var t := Sub(q, c.center);
    CircleItemAt(c.center, r, c.style, clip, q, k);
    if IsTop(quad) {
      TopScanMember(c.center, r, c.style, clip, quad, p, px);
    } else {
      BottomScanMember(c.center, r, c.style, clip, quad, p, px);
      BottomNoOverrun(c.center, r, c.style, clip, quad, p, px);
    }
  }

  /** The overrun below a bottom quadrant: a fill-only bottom-right
      quadrant of radius 0 draws its centre and the point below it. */
  lemma QuadrantOverrunExample(center: Point, fill: PixelColor, w: int)
    ensures QuadrantPixels(Circle(center, 0, DrawStyle(None, Some(fill), w)), BottomRight, None)
      == [Pixel(center, fill), Pixel(Point(center.x, center.y + 1), fill)]
  {
    var style := DrawStyle(None, Some(fill), w);
    FarRowEmpty(center, 0, style, None, Point(0, 0));
    FarRowEmpty(center, 0, style, None, Point(0, 1));
    FarRowEmpty(center, 0, style, None, Point(0, 2));
    assert CircleItem(center, 0, style, None, Point(0, 0)) == Some(Pixel(center, fill));
    assert CircleItem(center, 0, style, None, Point(0, 1)) == Some(Pixel(Point(center.x, center.y + 1), fill));
    assert CircleItem(center, 0, style, None, Point(0, 2)) == None;
    assert BottomScan(center, 0, style, None, BottomRight, Point(0, 2)) == [];
    assert BottomScan(center, 0, style, None, BottomRight, Point(0, 1)) == [Pixel(Point(center.x, center.y + 1), fill)];
  }

  /** The box a quadrant's pixels can fall in: the tag's columns, rows -r..1
      for the top tags and rows 0..LastRow(r) for the bottom ones. */
  function QuadrantBox(c: Circle, quad: Quadrant): Rectangle {
    var r := c.radius;
    Rectangle(Add(c.center, Point(XMin(quad, r), if IsTop(quad) then -r else 0)),
              Add(c.center, Point(XMax(quad, r), if IsTop(quad) then 1 else LastRow(r))), c.style)
  }

  /** For r >= 0, a clip that shares no point with the quadrant's box lets
      nothing through: `quadrant` then writes no pixel and sets no dirty flag. */
  lemma QuadrantClipDisjoint(s: seq<bv32>, c: Circle, quad: Quadrant, clip: Rectangle)
    requires |s| == FrameBufSize && c.radius >= 0 && Disjoint(clip, QuadrantBox(c, quad))
    ensures QuadrantPixels(c, quad, Some(clip)) == []
    ensures PaintAll(s, QuadrantPixels(c, quad, Some(clip))) == s
  {
    var r := c.radius;
    var p := StartOffset(quad, r);
    var ps := QuadrantPixels(c, quad, Some(clip));
    if ps != [] {
      var px := ps[0];
      assert px in ps;
      var t := Sub(px.p, c.center);
      assert Add(t, c.center) == px.p;
      if IsTop(quad) {
        TopScanMember(c.center, r, c.style, Some(clip), quad, p, px);
      } else {
        BottomScanItem(c.center, r, c.style, Some(clip), quad, p, px);
        BottomScanAfter(c.center, r, c.style, Some(clip), quad, p, px);
        BottomNoOverrun(c.center, r, c.style, Some(clip), quad, p, px);
      }
      assert false;
    }
  }
}
