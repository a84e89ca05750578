/** Rounded rectangles: `rounded_rectangle` draws the box's body with the four
    corner boxes left out, then one quarter circle in each corner. */
module RoundedRectangles {
  import opened Api
  import opened Framebuffer
  import opened Rectangles
  import opened Circles
  import opened Quadrants

  /** The style `Rectangle::new` gives a corner box; only its corners matter. */
  const CornerStyle := DrawStyle(None, None, 0)

  /** The corner boxes built from the radius, one at each corner of the border. */
  function CornerBoxes(rr: RoundedRectangle): Corners {
    var tl, br, r := rr.border.tl, rr.border.br, rr.radius;
    Corners(
      Rectangle(tl, Point(tl.x + r, tl.y + r), CornerStyle),
      Rectangle(Point(br.x - r, tl.y), Point(br.x, tl.y + r), CornerStyle),
      Rectangle(Point(tl.x, br.y - r), Point(tl.x + r, br.y), CornerStyle),
      Rectangle(Point(br.x - r, br.y - r), br, CornerStyle))
  }

  /** The corner box that belongs to a quadrant. */
  function CornerBox(c: Corners, quad: Quadrant): Rectangle {
    match quad
    case TopLeft => c.tlq
    case TopRight => c.trq
    case BottomLeft => c.blq
    case BottomRight => c.brq
  }

  /** The centre of a corner's quarter circle: the corner box's inner corner,
      radius in from both edges of the border. */
  function CornerCenter(rr: RoundedRectangle, quad: Quadrant): (center: Point)
    ensures var tl, br, r := rr.border.tl, rr.border.br, rr.radius;
      center.x == (if quad.TopLeft? || quad.BottomLeft? then tl.x + r else br.x - r)
      && center.y == (if IsTop(quad) then tl.y + r else br.y - r)
  {
    var c := CornerBoxes(rr);
    match quad
    case TopLeft => c.tlq.br
    case TopRight => Point(c.trq.tl.x, c.trq.br.y)
    case BottomLeft => Point(c.blq.br.x, c.blq.tl.y)
    case BottomRight => c.brq.tl
  }

  /** When the border is wider and taller than two radii, the corner boxes
      are squares of side radius + 1 inside the border, no two of them
      sharing a point. */
  lemma CornerBoxesApart(rr: RoundedRectangle)
    requires 0 <= rr.radius
    requires 2 * rr.radius < rr.border.br.x - rr.border.tl.x && 2 * rr.radius < rr.border.br.y - rr.border.tl.y
    ensures forall quad :: var box := CornerBox(CornerBoxes(rr), quad);
      box.br.x - box.tl.x == rr.radius && box.br.y - box.tl.y == rr.radius
    ensures forall quad, q :: Contains(CornerBox(CornerBoxes(rr), quad), q) ==> Contains(rr.border, q)
    ensures forall a, b, q :: a != b && Contains(CornerBox(CornerBoxes(rr), a), q) ==>
      !Contains(CornerBox(CornerBoxes(rr), b), q)
  {
  }

  function CornerCircle(rr: RoundedRectangle, quad: Quadrant): Circle {
    Circle(CornerCenter(rr, quad), rr.radius, rr.border.style)
  }

  /** The body pass: the border's scan from its top-left corner, corners left out. */
  function BodyPixels(rr: RoundedRectangle, clip: Option<Rectangle>): seq<Pixel> {
    BodyScan(rr.border.tl, rr.border.br, rr.border.style, clip, Some(CornerBoxes(rr)), rr.border.tl)
  }

  function CornerPixels(rr: RoundedRectangle, quad: Quadrant, clip: Option<Rectangle>): seq<Pixel> {
    QuadrantPixels(CornerCircle(rr, quad), quad, clip)
  }

  /** Everything `rounded_rectangle` puts, in order: the body, then the
      top-left, top-right, bottom-left and bottom-right corners. */
  function RoundedPixels(rr: RoundedRectangle, clip: Option<Rectangle>): seq<Pixel> {
    BodyPixels(rr, clip) + CornerPixels(rr, TopLeft, clip) + CornerPixels(rr, TopRight, clip)
    + CornerPixels(rr, BottomLeft, clip) + CornerPixels(rr, BottomRight, clip)
  }

  // ---------------------------------------------------------------- the iterator

  class RoundedRectangleIterator {
    const topLeft: Point
    const bottomRight: Point
    const style: DrawStyle
    var p: Point
    const clip: Option<Rectangle>
    const tlq: Rectangle
    const trq: Rectangle
    const blq: Rectangle
    const brq: Rectangle

    /** The pixels still to come. */
    ghost function Remaining(): seq<Pixel>
      reads this
    {
      BodyScan(topLeft, bottomRight, style, clip, Some(Corners(tlq, trq, blq, brq)), p)
    }

    constructor(topLeft: Point, bottomRight: Point, style: DrawStyle, p: Point, clip: Option<Rectangle>,
                tlq: Rectangle, trq: Rectangle, blq: Rectangle, brq: Rectangle)
      ensures this.topLeft == topLeft && this.bottomRight == bottomRight && this.style == style
      ensures this.p == p && this.clip == clip
      ensures this.tlq == tlq && this.trq == trq && this.blq == blq && this.brq == brq
    {
      this.topLeft := topLeft;
      this.bottomRight := bottomRight;
      this.style := style;
      this.p := p;
      this.clip := clip;
      this.tlq := tlq;
      this.trq := trq;
      this.blq := blq;
      this.brq := brq;
    }

    /** `next`: the first remaining pixel, or None once nothing remains. */
    method Next() returns (out: Option<Pixel>)
      modifies this
      ensures old(Remaining()) == AsSeq(out) + Remaining()
      ensures out.None? ==> Remaining() == []
    {
      if style.strokeColor.None? && style.fillColor.None? {
        return None;
      }
      while true
        invariant Remaining() == old(Remaining())
        decreases bottomRight.y + 1 - p.y, bottomRight.x - p.x
      {
        out := None;
        if p.y > bottomRight.y {
          return None;
        }
        if clip.None? || Contains(clip.value, p) {
          if Contains(tlq, p) || Contains(trq, p) || Contains(blq, p) || Contains(brq, p) {
            out := None;
          } else {
            var borderWidth := style.strokeWidth;
            var tl := topLeft;
            var br := bottomRight;
            if ((p.y >= tl.y && p.y < tl.y + borderWidth)
                || (p.y <= br.y && p.y > br.y - borderWidth)
                || (p.x >= tl.x && p.x < tl.x + borderWidth)
                || (p.x <= br.x && p.x > br.x - borderWidth))
               && style.strokeColor.Some?
            {
              out := Some(Pixel(p, style.strokeColor.value));
            } else if style.fillColor.Some? {
              out := Some(Pixel(p, style.fillColor.value));
            }
          }
        }
        assert out == BodyItem(topLeft, bottomRight, style, clip, Some(Corners(tlq, trq, blq, brq)), p);
        ghost var p0 := p;
        p := Point(p.x + 1, p.y);
        if p.x > bottomRight.x {
          p := Point(topLeft.x, p.y + 1);
        }
        assert p == Advance(p0, topLeft.x, bottomRight.x);
        if out.Some? {
          return out;
        }
      }
    }
  }

  /** `rounded_rectangle`: the body pass, then the four corners. */
  method DrawRoundedRectangle(fb: array<bv32>, rr: RoundedRectangle, clip: Option<Rectangle>)
    requires fb.Length == FrameBufSize
    requires Drawable(RoundedPixels(rr, clip))
    modifies fb
    ensures fb[..] == PaintAll(old(fb[..]), RoundedPixels(rr, clip))
  {
    var tl, br, r := rr.border.tl, rr.border.br, rr.radius;
    var rri := new RoundedRectangleIterator(tl, br, rr.border.style, tl, clip,
      Rectangle(tl, Point(tl.x + r, tl.y + r), CornerStyle),
      Rectangle(Point(br.x - r, tl.y), Point(br.x, tl.y + r), CornerStyle),
      Rectangle(Point(tl.x, br.y - r), Point(tl.x + r, br.y), CornerStyle),
      Rectangle(Point(br.x - r, br.y - r), br, CornerStyle));
    ghost var body := BodyPixels(rr, clip);
    ghost var tlp, trp := CornerPixels(rr, TopLeft, clip), CornerPixels(rr, TopRight, clip);
    ghost var blp, brp := CornerPixels(rr, BottomLeft, clip), CornerPixels(rr, BottomRight, clip);
    DrawableParts(body + tlp + trp + blp, brp);
    DrawableParts(body + tlp + trp, blp);
    DrawableParts(body + tlp, trp);
    DrawableParts(body, tlp);
    ghost var s0 := fb[..];
    ghost var done: seq<Pixel> := [];
    while true
      invariant rri.topLeft == tl && rri.bottomRight == br && rri.style == rr.border.style && rri.clip == clip
      invariant Some(Corners(rri.tlq, rri.trq, rri.blq, rri.brq)) == Some(CornerBoxes(rr))
      invariant done + rri.Remaining() == body
      invariant Drawable(done)
      invariant fb[..] == PaintAll(s0, done)
      decreases |rri.Remaining()|
    {
      var item := rri.Next();
      if item.None? {
        assert done == body;
        break;
      }
      var px := item.value;
      DrawableStep(done, px, rri.Remaining());
      PutPixel(fb, px.p.x, px.p.y, px.c);
      PaintAllSnoc(s0, done, px);
      done := done + [px];
    }
    DrawQuadrant(fb, Circle(rri.tlq.br, r, rr.border.style), TopLeft, clip);
    DrawQuadrant(fb, Circle(Point(rri.trq.tl.x, rri.trq.br.y), r, rr.border.style), TopRight, clip);
    DrawQuadrant(fb, Circle(Point(rri.blq.br.x, rri.blq.tl.y), r, rr.border.style), BottomLeft, clip);
    DrawQuadrant(fb, Circle(rri.brq.tl, r, rr.border.style), BottomRight, clip);
    PaintAllAppend(s0, body, tlp);
    PaintAllAppend(s0, body + tlp, trp);
    PaintAllAppend(s0, body + tlp + trp, blp);
    PaintAllAppend(s0, body + tlp + trp + blp, brp);
  }

  // ---------------------------------------------------------------- what it draws

  /** The body pass never yields a point inside a corner box. */
  lemma RoundedBodyAvoidsCorners(rr: RoundedRectangle, clip: Option<Rectangle>, px: Pixel)
    requires px in BodyPixels(rr, clip)
    ensures !InCorner(Some(CornerBoxes(rr)), px.p)
  {
    BodyScanItem(rr.border.tl, rr.border.br, rr.border.style, clip, Some(CornerBoxes(rr)), rr.border.tl, px);
  }

  /** With tl.x <= br.x the body pass yields q in colour k exactly when q is
      in the border box and the clip, in no corner box, and k is q's
      rectangle colour. */
  lemma RoundedBodyPixelAt(rr: RoundedRectangle, clip: Option<Rectangle>, q: Point, k: PixelColor)
    requires rr.border.tl.x <= rr.border.br.x
    ensures Pixel(q, k) in BodyPixels(rr, clip) <==>
      Contains(rr.border, q) && ClipAllows(clip, q) && !InCorner(Some(CornerBoxes(rr)), q)
      && BodyColor(rr.border.tl, rr.border.br, rr.border.style, q) == Some(k)
  {
    BodyScanMember(rr.border.tl, rr.border.br, rr.border.style, clip, Some(CornerBoxes(rr)), rr.border.tl, Pixel(q, k));
  }

  /** For radius >= 0 (and, for the bottom corners, radius >= 1) each quarter
      circle stays in its corner box, except that the top corners reach one
      row below theirs. */
  lemma CornerNearBox(rr: RoundedRectangle, quad: Quadrant, clip: Option<Rectangle>, px: Pixel)
    requires rr.radius >= 0 && (IsTop(quad) || rr.radius >= 1)
    ensures px in CornerPixels(rr, quad, clip) ==>
      var box := CornerBox(CornerBoxes(rr), quad);
      Contains(box, px.p) || (IsTop(quad) && box.tl.x <= px.p.x <= box.br.x && px.p.y == box.br.y + 1)
  {
    QuadrantPixelAt(CornerCircle(rr, quad), quad, clip, px.p, px.c);
  }

  /** The row below a top corner box is reached: a fill-only, unclipped rounded
      rectangle of radius >= 1 puts the point one left of the top-left
      centre and one row below the box. */
  lemma TopLeftCornerBelowBox(rr: RoundedRectangle, fill: PixelColor)
    requires rr.radius >= 1 && rr.border.style.strokeColor.None? && rr.border.style.fillColor == Some(fill)
    ensures var q := Point(rr.border.tl.x + rr.radius - 1, rr.border.tl.y + rr.radius + 1);
      Pixel(q, fill) in CornerPixels(rr, TopLeft, None) && !Contains(CornerBoxes(rr).tlq, q)
  {
    var r := rr.radius;
    var q := Point(rr.border.tl.x + r - 1, rr.border.tl.y + r + 1);
    QuadrantPixelAt(CornerCircle(rr, TopLeft), TopLeft, None, q, fill);
    assert Sub(q, CornerCenter(rr, TopLeft)) == Point(-1, 1);
    assert 2 <= r * r + 1 by {
      assert r * r >= r;
    }
  }

  // ---------------------------------------------------------------- clipping

  /** A corner's quarter circle, for a border wider and taller than two radii,
      puts nothing when the clip shares no point with the border. The radius-0
      bottom corners reach one row past the border, but only after putting
      their centre, which the clip already refuses. */
  lemma CornerClipDisjoint(s: seq<bv32>, rr: RoundedRectangle, quad: Quadrant, clip: Rectangle)
    requires |s| == FrameBufSize && 0 <= rr.radius
    requires 2 * rr.radius < rr.border.br.x - rr.border.tl.x && 2 * rr.radius < rr.border.br.y - rr.border.tl.y
    requires Disjoint(clip, rr.border)
    ensures CornerPixels(rr, quad, Some(clip)) == []
  {
    var c := CornerCircle(rr, quad);
    var r := rr.radius;
    if IsTop(quad) || r >= 1 {
      assert Disjoint(clip, QuadrantBox(c, quad));
      QuadrantClipDisjoint(s, c, quad, clip);
    } else {
      var p := StartOffset(quad, 0);
      assert !ClipAllows(Some(clip), Add(p, c.center));
      assert CircleItem(c.center, r, c.style, Some(clip), p) == None;
    }
  }

  /** For a border wider and taller than two radii, a clip that shares no
      point with the border lets nothing through: `rounded_rectangle` then
      writes no pixel and sets no dirty flag. */
  lemma RoundedClipDisjoint(s: seq<bv32>, rr: RoundedRectangle, clip: Rectangle)
    requires |s| == FrameBufSize && 0 <= rr.radius
    requires 2 * rr.radius < rr.border.br.x - rr.border.tl.x && 2 * rr.radius < rr.border.br.y - rr.border.tl.y
    requires Disjoint(clip, rr.border)
    ensures RoundedPixels(rr, Some(clip)) == []
    ensures PaintAll(s, RoundedPixels(rr, Some(clip))) == s
  {
    var body := BodyPixels(rr, Some(clip));
    if body != [] {
      var px := body[0];
      assert px in body;
      RoundedBodyPixelAt(rr, Some(clip), px.p, px.c);
      assert false;
    }
    CornerClipDisjoint(s, rr, TopLeft, clip);
    CornerClipDisjoint(s, rr, TopRight, clip);
    CornerClipDisjoint(s, rr, BottomLeft, clip);
    CornerClipDisjoint(s, rr, BottomRight, clip);
  }

  /** Without the size condition the corners escape the border: a fill-only
      border (0,0)-(2,2) of radius 5 centres its top-left quarter circle at
      (5,5), which it puts although the clip (5,5)-(5,5) shares no point with
      the border. */
  lemma RoundedLargeRadiusLeak(fill: PixelColor, w: int)
    ensures var rr := RoundedRectangle(Rectangle(Point(0, 0), Point(2, 2), DrawStyle(None, Some(fill), w)), 5);
      var clip := Rectangle(Point(5, 5), Point(5, 5), DrawStyle(None, None, 0));
      Disjoint(clip, rr.border) && Pixel(Point(5, 5), fill) in RoundedPixels(rr, Some(clip))
  {
    var rr := RoundedRectangle(Rectangle(Point(0, 0), Point(2, 2), DrawStyle(None, Some(fill), w)), 5);
    var clip := Rectangle(Point(5, 5), Point(5, 5), DrawStyle(None, None, 0));
    assert CornerCenter(rr, TopLeft) == Point(5, 5);
    QuadrantPixelAt(CornerCircle(rr, TopLeft), TopLeft, Some(clip), Point(5, 5), fill);
    assert Pixel(Point(5, 5), fill) in CornerPixels(rr, TopLeft, Some(clip));
  }
}
