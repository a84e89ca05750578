/** Circles: `CircleIterator` walks the offsets t of the square [-r, r]²
    row by row and sorts each into border, fill or nothing by its squared
    length; `circle` puts every pixel it yields. */
module Circles {
  import opened Api
  import opened Framebuffer

  /** Border, fill or nothing for the offset t of a circle of radius r.  The
      inner radius is r - stroke_width + 1; the border is the ring
      inner² - inner < len < r² + inner and the fill the disc len <= r² + 1.
      The stroke wins where both apply. */
  function CircleColor(r: int, style: DrawStyle, t: Point): Option<PixelColor> {
    var inner := r - style.strokeWidth + 1;
    var len := t.x * t.x + t.y * t.y;
    var isBorder := len > inner * inner - inner && len < r * r + inner;
    var isFill := len <= r * r + 1;
    if isBorder && style.strokeColor.Some? then style.strokeColor
    else if isFill && style.fillColor.Some? then style.fillColor
    else None
  }

  /** The item for the cursor position t: nothing when the clip rejects the
      point center + t, else the pixel its colour class gives. */
  function CircleItem(center: Point, r: int, style: DrawStyle, clip: Option<Rectangle>, t: Point): Option<Pixel> {
    if ClipAllows(clip, Add(t, center)) then Emit(Add(center, t), CircleColor(r, style, t))
    else None
  }

  /** The offsets the circle's cursor ranges over. */
  predicate InSquare(r: int, t: Point) {
    -r <= t.x <= r && -r <= t.y <= r
  }

  /** The pixels the iterator still yields from cursor p.  Each step
      classifies p, then advances; once the advanced cursor is below the
      square the step ends in None, so the last offset's item is dropped. */
  function CircleScan(center: Point, r: int, style: DrawStyle, clip: Option<Rectangle>, p: Point): seq<Pixel>
    requires -r <= p.x <= r
    decreases r + 1 - p.y, r - p.x
  {
    if Transparent(style) || p.y > r then []
    else
      var q := Advance(p, -r, r);
      if q.y > r then [] else AsSeq(CircleItem(center, r, style, clip, p)) + CircleScan(center, r, style, clip, q)
  }

  /** Everything `circle` draws: the scan of radius |radius| from the corner (-r, -r). */
  function CirclePixels(c: Circle, clip: Option<Rectangle>): seq<Pixel> {
    var r := Abs(c.radius);
    CircleScan(c.center, r, c.style, clip, Point(-r, -r))
  }

  // ---------------------------------------------------------------- the iterator

  class CircleIterator {
    const center: Point
    const radius: nat
    const style: DrawStyle
    var p: Point
    const clip: Option<Rectangle>

    /** The cursor stays within the square's columns and not above it. */
    ghost predicate Valid()
      reads this
    {
      -(radius as int) <= p.x <= radius && -(radius as int) <= p.y
    }

    /** The pixels still to come. */
    ghost function Remaining(): seq<Pixel>
      reads this
      requires Valid()
    {
      CircleScan(center, radius, style, clip, p)
    }

    constructor(center: Point, radius: nat, style: DrawStyle, p: Point, clip: Option<Rectangle>)
      requires -(radius as int) <= p.x <= radius && -(radius as int) <= p.y
      ensures Valid()
      ensures this.center == center && this.radius == radius && this.style == style
      ensures this.p == p && this.clip == clip
    {
      this.center := center;
      this.radius := radius;
      this.style := style;
      this.p := p;
      this.clip := clip;
    }

    /** `next`: the first remaining pixel, or None once nothing remains. */
    method Next() returns (item: Option<Pixel>)
      requires Valid()
      modifies this
      ensures Valid()
      ensures old(Remaining()) == AsSeq(item) + Remaining()
      ensures item.None? ==> Remaining() == []
    {
      if style.strokeColor.None? && style.fillColor.None? {
        return None;
      }
      var inner := radius - style.strokeWidth + 1;
      var outer := radius;
      var innerSq := inner * inner;
      var outerSq := outer * outer;
      while true
        invariant Valid()
        invariant Remaining() == old(Remaining())
        decreases radius + 1 - p.y, radius - p.x
      {
        ghost var p0 := p;
        item := None;
        if clip.None? || Contains(clip.value, Add(p, center)) {
          var t := p;
          var len := t.x * t.x + t.y * t.y;
          var isBorder := len > innerSq - inner && len < outerSq + inner;
          var isFill := len <= outerSq + 1;
          if isBorder && style.strokeColor.Some? {
            item := Some(Pixel(Add(center, t), style.strokeColor.value));
          } else if isFill && style.fillColor.Some? {
            item := Some(Pixel(Add(center, t), style.fillColor.value));
          }
        }
        assert item == CircleItem(center, radius, style, clip, p0);
        p := Point(p.x + 1, p.y);
        if p.x > radius {
          p := Point(-(radius as int), p.y + 1);
        }
        assert p == Advance(p0, -(radius as int), radius);
        if p.y > radius {
          return None;
        }
        if item.Some? {
          return item;
        }
      }
    }
  }

  /** `circle`: puts every pixel of the iterator started at (-r, -r), r = |radius|. */
  method DrawCircle(fb: array<bv32>, circle: Circle, clip: Option<Rectangle>)
    requires fb.Length == FrameBufSize
    requires Drawable(CirclePixels(circle, clip))
    modifies fb
    ensures fb[..] == PaintAll(old(fb[..]), CirclePixels(circle, clip))
  {
    var radius := Abs(circle.radius);
    var c := new CircleIterator(circle.center, radius, circle.style, Point(-radius, -radius), clip);
    ghost var all := CirclePixels(circle, clip);
    ghost var done: seq<Pixel> := [];
    while true
      invariant c.Valid() && c.center == circle.center && c.radius == radius
      invariant done + c.Remaining() == all
      invariant Drawable(done)
      invariant fb[..] == PaintAll(old(fb[..]), done)
      decreases |c.Remaining()|
    {
      var item := c.Next();
      if item.None? {
        assert done == all;
        break;
      }
      var px := item.value;
      DrawableStep(done, px, c.Remaining());
      PutPixel(fb, px.p.x, px.p.y, px.c);
      PaintAllSnoc(old(fb[..]), done, px);
      done := done + [px];
    }
  }

  // ---------------------------------------------------------------- what the scan yields

  /** A shape with neither colour yields nothing. */
  lemma CircleTransparent(center: Point, r: int, style: DrawStyle, clip: Option<Rectangle>, p: Point)
    requires -r <= p.x <= r && Transparent(style)
    ensures CircleScan(center, r, style, clip, p) == []
  {
  }

  /** A pixel is yielded from cursor p exactly when its offset t lies in the
      square at or after p, is not the final offset (r, r), passes the clip
      and classifies as that pixel. */
  lemma {:induction false} CircleScanMember(center: Point, r: int, style: DrawStyle, clip: Option<Rectangle>, p: Point, px: Pixel)
    requires -r <= p.x <= r && -r <= p.y
    ensures px in CircleScan(center, r, style, clip, p) <==>
      var t := Sub(px.p, center);
      InSquare(r, t) && !Before(t, p) && t != Point(r, r) && CircleItem(center, r, style, clip, t) == Some(px)
    decreases r + 1 - p.y, r - p.x
  {
    var t := Sub(px.p, center);
    if Transparent(style) {
      assert CircleColor(r, style, t) == None;
    } else if p.y <= r {
      var q := Advance(p, -r, r);
      if q.y <= r {
        CircleScanMember(center, r, style, clip, q, px);
        if InSquare(r, t) {
          AdvanceCovers(p, -r, r, t);
        }
      }
    }
  }

  /** The pixels come in strictly increasing row-major order of their points. */
  lemma {:induction false} CircleScanRowMajor(center: Point, r: int, style: DrawStyle, clip: Option<Rectangle>, p: Point)
    requires -r <= p.x <= r && -r <= p.y
    ensures RowMajor(CircleScan(center, r, style, clip, p))
    decreases r + 1 - p.y, r - p.x
  {
    var q := Advance(p, -r, r);
    if !Transparent(style) && p.y <= r && q.y <= r {
      var item := CircleItem(center, r, style, clip, p);
      var rest := CircleScan(center, r, style, clip, q);
      CircleScanRowMajor(center, r, style, clip, q);
      forall j | 0 <= j < |rest|
        ensures item.Some? ==> Before(item.value.p, rest[j].p)
      {
        CircleScanMember(center, r, style, clip, q, rest[j]);
      }
      RowMajorCons(item, rest);
    }
  }

  /** The final offset (r, r) is never drawn, whatever its class. */
  lemma CircleCornerDropped(c: Circle, clip: Option<Rectangle>, color: PixelColor)
    ensures Pixel(Add(c.center, Point(Abs(c.radius), Abs(c.radius))), color) !in CirclePixels(c, clip)
  {
    var r := Abs(c.radius);
    CircleScanMember(c.center, r, c.style, clip, Point(-r, -r), Pixel(Add(c.center, Point(r, r)), color));
  }

  /** So a circle of radius 0, whose only offset is (0, 0), draws nothing. */
  lemma CircleRadiusZero(center: Point, style: DrawStyle, clip: Option<Rectangle>)
    ensures CirclePixels(Circle(center, 0, style), clip) == []
  {
  }

  /** All of a circle's pixels lie in the square of side 2r + 1 around the centre. */
  lemma CircleInSquare(c: Circle, clip: Option<Rectangle>, i: int)
    requires 0 <= i < |CirclePixels(c, clip)|
    ensures InSquare(Abs(c.radius), Sub(CirclePixels(c, clip)[i].p, c.center))
  {
    var r := Abs(c.radius);
    CircleScanMember(c.center, r, c.style, clip, Point(-r, -r), CirclePixels(c, clip)[i]);
  }

  /** The circle's square lies on the canvas. */
  predicate SquareOnCanvas(c: Circle) {
    0 <= c.center.x - Abs(c.radius) && c.center.x + Abs(c.radius) < Width
    && 0 <= c.center.y - Abs(c.radius) && c.center.y + Abs(c.radius) < Height
  }

  /** A circle whose square lies in columns 0..i16::MAX can be drawn. */
  lemma CircleDrawable(c: Circle, clip: Option<Rectangle>)
    requires 0 <= c.center.x - Abs(c.radius) && c.center.x + Abs(c.radius) <= I16Max
    ensures Drawable(CirclePixels(c, clip))
  {
    forall i | 0 <= i < |CirclePixels(c, clip)|
      ensures 0 <= CirclePixels(c, clip)[i].p.x <= I16Max
    {
      CircleInSquare(c, clip, i);
    }
  }

  /** A circle whose square lies on the canvas has all its pixels there. */
  lemma CircleInCanvas(c: Circle, clip: Option<Rectangle>)
    requires SquareOnCanvas(c)
    ensures Drawable(CirclePixels(c, clip)) && InCanvas(CirclePixels(c, clip))
  {
    CircleDrawable(c, clip);
    forall i | 0 <= i < |CirclePixels(c, clip)|
      ensures 0 <= CirclePixels(c, clip)[i].p.x < Width && 0 <= CirclePixels(c, clip)[i].p.y < Height
    {
      CircleInSquare(c, clip, i);
    }
  }

  /** `circle` yields its pixels in strictly increasing row-major order. */
  lemma CircleRowMajor(c: Circle, clip: Option<Rectangle>)
    ensures RowMajor(CirclePixels(c, clip))
  {
    var r := Abs(c.radius);
    CircleScanRowMajor(c.center, r, c.style, clip, Point(-r, -r));
  }

  /** After `circle` with the square on the canvas, a canvas pixel at offset t
      from the centre shows its class's colour when t is in the square, is not
      (r, r), passes the clip and has a class; otherwise it is unchanged. */
  lemma CircleCanvasPixel(s: seq<bv32>, c: Circle, clip: Option<Rectangle>, q: Point)
    requires |s| == FrameBufSize && SquareOnCanvas(c)
    requires 0 <= q.x < Width && 0 <= q.y < Height
    ensures Drawable(CirclePixels(c, clip)) && PixelAddr(q.x, q.y) < BufBits
    ensures BitAt(PaintAll(s, CirclePixels(c, clip)), PixelAddr(q.x, q.y)) ==
      var r := Abs(c.radius);
      var t := Sub(q, c.center);
      var color := CircleColor(r, c.style, t);
      if InSquare(r, t) && t != Point(r, r) && ClipAllows(clip, q) && color.Some? then color.value == Light
      else BitAt(s, PixelAddr(q.x, q.y))
  {
    var r := Abs(c.radius);
    var t := Sub(q, c.center);
    CircleInCanvas(c, clip);
    CircleRowMajor(c, clip);
    RowMajorCanvasPixel(s, CirclePixels(c, clip), q);
    var color := CircleColor(r, c.style, t);
    var shown := InSquare(r, t) && t != Point(r, r) && ClipAllows(clip, q);
    CirclePixelAt(c, clip, q, Light);
    if !(shown && color == Some(Light)) {
      CirclePixelAt(c, clip, q, Dark);
    }
  }

  /** `circle` yields the point q in colour k exactly when q's offset t from
      the centre lies in the square, is not (r, r), q passes the clip and t's
      class is k. */
  lemma CirclePixelAt(c: Circle, clip: Option<Rectangle>, q: Point, k: PixelColor)
    ensures Pixel(q, k) in CirclePixels(c, clip) <==>
      var r := Abs(c.radius);
      var t := Sub(q, c.center);
      InSquare(r, t) && t != Point(r, r) && ClipAllows(clip, q) && CircleColor(r, c.style, t) == Some(k)
  {
    var r := Abs(c.radius);
    var t := Sub(q, c.center);
    CircleScanMember(c.center, r, c.style, clip, Point(-r, -r), Pixel(q, k));
    CircleItemAt(c.center, r, c.style, clip, q, k);
    assert InSquare(r, t) ==> !Before(t, Point(-r, -r));
  }

  /** The item at the offset of q is the pixel q in colour k exactly when the
      clip passes q and the offset's class is k. */
  lemma CircleItemAt(center: Point, r: int, style: DrawStyle, clip: Option<Rectangle>, q: Point, k: PixelColor)
    ensures CircleItem(center, r, style, clip, Sub(q, center)) == Some(Pixel(q, k)) <==>
      ClipAllows(clip, q) && CircleColor(r, style, Sub(q, center)) == Some(k)
  {
    assert Add(Sub(q, center), center) == q && Add(center, Sub(q, center)) == q;
  }

  /** The square the circle's cursor ranges over, as a box around the centre. */
  function CircleBox(c: Circle): Rectangle {
    var r := Abs(c.radius);
    Rectangle(Sub(c.center, Point(r, r)), Add(c.center, Point(r, r)), c.style)
  }

  /** A clip that shares no point with the circle's square lets nothing
      through: `circle` then writes no pixel and sets no dirty flag. */
  lemma CircleClipDisjoint(s: seq<bv32>, c: Circle, clip: Rectangle)
    requires |s| == FrameBufSize && Disjoint(clip, CircleBox(c))
    ensures CirclePixels(c, Some(clip)) == []
    ensures PaintAll(s, CirclePixels(c, Some(clip))) == s
  {
    var ps := CirclePixels(c, Some(clip));
    if ps != [] {
      var px := ps[0];
      assert px in ps;
      CirclePixelAt(c, Some(clip), px.p, px.c);
      assert false;
    }
  }
}
