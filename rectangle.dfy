/** Rectangles: `RectangleIterator` and the body pass of
    `RoundedRectangleIterator` walk the box tl..br row by row, starting at tl,
    and colour each point by the four stroke-width edge bands; the rounded
    variant also skips the four corner boxes.  Both share one scan here. */
module Rectangles {
  import opened Api
  import opened Framebuffer

  /** The four edge bands of width w of the box tl..br: top, bottom, left and
      right, each checked in the iterator's order. */
  predicate InBorder(tl: Point, br: Point, w: int, p: Point) {
    (p.y >= tl.y && p.y < tl.y + w)
    || (p.y <= br.y && p.y > br.y - w)
    || (p.x >= tl.x && p.x < tl.x + w)
    || (p.x <= br.x && p.x > br.x - w)
  }

  /** Stroke colour in a band when a stroke is set, else the fill colour, if any. */
  function BodyColor(tl: Point, br: Point, style: DrawStyle, p: Point): Option<PixelColor> {
    if InBorder(tl, br, style.strokeWidth, p) && style.strokeColor.Some? then style.strokeColor
    else style.fillColor
  }

  /** The corner boxes tlq, trq, blq, brq a rounded rectangle's body leaves out. */
  datatype Corners = Corners(tlq: Rectangle, trq: Rectangle, blq: Rectangle, brq: Rectangle)

  predicate InCorner(corners: Option<Corners>, p: Point) {
    corners.Some? &&
    (Contains(corners.value.tlq, p) || Contains(corners.value.trq, p)
     || Contains(corners.value.blq, p) || Contains(corners.value.brq, p))
  }

  /** The item for cursor p: nothing outside the clip or inside a corner box,
      else p in its colour, if it has one. */
  function BodyItem(tl: Point, br: Point, style: DrawStyle, clip: Option<Rectangle>, corners: Option<Corners>, p: Point): Option<Pixel> {
    if !ClipAllows(clip, p) || InCorner(corners, p) then None
    else Emit(p, BodyColor(tl, br, style, p))
  }

  /** The pixels the iterator still yields from cursor p: nothing once p is
      below the box, else p's item and the scan from the next position,
      where the cursor wraps past br.x to tl.x of the next row. */
  function BodyScan(tl: Point, br: Point, style: DrawStyle, clip: Option<Rectangle>, corners: Option<Corners>, p: Point): seq<Pixel>
    decreases br.y + 1 - p.y, br.x - p.x
  {
    if Transparent(style) || p.y > br.y then []
    else AsSeq(BodyItem(tl, br, style, clip, corners, p)) + BodyScan(tl, br, style, clip, corners, Advance(p, tl.x, br.x))
  }

  /** Everything `rectangle` draws: the scan from the top-left corner. */
  function RectanglePixels(rect: Rectangle, clip: Option<Rectangle>): seq<Pixel> {
    BodyScan(rect.tl, rect.br, rect.style, clip, None, rect.tl)
  }

  // ---------------------------------------------------------------- the iterator

  class RectangleIterator {
    const topLeft: Point
    const bottomRight: Point
    const style: DrawStyle
    var p: Point
    const clip: Option<Rectangle>

    /** The pixels still to come. */
    ghost function Remaining(): seq<Pixel>
      reads this
    {
      BodyScan(topLeft, bottomRight, style, clip, None, p)
    }

    constructor(topLeft: Point, bottomRight: Point, style: DrawStyle, p: Point, clip: Option<Rectangle>)
      ensures this.topLeft == topLeft && this.bottomRight == bottomRight && this.style == style
      ensures this.p == p && this.clip == clip
    {
      this.topLeft := topLeft;
      this.bottomRight := bottomRight;
      this.style := style;
      this.p := p;
      this.clip := clip;
    }

    /** `next`: the first remaining pixel, or None once nothing remains. */
    method Next() returns (out: Option<Pixel>)
      modifies this
      ensures old(Remaining()) == AsSeq(out) + Remaining()
      ensures out.None? ==> Remaining() == []
    {
      if style.strokeColor.None? && style.fillColor.None? {
        return None;
      }
      while true
        invariant Remaining() == old(Remaining())
        decreases bottomRight.y + 1 - p.y, bottomRight.x - p.x
      {
        out := None;
        if p.y > bottomRight.y {
          return None;
        }
        if clip.None? || Contains(clip.value, p) {
          var borderWidth := style.strokeWidth;
          var tl := topLeft;
          var br := bottomRight;
          if ((p.y >= tl.y && p.y < tl.y + borderWidth)
              || (p.y <= br.y && p.y > br.y - borderWidth)
              || (p.x >= tl.x && p.x < tl.x + borderWidth)
              || (p.x <= br.x && p.x > br.x - borderWidth))
             && style.strokeColor.Some?
          {
            out := Some(Pixel(p, style.strokeColor.value));
          } else if style.fillColor.Some? {
            out := Some(Pixel(p, style.fillColor.value));
          }
        }
        assert out == BodyItem(topLeft, bottomRight, style, clip, None, p);
        ghost var p0 := p;
        p := Point(p.x + 1, p.y);
        if p.x > bottomRight.x {
          p := Point(topLeft.x, p.y + 1);
        }
        assert p == Advance(p0, topLeft.x, bottomRight.x);
        if out.Some? {
          return out;
        }
      }
    }
  }

  /** `rectangle`: puts every pixel of the iterator started at the top-left corner. */
  method DrawRectangle(fb: array<bv32>, rect: Rectangle, clip: Option<Rectangle>)
    requires fb.Length == FrameBufSize
    requires Drawable(RectanglePixels(rect, clip))
    modifies fb
    ensures fb[..] == PaintAll(old(fb[..]), RectanglePixels(rect, clip))
  {
    var r := new RectangleIterator(rect.tl, rect.br, rect.style, rect.tl, clip);
    ghost var all := RectanglePixels(rect, clip);
    ghost var done: seq<Pixel> := [];
    while true
      invariant r.topLeft == rect.tl && r.bottomRight == rect.br && r.style == rect.style && r.clip == clip
      invariant done + r.Remaining() == all
      invariant Drawable(done)
      invariant fb[..] == PaintAll(old(fb[..]), done)
      decreases |r.Remaining()|
    {
      var item := r.Next();
      if item.None? {
        assert done == all;
        break;
      }
      var px := item.value;
      DrawableStep(done, px, r.Remaining());
      PutPixel(fb, px.p.x, px.p.y, px.c);
      PaintAllSnoc(old(fb[..]), done, px);
      done := done + [px];
    }
  }

  // ---------------------------------------------------------------- what the scan yields

  /** Every pixel of the scan from p lies at or after p. */
  lemma {:induction false} BodyScanAfter(tl: Point, br: Point, style: DrawStyle, clip: Option<Rectangle>, corners: Option<Corners>, p: Point, i: int)
    requires 0 <= i < |BodyScan(tl, br, style, clip, corners, p)|
    ensures !Before(BodyScan(tl, br, style, clip, corners, p)[i].p, p)
    decreases br.y + 1 - p.y, br.x - p.x
  {
    var q := Advance(p, tl.x, br.x);
    var item := AsSeq(BodyItem(tl, br, style, clip, corners, p));
    var rest := BodyScan(tl, br, style, clip, corners, q);
    if i >= |item| {
      assert BodyScan(tl, br, style, clip, corners, p)[i] == rest[i - |item|];
      BodyScanAfter(tl, br, style, clip, corners, q, i - |item|);
    }
  }

  /** Whatever the box's shape, every pixel the scan yields is its point's item. */
  lemma {:induction false} BodyScanItem(tl: Point, br: Point, style: DrawStyle, clip: Option<Rectangle>, corners: Option<Corners>, p: Point, px: Pixel)
    requires px in BodyScan(tl, br, style, clip, corners, p)
    ensures BodyItem(tl, br, style, clip, corners, px.p) == Some(px)
    decreases br.y + 1 - p.y, br.x - p.x
  {
    if px !in AsSeq(BodyItem(tl, br, style, clip, corners, p)) {
      BodyScanItem(tl, br, style, clip, corners, Advance(p, tl.x, br.x), px);
    }
  }

  /** The pixels come in strictly increasing row-major order. */
  lemma {:induction false} BodyScanRowMajor(tl: Point, br: Point, style: DrawStyle, clip: Option<Rectangle>, corners: Option<Corners>, p: Point)
    ensures RowMajor(BodyScan(tl, br, style, clip, corners, p))
    decreases br.y + 1 - p.y, br.x - p.x
  {
    if !Transparent(style) && p.y <= br.y {
      var q := Advance(p, tl.x, br.x);
      var item := BodyItem(tl, br, style, clip, corners, p);
      var rest := BodyScan(tl, br, style, clip, corners, q);
      BodyScanRowMajor(tl, br, style, clip, corners, q);
      forall j | 0 <= j < |rest|
        ensures item.Some? ==> Before(item.value.p, rest[j].p)
      {
        BodyScanAfter(tl, br, style, clip, corners, q, j);
      }
      RowMajorCons(item, rest);
    }
  }

  /** With tl.x <= p.x <= br.x, a pixel is yielded from p exactly when its
      point lies in the box's columns, not below the box and at or after p,
      and that point's item is the pixel. */
  lemma {:induction false} BodyScanMember(tl: Point, br: Point, style: DrawStyle, clip: Option<Rectangle>, corners: Option<Corners>, p: Point, px: Pixel)
    requires tl.x <= p.x <= br.x
    ensures px in BodyScan(tl, br, style, clip, corners, p) <==>
      tl.x <= px.p.x <= br.x && px.p.y <= br.y && !Before(px.p, p)
      && BodyItem(tl, br, style, clip, corners, px.p) == Some(px)
    decreases br.y + 1 - p.y, br.x - p.x
  {
    if Transparent(style) {
      assert BodyColor(tl, br, style, px.p) == None;
    } else if p.y <= br.y {
      var q := Advance(p, tl.x, br.x);
      BodyScanMember(tl, br, style, clip, corners, q, px);
      if tl.x <= px.p.x <= br.x {
        AdvanceCovers(p, tl.x, br.x, px.p);
      }
    }
  }

  /** A box with tl.x > br.x draws only its left column x = tl.x: the cursor
      wraps after every point. */
  lemma {:induction false} BodyScanColumn(tl: Point, br: Point, style: DrawStyle, clip: Option<Rectangle>, corners: Option<Corners>, p: Point, px: Pixel)
    requires tl.x > br.x && p.x == tl.x
    ensures px in BodyScan(tl, br, style, clip, corners, p) <==>
      px.p.x == tl.x && p.y <= px.p.y <= br.y && BodyItem(tl, br, style, clip, corners, px.p) == Some(px)
    decreases br.y + 1 - p.y
  {
    if Transparent(style) {
      assert BodyColor(tl, br, style, px.p) == None;
    } else if p.y <= br.y {
      BodyScanColumn(tl, br, style, clip, corners, Advance(p, tl.x, br.x), px);
    }
  }

  /** `rectangle` yields the point q in colour k exactly when q lies in the
      box and the clip and k is q's colour. */
  lemma RectanglePixelAt(rect: Rectangle, clip: Option<Rectangle>, q: Point, k: PixelColor)
    requires rect.tl.x <= rect.br.x
    ensures Pixel(q, k) in RectanglePixels(rect, clip) <==>
      Contains(rect, q) && ClipAllows(clip, q) && BodyColor(rect.tl, rect.br, rect.style, q) == Some(k)
  {
    BodyScanMember(rect.tl, rect.br, rect.style, clip, None, rect.tl, Pixel(q, k));
  }

  /** Without a positive stroke width no point is in a band. */
  lemma NoBandWithoutWidth(tl: Point, br: Point, w: int, p: Point)
    requires w <= 0
    ensures !InBorder(tl, br, w, p)
  {
  }

  /** With stroke width <= 0 every pixel drawn is a fill pixel, so a
      stroke-only rectangle draws nothing. */
  lemma RectangleNoStroke(rect: Rectangle, clip: Option<Rectangle>, i: int)
    requires rect.style.strokeWidth <= 0 && rect.tl.x <= rect.br.x
    requires 0 <= i < |RectanglePixels(rect, clip)|
    ensures rect.style.fillColor == Some(RectanglePixels(rect, clip)[i].c)
  {
    var px := RectanglePixels(rect, clip)[i];
    RectanglePixelAt(rect, clip, px.p, px.c);
    NoBandWithoutWidth(rect.tl, rect.br, rect.style.strokeWidth, px.p);
  }

  /** The rectangle lies on the canvas. */
  predicate BoxOnCanvas(rect: Rectangle) {
    0 <= rect.tl.x <= rect.br.x < Width && 0 <= rect.tl.y && rect.br.y < Height
  }

  /** A rectangle on the canvas has all its pixels there. */
  lemma RectangleInCanvas(rect: Rectangle, clip: Option<Rectangle>)
    requires BoxOnCanvas(rect)
    ensures Drawable(RectanglePixels(rect, clip)) && InCanvas(RectanglePixels(rect, clip))
  {
    var items := RectanglePixels(rect, clip);
    forall i | 0 <= i < |items|
      ensures 0 <= items[i].p.x < Width && 0 <= items[i].p.y < Height
    {
      BodyScanMember(rect.tl, rect.br, rect.style, clip, None, rect.tl, items[i]);
    }
  }

  /** After `rectangle` on the canvas, a canvas pixel in the box and the clip
      shows its colour when it has one; every other pixel is unchanged. */
  lemma RectangleCanvasPixel(s: seq<bv32>, rect: Rectangle, clip: Option<Rectangle>, q: Point)
    requires |s| == FrameBufSize && BoxOnCanvas(rect)
    requires 0 <= q.x < Width && 0 <= q.y < Height
    ensures Drawable(RectanglePixels(rect, clip)) && PixelAddr(q.x, q.y) < BufBits
    ensures BitAt(PaintAll(s, RectanglePixels(rect, clip)), PixelAddr(q.x, q.y)) ==
      var color := BodyColor(rect.tl, rect.br, rect.style, q);
      if Contains(rect, q) && ClipAllows(clip, q) && color.Some? then color.value == Light
      else BitAt(s, PixelAddr(q.x, q.y))
  {
    RectangleInCanvas(rect, clip);
    BodyScanRowMajor(rect.tl, rect.br, rect.style, clip, None, rect.tl);
    RowMajorCanvasPixel(s, RectanglePixels(rect, clip), q);
    RectanglePixelAt(rect, clip, q, Light);
    RectanglePixelAt(rect, clip, q, Dark);
  }

  /** A filled, unclipped rectangle on the canvas sets the dirty flag of every
      line it covers. */
  lemma RectangleMarksRows(s: seq<bv32>, rect: Rectangle, row: nat)
    requires |s| == FrameBufSize && BoxOnCanvas(rect) && rect.style.fillColor.Some?
    requires rect.tl.y <= row <= rect.br.y
    ensures Drawable(RectanglePixels(rect, None)) && DirtyAddr(row) < BufBits
    ensures BitAt(PaintAll(s, RectanglePixels(rect, None)), DirtyAddr(row))
  {
    var items := RectanglePixels(rect, None);
    RectangleInCanvas(rect, None);
    var q := Point(rect.tl.x, row);
    var k := BodyColor(rect.tl, rect.br, rect.style, q).value;
    RectanglePixelAt(rect, None, q, k);
    var i :| 0 <= i < |items| && items[i] == Pixel(q, k);
    assert ClipRow(items[i].p.x, items[i].p.y) == row;
    PaintAllDirtyBit(s, items, row);
  }

  /** The box the body scan covers: the rectangle itself, or only column
      tl.x when tl.x > br.x (see `BodyScanColumn`). */
  function ScanBox(rect: Rectangle): Rectangle {
    if rect.tl.x <= rect.br.x then rect
    else Rectangle(rect.tl, Point(rect.tl.x, rect.br.y), rect.style)
  }

  /** A clip that shares no point with the scanned box lets nothing through:
      `rectangle` then writes no pixel and sets no dirty flag. */
  lemma RectangleClipDisjoint(s: seq<bv32>, rect: Rectangle, clip: Rectangle)
    requires |s| == FrameBufSize && Disjoint(clip, ScanBox(rect))
    ensures RectanglePixels(rect, Some(clip)) == []
    ensures PaintAll(s, RectanglePixels(rect, Some(clip))) == s
  {
    var ps := RectanglePixels(rect, Some(clip));
    if ps != [] {
      var px := ps[0];
      assert px in ps;
      if rect.tl.x <= rect.br.x {
        RectanglePixelAt(rect, Some(clip), px.p, px.c);
      } else {
        BodyScanColumn(rect.tl, rect.br, rect.style, Some(clip), None, rect.tl, px);
      }
      assert false;
    }
  }
}
