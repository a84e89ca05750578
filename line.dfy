/** The Bresenham line tracer.  The walk is the integer error-term variant
    that handles every octant: dx = |x1 - x0| is positive, dy = -|y1 - y0| is
    negative, sx and sy are the step directions, and err starts at dx + dy.

    In the walk's own coordinates i = sx * (x - x0) and j = sy * (y - y0)
    (how far it has come along each axis) the error term always equals
    dx * (1 + j) + dy * (1 + i), and the walk never leaves the box
    0 <= i <= dx, 0 <= j <= -dy; that is what makes it terminate at the end
    point. */
module Bresenham {
  import opened Api
  import opened Framebuffer

  function Dx(l: Line): nat {
    Abs(l.end.x - l.start.x)
  }

  /** The source's dy, never positive. */
  function Dy(l: Line): int {
    -Abs(l.end.y - l.start.y)
  }

  function Sx(l: Line): int {
    if l.start.x < l.end.x then 1 else -1
  }

  function Sy(l: Line): int {
    if l.start.y < l.end.y then 1 else -1
  }

  /** The loop's variables x0, y0 and err. */
  datatype Cursor = Cursor(x: int, y: int, err: int)

  function At(c: Cursor): Point {
    Point(c.x, c.y)
  }

  function Start(l: Line): Cursor {
    Cursor(l.start.x, l.start.y, Dx(l) + Dy(l))
  }

  /** Distance travelled along each axis. */
  function XDone(l: Line, c: Cursor): int {
    Sx(l) * (c.x - l.start.x)
  }

  function YDone(l: Line, c: Cursor): int {
    Sy(l) * (c.y - l.start.y)
  }

  /** What every cursor the walk reaches satisfies. */
  predicate WalkInv(l: Line, c: Cursor) {
    0 <= XDone(l, c) <= Dx(l) && 0 <= YDone(l, c) <= -Dy(l)
    && c.err == Dx(l) * (1 + YDone(l, c)) + Dy(l) * (1 + XDone(l, c))
  }

  function Remaining(l: Line, c: Cursor): int {
    (Dx(l) - XDone(l, c)) + (-Dy(l) - YDone(l, c))
  }

  predicate AtEnd(l: Line, c: Cursor) {
    c.x == l.end.x && c.y == l.end.y
  }

  /** One pass of the loop body after the end test: e2 = 2 * err decides an
      x step (e2 >= dy) and a y step (e2 <= dx), both from the same e2. */
  function Step(l: Line, c: Cursor): Cursor {
    var e2 := 2 * c.err;
    var x, err := if e2 >= Dy(l) then c.x + Sx(l) else c.x, if e2 >= Dy(l) then c.err + Dy(l) else c.err;
    if e2 <= Dx(l) then Cursor(x, c.y + Sy(l), err + Dx(l)) else Cursor(x, c.y, err)
  }

  lemma StartInv(l: Line)
    ensures WalkInv(l, Start(l)) && XDone(l, Start(l)) == 0 && YDone(l, Start(l)) == 0
  {
  }

  /** The end point is where both distances are used up. */
  lemma {:induction false} AtEndIff(l: Line, c: Cursor)
    requires WalkInv(l, c)
    ensures AtEnd(l, c) <==> XDone(l, c) == Dx(l) && YDone(l, c) == -Dy(l)
  {
    if Sx(l) == 1 {
      assert XDone(l, c) == c.x - l.start.x;
    } else {
      assert XDone(l, c) == l.start.x - c.x;
    }
    if Sy(l) == 1 {
      assert YDone(l, c) == c.y - l.start.y;
    } else {
      assert YDone(l, c) == l.start.y - c.y;
    }
  }

  /** How a step moves the distances: each by 0 or 1. */
  lemma {:induction false} StepDistances(l: Line, c: Cursor)
    ensures var e2 := 2 * c.err;
      XDone(l, Step(l, c)) == XDone(l, c) + (if e2 >= Dy(l) then 1 else 0) &&
      YDone(l, Step(l, c)) == YDone(l, c) + (if e2 <= Dx(l) then 1 else 0)
  {
    var n := Step(l, c);
    assert Sx(l) * Sx(l) == 1 && Sy(l) * Sy(l) == 1;
    assert XDone(l, n) == Sx(l) * (n.x - c.x) + XDone(l, c);
    assert YDone(l, n) == Sy(l) * (n.y - c.y) + YDone(l, c);
  }

  /** The error term as a function of the distances travelled. */
  function ErrAt(l: Line, i: int, j: int): int {
    Dx(l) * (1 + j) + Dy(l) * (1 + i)
  }

  /** An x step adds dy to the error term, a y step adds dx. */
  lemma ErrShift(l: Line, i: int, j: int)
    ensures ErrAt(l, i + 1, j) == ErrAt(l, i, j) + Dy(l)
    ensures ErrAt(l, i, j + 1) == ErrAt(l, i, j) + Dx(l)
  {
  }

  /** A step away from the end point keeps the invariant and moves at least
      one axis, without overshooting either. */
  lemma {:induction false} StepKeepsInv(l: Line, c: Cursor)
    requires WalkInv(l, c) && !AtEnd(l, c)
    ensures WalkInv(l, Step(l, c))
    ensures Remaining(l, Step(l, c)) < Remaining(l, c)
  {
    var i, j := XDone(l, c), YDone(l, c);
    var e2 := 2 * c.err;
    var n := Step(l, c);
    StepBounds(l, c);
    StepDistances(l, c);
    assert c.err == ErrAt(l, i, j);
    ErrShift(l, i, j);
    ErrShift(l, i + 1, j);
    assert n.err == ErrAt(l, XDone(l, n), YDone(l, n));
  }

  /** At i == dx with rows left, the error term is at most dy. */
  lemma BoundAtLastColumn(dx: nat, ddy: int, j: int)
    requires 0 <= j < ddy
    ensures dx * (1 + j) - ddy * (1 + dx) <= -ddy
  {
    MulMono(dx, 1 + j, ddy);
    assert ddy * (1 + dx) == ddy + ddy * dx;
  }

  /** At j == -dy with columns left, the error term is at least dx. */
  lemma BoundAtLastRow(dx: int, ddy: nat, i: int)
    requires 0 <= i < dx
    ensures dx * (1 + ddy) - ddy * (1 + i) >= dx
  {
    MulMono(ddy, 1 + i, dx);
    assert dx * (1 + ddy) == dx + dx * ddy;
  }

  /** Away from the end point a step moves at least one axis, and neither
      past its end: the error term forbids an x step once i == dx and a y
      step once j == -dy. */
  lemma {:induction false} StepBounds(l: Line, c: Cursor)
    requires WalkInv(l, c) && !AtEnd(l, c)
    ensures var e2 := 2 * c.err;
      (e2 >= Dy(l) || e2 <= Dx(l)) && (e2 >= Dy(l) ==> XDone(l, c) < Dx(l)) && (e2 <= Dx(l) ==> YDone(l, c) < -Dy(l))
  {
    var i, j, dx, ddy := XDone(l, c), YDone(l, c), Dx(l), -Dy(l);
    AtEndIff(l, c);
    assert c.err == dx * (1 + j) - ddy * (1 + i);
    if i == dx {
      BoundAtLastColumn(dx, ddy, j);
    }
    if j == ddy {
      BoundAtLastRow(dx, ddy, i);
    }
  }

  /** The points the loop visits from cursor c, the end point included. */
  function Walk(l: Line, c: Cursor): (pts: seq<Point>)
    requires WalkInv(l, c)
    ensures |pts| >= 1 && pts[0] == At(c) && pts[|pts| - 1] == l.end
    decreases Remaining(l, c)
  {
    if AtEnd(l, c) then [At(c)]
    else
      StepKeepsInv(l, c);
      [At(c)] + Walk(l, Step(l, c))
  }

  /** The points `line` visits, before any canvas or clip filtering. */
  function LinePoints(l: Line): seq<Point> {
    StartInv(l);
    Walk(l, Start(l))
  }

  // ---------------------------------------------------------------- the walk

  /** Every point of the walk from c is reached from c in the box. */
  lemma {:induction false} WalkInBox(l: Line, c: Cursor, k: int)
    requires WalkInv(l, c) && 0 <= k < |Walk(l, c)|
    ensures var q := Walk(l, c)[k];
      XDone(l, c) <= Sx(l) * (q.x - l.start.x) <= Dx(l) && YDone(l, c) <= Sy(l) * (q.y - l.start.y) <= -Dy(l)
    decreases Remaining(l, c)
  {
    if !AtEnd(l, c) && k > 0 {
      StepKeepsInv(l, c);
      StepDistances(l, c);
      WalkInBox(l, Step(l, c), k - 1);
    }
  }

  /** Consecutive points differ by 0 or the direction on each axis, and not
      by 0 on both. */
  predicate UnitStep(l: Line, a: Point, b: Point) {
    (b.x == a.x || b.x == a.x + Sx(l)) && (b.y == a.y || b.y == a.y + Sy(l)) && a != b
  }

  lemma {:induction false} WalkSteps(l: Line, c: Cursor, k: int)
    requires WalkInv(l, c) && 0 <= k < |Walk(l, c)| - 1
    ensures UnitStep(l, Walk(l, c)[k], Walk(l, c)[k + 1])
    decreases Remaining(l, c)
  {
    StepKeepsInv(l, c);
    if k > 0 {
      WalkSteps(l, Step(l, c), k - 1);
    } else {
      var n := Step(l, c);
      assert At(n) != At(c) by {
        StepDistances(l, c);
        assert XDone(l, n) != XDone(l, c) || YDone(l, n) != YDone(l, c);
      }
    }
  }

  /** The walk starts at the start point, ends at the end point, moves one
      unit step at a time toward the end and never leaves the bounding box. */
  lemma LineWalk(l: Line)
    ensures var pts := LinePoints(l);
      |pts| >= 1 && pts[0] == l.start && pts[|pts| - 1] == l.end &&
      (forall k :: 0 <= k < |pts| - 1 ==> UnitStep(l, pts[k], pts[k + 1])) &&
      (forall k :: 0 <= k < |pts| ==>
        0 <= Sx(l) * (pts[k].x - l.start.x) <= Dx(l) && 0 <= Sy(l) * (pts[k].y - l.start.y) <= -Dy(l))
  {
    StartInv(l);
    var pts := LinePoints(l);
    forall k | 0 <= k < |pts| - 1
      ensures UnitStep(l, pts[k], pts[k + 1])
    {
      WalkSteps(l, Start(l), k);
    }
    forall k | 0 <= k < |pts|
      ensures 0 <= Sx(l) * (pts[k].x - l.start.x) <= Dx(l) && 0 <= Sy(l) * (pts[k].y - l.start.y) <= -Dy(l)
    {
      WalkInBox(l, Start(l), k);
    }
  }

  /** The walk is not symmetric: (0, 0) to (2, 1) passes through (1, 1),
      while (2, 1) to (0, 0) passes through (1, 0) instead. */
  lemma LineNotSymmetric(style: DrawStyle)
    ensures LinePoints(Line(Point(0, 0), Point(2, 1), style)) == [Point(0, 0), Point(1, 1), Point(2, 1)]
    ensures LinePoints(Line(Point(2, 1), Point(0, 0), style)) == [Point(2, 1), Point(1, 0), Point(0, 0)]
  {
    var l := Line(Point(0, 0), Point(2, 1), style);
    StartInv(l);
    assert Start(l) == Cursor(0, 0, 1);
    StepKeepsInv(l, Cursor(0, 0, 1));
    assert Step(l, Cursor(0, 0, 1)) == Cursor(1, 1, 2);
    StepKeepsInv(l, Cursor(1, 1, 2));
    assert Step(l, Cursor(1, 1, 2)) == Cursor(2, 1, 1);
    assert Walk(l, Cursor(2, 1, 1)) == [Point(2, 1)];
    assert Walk(l, Cursor(1, 1, 2)) == [Point(1, 1), Point(2, 1)];
    assert Walk(l, Cursor(0, 0, 1)) == [Point(0, 0), Point(1, 1), Point(2, 1)];
    var m := Line(Point(2, 1), Point(0, 0), style);
    StartInv(m);
    assert Start(m) == Cursor(2, 1, 1);
    StepKeepsInv(m, Cursor(2, 1, 1));
    assert Step(m, Cursor(2, 1, 1)) == Cursor(1, 0, 2);
    StepKeepsInv(m, Cursor(1, 0, 2));
    assert Step(m, Cursor(1, 0, 2)) == Cursor(0, 0, 1);
    assert Walk(m, Cursor(0, 0, 1)) == [Point(0, 0)];
    assert Walk(m, Cursor(1, 0, 2)) == [Point(1, 0), Point(0, 0)];
    assert Walk(m, Cursor(2, 1, 1)) == [Point(2, 1), Point(1, 0), Point(0, 0)];
  }

  // ---------------------------------------------------------------- plotting

  /** A visited point is plotted when it is on the canvas and the clip, if
      any, contains it. */
  predicate Plotted(q: Point, clip: Option<Rectangle>) {
    0 <= q.x < Width && 0 <= q.y < Height && ClipAllows(clip, q)
  }

  /** The plotted points of a walk, in order, as pixels of one colour. */
  function PlotPixels(pts: seq<Point>, clip: Option<Rectangle>, color: PixelColor): (r: seq<Pixel>)
    ensures Drawable(r) && InCanvas(r)
    ensures forall px :: px in r ==> px.c == color
    ensures forall q :: Pixel(q, color) in r <==> q in pts && Plotted(q, clip)
    decreases |pts|
  {
    if pts == [] then []
    else
      var q := pts[|pts| - 1];
      var rest := PlotPixels(pts[..|pts| - 1], clip, color);
      assert forall q' :: q' in pts <==> q' in pts[..|pts| - 1] || q' == q;
      if Plotted(q, clip) then rest + [Pixel(q, color)] else rest
  }

  /** The buffer after plotting the points pts of a line in colour color:
      put_pixel on each plotted point or, with xor, xor_pixel. */
  function PlotFB(s: seq<bv32>, pts: seq<Point>, clip: Option<Rectangle>, color: PixelColor, xor: bool): (r: seq<bv32>)
    requires |s| == FrameBufSize
    ensures |r| == FrameBufSize
  {
    var items := PlotPixels(pts, clip, color);
    if xor then XorAll(s, items) else PaintAll(s, items)
  }

  /** Plotting one more point is one more pixel operation when the point is
      plotted, and nothing otherwise. */
  lemma PlotFBSnoc(s: seq<bv32>, pts: seq<Point>, q: Point, clip: Option<Rectangle>, color: PixelColor, xor: bool)
    requires |s| == FrameBufSize
    ensures PlotFB(s, pts + [q], clip, color, xor) == PlotOne(PlotFB(s, pts, clip, color, xor), q, clip, color, xor)
  {
    assert (pts + [q])[..|pts|] == pts;
    var items := PlotPixels(pts, clip, color);
    if Plotted(q, clip) {
      XorAllSnoc(s, items, Pixel(q, color));
      PaintAllSnoc(s, items, Pixel(q, color));
    }
  }

  /** The buffer after the loop body's pixel operation at q. */
  function PlotOne(s: seq<bv32>, q: Point, clip: Option<Rectangle>, color: PixelColor, xor: bool): (r: seq<bv32>)
    requires |s| == FrameBufSize
    ensures |r| == FrameBufSize
  {
    if !Plotted(q, clip) then s
    else if xor then XorPixelFB(s, q.x, q.y)
    else PutPixelFB(s, q.x, q.y, color)
  }

  /** The loop body's pixel operation: a point on the canvas and inside the
      clip is put in the stroke colour or, with xor, toggled. */
  method PlotPoint(fb: array<bv32>, x0: int, y0: int, clip: Option<Rectangle>, color: PixelColor, xor: bool)
    requires fb.Length == FrameBufSize
    modifies fb
    ensures fb[..] == PlotOne(old(fb[..]), Point(x0, y0), clip, color, xor)
  {
    if x0 >= 0 && y0 >= 0 && x0 < Width && y0 < Height {
      if clip.None? || Contains(clip.value, Point(x0, y0)) {
        if !xor {
          PutPixel(fb, x0, y0, color);
        } else {
          XorPixel(fb, x0, y0);
        }
      }
    }
  }

  /** The buffer after `line(fb, l, clip, xor)`. */
  function LineFB(s: seq<bv32>, l: Line, clip: Option<Rectangle>, xor: bool): (r: seq<bv32>)
    requires |s| == FrameBufSize
    ensures |r| == FrameBufSize
  {
    match l.style.strokeColor
    case None => s
    case Some(color) => PlotFB(s, LinePoints(l), clip, color, xor)
  }

  /** The buffer once the loop has run on from cursor c over buffer s: the
      work the loop still has to do. */
  function Finish(s: seq<bv32>, l: Line, c: Cursor, clip: Option<Rectangle>, color: PixelColor, xor: bool): (r: seq<bv32>)
    requires |s| == FrameBufSize && WalkInv(l, c)
    ensures |r| == FrameBufSize
    decreases Remaining(l, c)
  {
    var s' := PlotOne(s, At(c), clip, color, xor);
    if AtEnd(l, c) then s'
    else
      StepKeepsInv(l, c);
      Finish(s', l, Step(l, c), clip, color, xor)
  }

  /** Running on from c after plotting acc plots acc and then the rest of the walk. */
  lemma {:induction false} FinishIsPlot(s0: seq<bv32>, acc: seq<Point>, l: Line, c: Cursor,
                                        clip: Option<Rectangle>, color: PixelColor, xor: bool)
    requires |s0| == FrameBufSize && WalkInv(l, c)
    ensures Finish(PlotFB(s0, acc, clip, color, xor), l, c, clip, color, xor) == PlotFB(s0, acc + Walk(l, c), clip, color, xor)
    decreases Remaining(l, c)
  {
    PlotFBSnoc(s0, acc, At(c), clip, color, xor);
    if AtEnd(l, c) {
      assert Walk(l, c) == [At(c)];
    } else {
      StepKeepsInv(l, c);
      FinishIsPlot(s0, acc + [At(c)], l, Step(l, c), clip, color, xor);
      ConsAssoc(acc, At(c), Walk(l, Step(l, c)));
    }
  }

  /** The loop started at the first cursor does all of `line`'s work. */
  lemma FinishFromStart(s: seq<bv32>, l: Line, clip: Option<Rectangle>, xor: bool)
    requires |s| == FrameBufSize && l.style.strokeColor.Some?
    ensures WalkInv(l, Start(l))
    ensures Finish(s, l, Start(l), clip, l.style.strokeColor.value, xor) == LineFB(s, l, clip, xor)
  {
    StartInv(l);
    var color := l.style.strokeColor.value;
    FinishIsPlot(s, [], l, Start(l), clip, color, xor);
    assert PlotFB(s, [], clip, color, xor) == s;
    assert [] + Walk(l, Start(l)) == LinePoints(l);
  }

  /** At the end point the loop's last pixel operation is all that is left. */
  lemma FinishAtEnd(s: seq<bv32>, s': seq<bv32>, l: Line, c: Cursor, clip: Option<Rectangle>, color: PixelColor, xor: bool)
    requires |s| == FrameBufSize && WalkInv(l, c) && At(c) == l.end
    requires s' == PlotOne(s, At(c), clip, color, xor)
    ensures Finish(s, l, c, clip, color, xor) == s'
  {
    AtEndIff(l, c);
  }

  /** Away from the end point one loop iteration keeps the remaining work
      and shrinks the measure. */
  lemma FinishStep(s: seq<bv32>, s': seq<bv32>, l: Line, c: Cursor, clip: Option<Rectangle>, color: PixelColor, xor: bool)
    requires |s| == FrameBufSize && WalkInv(l, c) && At(c) != l.end
    requires s' == PlotOne(s, At(c), clip, color, xor)
    ensures WalkInv(l, Step(l, c)) && 0 <= Remaining(l, Step(l, c)) < Remaining(l, c)
    ensures Finish(s', l, Step(l, c), clip, color, xor) == Finish(s, l, c, clip, color, xor)
  {
    AtEndIff(l, c);
    StepKeepsInv(l, c);
  }

  /** Draws a line with the stroke colour, putting (or, with xor, toggling)
      every visited point that is on the canvas and inside the clip. */
  method DrawLine(fb: array<bv32>, l: Line, clip: Option<Rectangle>, xor: bool)
    requires fb.Length == FrameBufSize
    modifies fb
    ensures fb[..] == LineFB(old(fb[..]), l, clip, xor)
  {
    var color: PixelColor;
    if l.style.strokeColor.Some? {
      color := l.style.strokeColor.value;
    } else {
      return;
    }
    var x0 := l.start.x;
    var y0 := l.start.y;
    var x1 := l.end.x;
    var y1 := l.end.y;

    var dx := Abs(x1 - x0);
    var sx := if x0 < x1 then 1 else -1;
    var dy := -Abs(y1 - y0);
    var sy := if y0 < y1 then 1 else -1;
    var err := dx + dy;
    assert Cursor(x0, y0, err) == Start(l);
    ghost var target := LineFB(fb[..], l, clip, xor);
    FinishFromStart(fb[..], l, clip, xor);
    while true
      invariant dx == Dx(l) && dy == Dy(l) && sx == Sx(l) && sy == Sy(l)
      invariant x1 == l.end.x && y1 == l.end.y
      invariant WalkInv(l, Cursor(x0, y0, err))
      invariant Finish(fb[..], l, Cursor(x0, y0, err), clip, color, xor) == target
      decreases Remaining(l, Cursor(x0, y0, err))
    {
      ghost var c := Cursor(x0, y0, err);
      ghost var before := fb[..];
      PlotPoint(fb, x0, y0, clip, color, xor);
      if x0 == x1 && y0 == y1 {
        FinishAtEnd(before, fb[..], l, c, clip, color, xor);
        break;
      }
      FinishStep(before, fb[..], l, c, clip, color, xor);
      x0, y0, err := StepCursor(l, x0, y0, err, dx, dy, sx, sy);
    }
  }

  /** The loop's error-term update: e2 = 2 * err decides an x step and a y step. */
  method StepCursor(l: Line, x: int, y: int, err: int, dx: int, dy: int, sx: int, sy: int)
    returns (x': int, y': int, err': int)
    requires dx == Dx(l) && dy == Dy(l) && sx == Sx(l) && sy == Sy(l)
    ensures Cursor(x', y', err') == Step(l, Cursor(x, y, err))
  {
    x', y', err' := x, y, err;
    var e2 := 2 * err;
    if e2 >= dy {
      err' := err' + dy;
      x' := x' + sx;
    }
    if e2 <= dx {
      err' := err' + dx;
      y' := y' + sy;
    }
  }

  lemma ConsAssoc(a: seq<Point>, x: Point, b: seq<Point>)
    ensures (a + [x]) + b == a + ([x] + b)
  {
  }

  // ---------------------------------------------------------------- what a line does to the canvas

  /** Without a stroke colour `line` changes nothing. */
  lemma LineWithoutStroke(s: seq<bv32>, l: Line, clip: Option<Rectangle>, xor: bool)
    requires |s| == FrameBufSize && l.style.strokeColor.None?
    ensures LineFB(s, l, clip, xor) == s
  {
  }

  /** In put mode, a canvas pixel ends in the stroke colour when the walk visits
      it inside the clip, and is unchanged otherwise. */
  lemma LineCanvasPixel(s: seq<bv32>, l: Line, clip: Option<Rectangle>, q: Point)
    requires |s| == FrameBufSize && l.style.strokeColor.Some?
    requires 0 <= q.x < Width && 0 <= q.y < Height
    ensures PixelAddr(q.x, q.y) < BufBits
    ensures BitAt(LineFB(s, l, clip, false), PixelAddr(q.x, q.y)) ==
      if q in LinePoints(l) && ClipAllows(clip, q) then l.style.strokeColor.value == Light
      else BitAt(s, PixelAddr(q.x, q.y))
  {
    var color := l.style.strokeColor.value;
    var items := PlotPixels(LinePoints(l), clip, color);
    assert LineFB(s, l, clip, false) == PaintAll(s, items);
    PaintAllCanvasPixel(s, items, q);
    LastAtOneColor(items, q, color);
  }

  /** In a sequence of one colour, the last item at q is there exactly when q is. */
  lemma {:induction false} LastAtOneColor(items: seq<Pixel>, q: Point, color: PixelColor)
    requires forall px :: px in items ==> px.c == color
    ensures LastAt(items, q) == if Pixel(q, color) in items then Some(color) else None
    decreases |items|
  {
    if items != [] {
      var rest := items[..|items| - 1];
      assert forall px :: px in items <==> px in rest || px == items[|items| - 1];
      LastAtOneColor(rest, q, color);
    }
  }

  /** In xor mode, drawing the same line twice restores every pixel. */
  lemma LineXorTwice(s: seq<bv32>, l: Line, clip: Option<Rectangle>, a: nat)
    requires |s| == FrameBufSize && a < BufBits && !IsDirtyAddr(a)
    ensures BitAt(LineFB(LineFB(s, l, clip, true), l, clip, true), a) == BitAt(s, a)
  {
    if l.style.strokeColor.Some? {
      XorAllTwice(s, PlotPixels(LinePoints(l), clip, l.style.strokeColor.value), a);
    }
  }

  /** The bounding box of a line's endpoints. */
  function LineBox(l: Line): Rectangle {
    var a, b := l.start, l.end;
    Rectangle(Point(if a.x <= b.x then a.x else b.x, if a.y <= b.y then a.y else b.y),
              Point(if a.x <= b.x then b.x else a.x, if a.y <= b.y then b.y else a.y), l.style)
  }

  /** A clip that shares no point with the endpoints' box lets nothing
      through: `line` then writes no pixel and sets no dirty flag. */
  lemma LineClipDisjoint(s: seq<bv32>, l: Line, clip: Rectangle, xor: bool)
    requires |s| == FrameBufSize && Disjoint(clip, LineBox(l))
    ensures forall color :: PlotPixels(LinePoints(l), Some(clip), color) == []
    ensures LineFB(s, l, Some(clip), xor) == s
  {
    var pts := LinePoints(l);
    forall color
      ensures PlotPixels(pts, Some(clip), color) == []
    {
      var items := PlotPixels(pts, Some(clip), color);
      if items != [] {
        var px := items[0];
        assert px in items;
        assert Pixel(px.p, color) in items;
        var k :| 0 <= k < |pts| && pts[k] == px.p;
        LineWalk(l);
        assert false;
      }
    }
  }
}
