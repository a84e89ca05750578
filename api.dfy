/** Value types the rasterizer consumes: points, rectangles, styles and the
    pixels every shape produces.  Coordinates are modelled as unbounded
    integers; the source's signed 16-bit points are assumed never to overflow. */
module Api {

  datatype Option<+T> = None | Some(value: T)

  /** Largest value of a signed 16-bit coordinate. */
  const I16Max: int := 0x7FFF

  datatype Point = Point(x: int, y: int)

  function Add(a: Point, b: Point): Point {
    Point(a.x + b.x, a.y + b.y)
  }

  function Sub(a: Point, b: Point): Point {
    Point(a.x - b.x, a.y - b.y)
  }

  datatype PixelColor = Light | Dark

  /** A drawing style: either colour may be absent; the stroke width is signed. */
  datatype DrawStyle = DrawStyle(strokeColor: Option<PixelColor>, fillColor: Option<PixelColor>, strokeWidth: int)

  datatype Rectangle = Rectangle(tl: Point, br: Point, style: DrawStyle)

  datatype Circle = Circle(center: Point, radius: int, style: DrawStyle)

  datatype RoundedRectangle = RoundedRectangle(border: Rectangle, radius: int)

  datatype Line = Line(start: Point, end: Point, style: DrawStyle)

  /** One emitted pixel: where, and in which colour. */
  datatype Pixel = Pixel(p: Point, c: PixelColor)

  /** Neither a stroke nor a fill colour: the shape is fully transparent. */
  predicate Transparent(style: DrawStyle) {
    style.strokeColor.None? && style.fillColor.None?
  }

  /** `Rectangle::intersects_point`, whose code is not part of this model,
      taken to be inclusive containment in the box spanned by tl and br. */
  predicate Contains(r: Rectangle, q: Point) {
    r.tl.x <= q.x <= r.br.x && r.tl.y <= q.y <= r.br.y
  }

  /** Two boxes separated along one axis: no point is in both. */
  predicate Disjoint(a: Rectangle, b: Rectangle) {
    a.br.x < b.tl.x || b.br.x < a.tl.x || a.br.y < b.tl.y || b.br.y < a.tl.y
  }

  /** The optional clip region: absent means nothing is filtered. */
  predicate ClipAllows(clip: Option<Rectangle>, q: Point) {
    clip.None? || Contains(clip.value, q)
  }

  /** Strict row-major order: by row, then by column. */
  predicate Before(a: Point, b: Point) {
    a.y < b.y || (a.y == b.y && a.x < b.x)
  }

  /** Pixels whose points are in strictly increasing row-major order. */
  predicate RowMajor(s: seq<Pixel>) {
    forall i, j :: 0 <= i < j < |s| ==> Before(s[i].p, s[j].p)
  }

  /** The cursor step every shape iterator takes: one column right, and past
      column `xmax` back to column `xmin` of the next row. */
  function Advance(p: Point, xmin: int, xmax: int): (q: Point)
    ensures Before(p, q)
    ensures q.y == p.y || q.y == p.y + 1
  {
    if p.x + 1 > xmax then Point(xmin, p.y + 1) else Point(p.x + 1, p.y)
  }

  /** Within the columns xmin..xmax, the positions at or after p are p itself
      and those at or after the cursor's next position. */
  lemma AdvanceCovers(p: Point, xmin: int, xmax: int, t: Point)
    requires xmin <= p.x <= xmax && xmin <= t.x <= xmax
    ensures !Before(t, p) <==> t == p || !Before(t, Advance(p, xmin, xmax))
  {
  }

  /** Putting an item before a row-major sequence whose points all come after
      it keeps the order. */
  lemma RowMajorCons(item: Option<Pixel>, rest: seq<Pixel>)
    requires RowMajor(rest)
    requires item.Some? ==> forall j :: 0 <= j < |rest| ==> Before(item.value.p, rest[j].p)
    ensures RowMajor(AsSeq(item) + rest)
  {
    if item.Some? {
      var s := AsSeq(item) + rest;
      forall i, j | 0 <= i < j < |s|
        ensures Before(s[i].p, s[j].p)
      {
        assert s[j] == rest[j - 1];
        if i > 0 {
          assert s[i] == rest[i - 1];
        }
      }
    } else {
      assert AsSeq(item) + rest == rest;
    }
  }

  /** Multiplying by a non-negative factor keeps an order. */
  lemma MulMono(a: nat, b: int, c: int)
    requires b <= c
    ensures a * b <= a * c
  {
    assert a * c - a * b == a * (c - b);
  }

  function Abs(a: int): int {
    if a < 0 then -a else a
  }

  /** The item an iterator emits for a classified point. */
  function Emit(q: Point, color: Option<PixelColor>): Option<Pixel> {
    match color
    case None => None
    case Some(c) => Some(Pixel(q, c))
  }

  /** An optional item as a sequence of zero or one pixels. */
  function AsSeq(item: Option<Pixel>): seq<Pixel> {
    match item
    case None => []
    case Some(px) => [px]
  }
}
