# Graphics-server rasterizer, modelled in Dafny

This project models the software rasterizer of the graphics server
(`services/graphics-server/src/op.rs`). The rasterizer turns drawing
commands into in-place bit changes on a monochrome framebuffer. The buffer
holds 536 lines of 11 32-bit words. A line has 336 visible pixels, and bit 16
of its last word is the line's "dirty" flag.

The model has seven modules, one per part of the rasterizer:

- `Api` (`api.dfy`): the shared value types `Point`, `DrawStyle`,
  `Rectangle`, `Circle`, `RoundedRectangle`, `Line` and `Pixel`. It also
  holds the clip test, the row-major order and the cursor step with row wrap
  that all iterators share.
- `Framebuffer` (`framebuffer.dfy`): the buffer as an `array<bv32>` of 5896
  words, and the primitives `put_pixel` and `xor_pixel` as methods on it.
  - Each primitive is specified by a function on the buffer's contents.
  - Their effect is described through *bit addresses*. Address
    `a = x + row * 352` names bit `a % 32` of word `a / 32`. The dirty flag
    of a line sits at address `row * 352 + 336`.
  - `PaintAll` and `XorAll` give the effect of putting or toggling a
    sequence of pixels in order.
- `Bresenham` (`line.dfy`): `line`, as a loop over the source's `x0`, `y0`
  and `err`. It is proved equal to painting the points of a pure walk
  function, `LinePoints`, which has its own properties.
- `Circles`, `Rectangles`, `Quadrants`, `RoundedRectangles`: one class per
  pixel iterator.
  - Each class has the source's fields, the cursor `p` is a mutable field,
    and `Next` has the source's loop.
  - `Next` is specified against a ghost `Remaining()`: the pixels the
    iterator will still yield, computed by a scan function on the cursor.
  - Each driver (`circle`, `rectangle`, `quadrant`, `rounded_rectangle`) is
    a loop that calls `Next` and `PutPixel`. It is proved to leave the buffer
    equal to `PaintAll` of the iterator's whole output.
  - Lemmas about the scan functions state what each shape yields: which
    points, in which colour, in which order. Other lemmas state what the
    buffer shows afterwards.

`Rectangle::intersects_point` is not part of this model. It is assumed to be
inclusive containment in the box, `tl <= q <= br` on both axes (`Contains`).
`Point` addition is assumed to be component-wise. `Rectangle::new` and
`Circle::new_with_style` are assumed to store their arguments.

## Model

| member | source | states |
|---|---|---|
| Api.Advance | services/graphics-server/src/op.rs:151-156 | the cursor step moves strictly forward in row-major order, on the same row or onto the next |
| Api.AdvanceCovers | services/graphics-server/src/op.rs:242-248 | within the iterator's columns, the positions at or after the cursor are the cursor itself and the positions at or after its successor, so no position is skipped |
| Framebuffer.ClipRow | services/graphics-server/src/op.rs:16-24 | the line a pixel operation writes is one of the 536 buffer lines. The clamping rules themselves are stated by `PutPixelInRange`, `RowClamp` and `ColumnOverflowForcesRow` |
| Framebuffer.PixelAddr | services/graphics-server/src/op.rs:21-31 | the bit address of a pixel operation lies inside the buffer |
| Framebuffer.PutPixelFB | services/graphics-server/src/op.rs:15-33 | `put_pixel` on the buffer's contents: the row clamp, the pixel bit set or cleared, and the line's dirty flag set |
| Framebuffer.XorPixelFB | services/graphics-server/src/op.rs:35-49 | `xor_pixel` on the buffer's contents: the same clamp, the pixel bit flipped, and the dirty flag set |
| Framebuffer.PutPixel | services/graphics-server/src/op.rs:15-33 | the array after `put_pixel` is `PutPixelFB` of the old contents |
| Framebuffer.XorPixel | services/graphics-server/src/op.rs:35-49 | the array after `xor_pixel` is `XorPixelFB` of the old contents |
| Framebuffer.PixelWordAndBit | services/graphics-server/src/op.rs:26-30 | the pixel's address falls in word `row * 11 + x / 32`, at bit `x % 32` |
| Framebuffer.VisiblePixelIsNotDirty | services/graphics-server/src/op.rs:26-32 | in the visible columns, `x / 32 == 10` forces `x % 32 <= 15`, so a pixel bit is never a dirty flag |
| Framebuffer.VisiblePixelsDistinct | services/graphics-server/src/op.rs:26-30 | two canvas points share a bit exactly when they are the same point |
| Framebuffer.DirtyAddrIsFlag | services/graphics-server/src/op.rs:31-32 | a line's dirty address is bit 16 of word `row * 11 + 10` |
| Framebuffer.PutPixelBits | services/graphics-server/src/op.rs:26-32 | `put_pixel` changes two bits: the pixel bit becomes set (Light) or cleared (Dark), the written line's dirty flag becomes set, and every other bit keeps its value |
| Framebuffer.XorPixelBits | services/graphics-server/src/op.rs:46-48 | `xor_pixel` flips the pixel bit, sets the line's dirty flag and keeps every other bit |
| Framebuffer.PutPixelInRange | services/graphics-server/src/op.rs:15-33 | for 0 <= x < 336, the row is y (or 535 off the buffer). Word `row*11 + x/32` bit `x%32` takes the colour, word `row*11 + 10` bit 16 is set, and every other bit of every word is unchanged |
| Framebuffer.PutPixelWordBit | services/graphics-server/src/op.rs:26-32 | the same statement for one word and bit |
| Framebuffer.PutPixelIdempotent | services/graphics-server/src/op.rs:15-33 | putting the same pixel twice in the same colour equals putting it once |
| Framebuffer.XorPixelTwice | services/graphics-server/src/op.rs:35-49 | toggling twice restores the buffer except that the line's dirty flag is set |
| Framebuffer.RowClamp | services/graphics-server/src/op.rs:15-49 | any y < 0 or y >= 536 writes exactly what y = 535 writes, for both primitives |
| Framebuffer.ColumnOverflowForcesRow | services/graphics-server/src/op.rs:15-49 | an x >= 336 uses line 335 whatever y is, at word `335 * 11 + x / 32`, for both primitives |
| Framebuffer.ColumnOverflowClearsDirtyFlag | services/graphics-server/src/op.rs:21-29 | a Dark pixel with an unclamped x past the canvas can clear the dirty flag of a line after 335 |
| Framebuffer.PaintAllSnoc | services/graphics-server/src/op.rs:15-33 | painting one more pixel is one more `put_pixel` |
| Framebuffer.PaintAllAppend | services/graphics-server/src/op.rs:15-33 | painting a concatenation paints the first part, then the second |
| Framebuffer.PaintAllPixelBit | services/graphics-server/src/op.rs:26-30 | after painting a sequence, a pixel bit holds the colour of the last pixel written to it, or its old value if none was |
| Framebuffer.PaintAllDirtyBit | services/graphics-server/src/op.rs:31-32 | with visible columns, a line's dirty flag is set afterwards exactly when it was set before or some pixel lay on that line |
| Framebuffer.PaintAllCanvasPixel | services/graphics-server/src/op.rs:15-33 | a canvas pixel shows the colour of its last write |
| Framebuffer.RowMajorCanvasPixel | services/graphics-server/src/op.rs:15-33 | for a row-major pixel sequence, a canvas pixel is Light if drawn Light, Dark if drawn Dark, else unchanged |
| Framebuffer.LastAtRowMajor | services/graphics-server/src/op.rs:15-33 | in a row-major sequence, the last colour at a point is k exactly when that point is in the sequence with colour k |
| Framebuffer.XorAllPixelBit | services/graphics-server/src/op.rs:46-47 | after toggling a sequence, a pixel bit is flipped exactly when it was toggled an odd number of times |
| Framebuffer.XorAllTwice | services/graphics-server/src/op.rs:35-49 | toggling the same sequence twice restores every pixel bit |
| Bresenham.StartInv | services/graphics-server/src/op.rs:58-67 | the start cursor `(x0, y0, dx + dy)` satisfies the walk invariant |
| Bresenham.AtEndIff | services/graphics-server/src/op.rs:79-81 | under the invariant, the end test `x0 == x1 && y0 == y1` holds exactly when both distances are used up |
| Bresenham.StepDistances | services/graphics-server/src/op.rs:82-92 | a step advances x by one when `e2 >= dy` and y by one when `e2 <= dx` |
| Bresenham.StepKeepsInv | services/graphics-server/src/op.rs:79-92 | before the end, a step keeps the invariant and strictly shrinks the distance left, so the loop ends |
| Bresenham.StepBounds | services/graphics-server/src/op.rs:82-92 | before the end, at least one axis moves, and neither moves past its target |
| Bresenham.Walk | services/graphics-server/src/op.rs:68-93 | the visited points start at the cursor and end at `end` |
| Bresenham.WalkInBox | services/graphics-server/src/op.rs:68-93 | each visited point lies between the cursor and `end` on both axes |
| Bresenham.WalkSteps | services/graphics-server/src/op.rs:82-92 | consecutive points differ by 0 or the step sign on each axis, and not on both by 0 |
| Bresenham.LineWalk | services/graphics-server/src/op.rs:58-93 | the walk starts at `start`, ends at `end`, moves by unit steps, and x and y move monotonically toward their targets without passing them |
| Bresenham.LineNotSymmetric | services/graphics-server/src/op.rs:58-93 | (0,0)→(2,1) passes through (1,1), while (2,1)→(0,0) passes through (1,0) |
| Bresenham.PlotPixels | services/graphics-server/src/op.rs:70-78 | the plotted pixels are the walk's points on the canvas that pass the clip, all in one colour |
| Bresenham.PlotPoint | services/graphics-server/src/op.rs:70-78 | one loop pass plots the cursor point as `PlotOne` says. It does nothing off the canvas or outside the clip, and otherwise calls `xor_pixel` or `put_pixel` |
| Bresenham.Step | services/graphics-server/src/op.rs:82-92 | one update of the cursor: `e2 = 2 * err`, then the x step when `e2 >= dy` and the y step when `e2 <= dx` |
| Bresenham.StepCursor | services/graphics-server/src/op.rs:82-92 | the loop's update of `x0`, `y0` and `err` is one `Step` |
| Bresenham.FinishIsPlot | services/graphics-server/src/op.rs:68-93 | finishing the loop from a cursor plots the rest of the walk |
| Bresenham.FinishStep | services/graphics-server/src/op.rs:68-93 | one pass of the loop leaves the buffer's pending result unchanged |
| Bresenham.DrawLine | services/graphics-server/src/op.rs:51-94 | the array after `line` is `LineFB`: unchanged when there is no stroke colour, otherwise the walk's plotted points put or toggled in order |
| Bresenham.LineWithoutStroke | services/graphics-server/src/op.rs:52-57 | without a stroke colour the buffer is unchanged |
| Bresenham.LineCanvasPixel | services/graphics-server/src/op.rs:68-93 | after a non-xor line, a canvas pixel has the stroke colour if it is on the walk and passes the clip, and is unchanged otherwise |
| Bresenham.LineClipDisjoint | services/graphics-server/src/op.rs:68-93 | a clip that shares no point with the endpoints' bounding box lets no point through, so `line` leaves the buffer, dirty flags included, unchanged |
| Bresenham.LineXorTwice | services/graphics-server/src/op.rs:51-94 | drawing the same xor line twice restores every pixel bit |
| Circles.CircleColor | services/graphics-server/src/op.rs:129-148 | an offset's class: the stroke on the ring `inner²-inner < len < r²+inner`, else the fill on the disc `len <= r²+1`, else none |
| Circles.CircleScan | services/graphics-server/src/op.rs:111-166 | the pixels the circle iterator still yields from its cursor, one offset per pass of the loop |
| Circles.CircleIterator.Next | services/graphics-server/src/op.rs:111-166 | `next` yields the first remaining pixel and the rest stay remaining, or yields None when nothing remains |
| Circles.DrawCircle | services/graphics-server/src/op.rs:169-182 | the array after `circle` is every pixel of the iterator started at `(-abs(r), -abs(r))`, put in order |
| Circles.CircleTransparent | services/graphics-server/src/op.rs:113-115 | a shape with neither colour yields nothing |
| Circles.CircleScanMember | services/graphics-server/src/op.rs:124-165 | a pixel is yielded exactly when its offset t is in the square at or after the cursor, t is not (r, r), the point passes the clip and t's class gives that pixel |
| Circles.CircleScanRowMajor | services/graphics-server/src/op.rs:151-158 | the pixels come in strictly increasing row-major order |
| Circles.CircleCornerDropped | services/graphics-server/src/op.rs:151-161 | the final offset (r, r) is never drawn, whatever its class |
| Circles.CircleRadiusZero | services/graphics-server/src/op.rs:151-161 | a radius-0 circle draws nothing |
| Circles.CircleInSquare | services/graphics-server/src/op.rs:151-161 | every pixel lies in the square of side 2r + 1 around the centre |
| Circles.CirclePixelAt | services/graphics-server/src/op.rs:117-165 | `circle` draws q in colour k exactly when q's offset is in the square, is not (r, r), q passes the clip and k is the offset's class. The class is the stroke on the ring `inner²-inner < len < r²+inner`, else the fill on the disc `len <= r²+1` |
| Circles.CircleItemAt | services/graphics-server/src/op.rs:125-149 | the item at an offset is pixel q in colour k exactly when q passes the clip and the class is k |
| Circles.CircleDrawable | services/graphics-server/src/op.rs:169-181 | a circle whose square lies in columns 0..32767 can be drawn |
| Circles.CircleInCanvas | services/graphics-server/src/op.rs:169-181 | a circle whose square is on the canvas has all its pixels there |
| Circles.CircleRowMajor | services/graphics-server/src/op.rs:169-181 | `circle`'s pixels are in strictly increasing row-major order |
| Circles.CircleClipDisjoint | services/graphics-server/src/op.rs:124-165 | a clip that shares no point with the circle's square yields no pixel, so `circle` leaves the buffer, dirty flags included, unchanged |
| Circles.CircleCanvasPixel | services/graphics-server/src/op.rs:169-181 | after `circle` on the canvas, a canvas pixel shows its offset's class colour when it is drawn, and is unchanged otherwise |
| Rectangles.InBorder | services/graphics-server/src/op.rs:219-230 | whether a point is in one of the four stroke-width edge bands |
| Rectangles.BodyColor | services/graphics-server/src/op.rs:215-240 | a point's colour: the stroke in a band, else the fill |
| Rectangles.BodyScan | services/graphics-server/src/op.rs:198-254 | the pixels the rectangle iterator still yields from its cursor, skipping corner boxes when it has them |
| Rectangles.RectangleIterator.Next | services/graphics-server/src/op.rs:198-254 | `next` yields the first remaining pixel, or None when nothing remains |
| Rectangles.DrawRectangle | services/graphics-server/src/op.rs:257-269 | the array after `rectangle` is every pixel of the iterator started at `tl`, put in order |
| Rectangles.BodyScanAfter | services/graphics-server/src/op.rs:242-247 | every yielded pixel is at or after the cursor |
| Rectangles.BodyScanItem | services/graphics-server/src/op.rs:206-253 | every yielded pixel is its point's item |
| Rectangles.BodyScanRowMajor | services/graphics-server/src/op.rs:242-247 | the pixels come in strictly increasing row-major order |
| Rectangles.BodyScanMember | services/graphics-server/src/op.rs:206-253 | for tl.x <= br.x, a pixel is yielded exactly when its point is in the box's columns, on or above br.y, at or after the cursor, and its item is that pixel |
| Rectangles.BodyScanColumn | services/graphics-server/src/op.rs:242-247 | a box with tl.x > br.x draws only column tl.x, because the cursor wraps after every point |
| Rectangles.RectanglePixelAt | services/graphics-server/src/op.rs:211-240 | for tl.x <= br.x, `rectangle` draws q in colour k exactly when q is in the box and the clip and k is q's colour. The colour is the stroke in one of the four stroke-width edge bands, else the fill |
| Rectangles.NoBandWithoutWidth | services/graphics-server/src/op.rs:219-230 | with a stroke width <= 0, no point is in a band |
| Rectangles.RectangleNoStroke | services/graphics-server/src/op.rs:219-240 | with a stroke width <= 0, every pixel drawn is a fill pixel |
| Rectangles.RectangleInCanvas | services/graphics-server/src/op.rs:257-269 | a rectangle on the canvas has all its pixels there |
| Rectangles.RectangleCanvasPixel | services/graphics-server/src/op.rs:257-269 | after `rectangle` on the canvas, a canvas pixel in the box and the clip shows its colour, and every other pixel is unchanged |
| Rectangles.RectangleClipDisjoint | services/graphics-server/src/op.rs:209-253 | a clip that shares no point with the scanned box yields no pixel, so `rectangle` leaves the buffer, dirty flags included, unchanged. The scanned box is the rectangle, or column tl.x when tl.x > br.x |
| Rectangles.RectangleMarksRows | services/graphics-server/src/op.rs:257-269 | a filled, unclipped rectangle on the canvas sets the dirty flag of every line it covers |
| Quadrants.TopScan | services/graphics-server/src/op.rs:336-361 | the pixels a top quadrant still yields from its cursor |
| Quadrants.BottomScan | services/graphics-server/src/op.rs:363-387 | the pixels a bottom quadrant still yields from its cursor, up to the first None the `for` loop sees |
| Quadrants.FarRowEmpty | services/graphics-server/src/op.rs:313-333 | no offset at or below row `abs(r) + abs(stroke width) + 2` has a class: it is past both the ring and the disc |
| Quadrants.QuadrantStep | services/graphics-server/src/op.rs:308-388 | one pass of the loop either ends the scan, or continues from the advanced cursor after yielding the item, if any. While it goes on, the cursor and its successor stay on or above row 1 for the top tags, and on or above row abs(r) + abs(stroke width) + 2 (`BottomBound`) for the bottom ones. At and past that row no offset has a class (`FarRowEmpty`) |
| Quadrants.QuadrantIterator.AdvanceCursor | services/graphics-server/src/op.rs:336-379 | `p.x += 1`, then the tag's wrap: left quadrants wrap past 0 to -r, right ones past r to 0 |
| Quadrants.QuadrantIterator.Next | services/graphics-server/src/op.rs:295-389 | `next` yields None when nothing remains, or the first remaining pixel with the rest still remaining |
| Quadrants.DrawQuadrant | services/graphics-server/src/op.rs:392-411 | the array after `quadrant` is every pixel of the iterator started at the tag's offset, put in order. The offsets are TL (-r,-r), TR (0,-r), BL (-r,0), BR (0,0) |
| Quadrants.TopScanAfter | services/graphics-server/src/op.rs:336-361 | a top quadrant's pixels are at or after the cursor |
| Quadrants.BottomScanAfter | services/graphics-server/src/op.rs:363-387 | a bottom quadrant's pixels are at or after the cursor |
| Quadrants.TopScanRowMajor | services/graphics-server/src/op.rs:336-361 | a top quadrant yields in strictly increasing row-major order |
| Quadrants.BottomScanRowMajor | services/graphics-server/src/op.rs:363-387 | a bottom quadrant yields in strictly increasing row-major order |
| Quadrants.QuadrantRowMajor | services/graphics-server/src/op.rs:392-411 | `quadrant`'s pixels are in strictly increasing row-major order |
| Quadrants.TopScanMember | services/graphics-server/src/op.rs:336-361 | a top quadrant yields a pixel exactly when its offset is in the tag's columns, on or above row 1, at or after the cursor, not the dropped last offset (XMax, 1), and its item is the pixel |
| Quadrants.BottomScanMember | services/graphics-server/src/op.rs:363-387 | a bottom quadrant yields a pixel with offset row <= r exactly when the offset is in the tag's columns at or after the cursor and its item is the pixel. Its last offset (XMax, r) is kept |
| Quadrants.BottomScanItem | services/graphics-server/src/op.rs:308-387 | every pixel a bottom quadrant yields is the item of its own offset, whose column is in the tag's columns, on every row including the overrun |
| Quadrants.BelowRowEmpty | services/graphics-server/src/op.rs:313-333 | for r >= 0 and any stroke width, no offset below `LastRow(r)` has a class. That is row r for r >= 1 and row 1 for r = 0. Such an offset is past the disc, and past the ring, which is empty when the inner radius exceeds r |
| Quadrants.BottomNoOverrun | services/graphics-server/src/op.rs:363-387 | for r >= 0 and any stroke width, a bottom quadrant stays on rows <= `LastRow(r)`: in its box for r >= 1, and at most one row below it for r = 0 (`QuadrantOverrunExample`) |
| Quadrants.QuadrantPixelAt | services/graphics-server/src/op.rs:295-411 | `quadrant` draws q in colour k exactly when q's offset is in the tag's quarter, q passes the clip and k is the offset's circle class. The quarter is rows -r..1 without (XMax, 1) for the top tags (any r >= 0), and rows 0..r for the bottom ones, which need r >= 1 because radius 0 overruns (`QuadrantOverrunExample`) |
| Quadrants.QuadrantClipDisjoint | services/graphics-server/src/op.rs:308-387 | for r >= 0, a clip that shares no point with the quadrant's box yields no pixel, so `quadrant` leaves the buffer unchanged. The box is the tag's columns, rows -r..1 for the top tags and rows 0..`LastRow(r)` for the bottom ones |
| Quadrants.QuadrantOverrunExample | services/graphics-server/src/op.rs:375-387 | a fill-only bottom-right quadrant of radius 0 draws its centre and the point below it |
| RoundedRectangles.CornerBoxesApart | services/graphics-server/src/op.rs:511-526 | when the border is more than two radii wide and tall, the four corner boxes are squares of side radius + 1 inside the border, and no two share a point |
| RoundedRectangles.CornerCenter | services/graphics-server/src/op.rs:533-565 | each corner's quarter circle is centred radius in from both edges of the border, at the corner box's inner corner |
| RoundedRectangles.RoundedRectangleIterator.Next | services/graphics-server/src/op.rs:432-496 | `next` yields the first remaining body pixel, or None when nothing remains |
| RoundedRectangles.DrawRoundedRectangle | services/graphics-server/src/op.rs:499-566 | the array after `rounded_rectangle` is the body pass, then the TL, TR, BL and BR quadrants, put in that order |
| RoundedRectangles.RoundedBodyAvoidsCorners | services/graphics-server/src/op.rs:449-455 | the body pass never yields a point inside a corner box |
| RoundedRectangles.RoundedBodyPixelAt | services/graphics-server/src/op.rs:445-481 | for tl.x <= br.x, the body draws q in colour k exactly when q is in the border, in the clip and in no corner box, and k is q's rectangle colour |
| RoundedRectangles.CornerNearBox | services/graphics-server/src/op.rs:533-565 | for radius >= 0, each corner's quarter circle stays in its corner box, except that the top corners reach one row below theirs. The bottom corners need radius >= 1, because radius 0 overruns (`QuadrantOverrunExample`) |
| RoundedRectangles.TopLeftCornerBelowBox | services/graphics-server/src/op.rs:533-539 | a fill-only rounded rectangle of radius >= 1 draws a pixel one row below its top-left corner box |
| RoundedRectangles.CornerClipDisjoint | services/graphics-server/src/op.rs:533-565 | when the border is more than two radii wide and tall and the clip shares no point with it, no corner puts a pixel. A radius-0 bottom corner reaches one row past the border only after putting its centre, which the clip refuses |
| RoundedRectangles.RoundedClipDisjoint | services/graphics-server/src/op.rs:499-566 | when the border is more than two radii wide and tall, a clip that shares no point with the border lets nothing through, so `rounded_rectangle` leaves the buffer, dirty flags included, unchanged |
| RoundedRectangles.RoundedLargeRadiusLeak | services/graphics-server/src/op.rs:533-539 | without that size condition the corners escape the border: a fill-only border (0,0)-(2,2) of radius 5 puts (5,5), the top-left centre, through the clip (5,5)-(5,5), which shares no point with the border |

## Left out

- Integer widths: coordinates, radii and stroke widths are unbounded integers. The model has no i16 wrap or overflow: not in `radius * radius`, not in the cursor (`p.x += 1`) and not in Bresenham's `err`.
- Framebuffer.PutPixel and Framebuffer.XorPixel require 0 <= x <= 32767, so every driver carries a `Drawable` precondition on its output. A negative x becomes a huge `usize` through `x as usize`, which forces line 335. With Rust's overflow checks on (the debug build), the index sum `clip_x + 335 * 352` then overflows and panics. With them off (the release default), the sum wraps to bit address 117920 + x, so x = -16 sets or clears bit 16 of word 3684, line 334's dirty flag. Neither build's behaviour is modelled.
- Circles.DrawCircle: for a radius of `i16::MIN`, `circle.radius.abs()` panics with Rust's overflow checks on (the debug build). In the release build it wraps to `i16::MIN`, and the cursor starts at (-32768, -32768). The first `next` then returns None, so nothing is drawn. Neither build's behaviour is modelled; the model uses the mathematical absolute value.
- `Rectangle::intersects_point`, `Point` addition, `Rectangle::new` and `Circle::new_with_style` live in `crate::api`, which is not part of this model. Their behaviour is assumed as described above.
- The commented-out `log::info!` lines and the `Debug`/`Clone`/`Copy` derives have no effect and are not modelled.
- `services/cb-test-srv/src/lib.rs` (message passing, helper threads, a global callback) is not part of this model.
- Quadrants.QuadrantIterator.Next: each tag's arm in the source repeats the same end test. The model keeps the tag's row wrap in `AdvanceCursor` and tests the end once, split by top or bottom tag. The behaviour is the same.
- Quadrants.QuadrantIterator.Next: a bottom quadrant's `next` returns the last item even below the box, so the iterator is not fused. The model specifies the sequence the `for` loop sees, up to its first None. Calls after a None are not specified.
- Bresenham.DrawLine: the loop body is split into `PlotPoint` (the plot) and `StepCursor` (the error-term update). They run the same statements in the same order.
- Bresenham.LineNotSymmetric: the walk is not symmetric in its endpoints; swapping them can visit different points, as the code does.
- A radius-0 rounded rectangle is not claimed to equal a plain rectangle. Its quadrants emit only fill pixels, and its corner boxes are single points, so no such lemma is stated.
- Quadrants.QuadrantClipDisjoint: stated for radius >= 0 only. A negative radius, which `rounded_rectangle` can pass, puts the tag's first column right of its last, and the rows the scan reaches are not bounded by a lemma.
- RoundedRectangles.RoundedClipDisjoint: stated only for a border more than two radii wide and tall. With a larger radius the corner centres lie outside the border, so a clip disjoint from the border can still let corner pixels through (`RoundedLargeRadiusLeak`).
