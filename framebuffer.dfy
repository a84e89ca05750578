/** The packed monochrome framebuffer and the two pixel primitives that write
    it.  The buffer holds 536 lines of 11 32-bit words; pixel (x, y) is bit
    x % 32 of word y * 11 + x / 32, and bit 16 of each line's last word
    (column 336, just past the 336 visible columns) is the line's dirty flag.

    The specification functions work on the buffer as a sequence of words.
    Their meaning is stated through bit addresses: address a names bit a % 32
    of word a / 32, so a line spans the 352 addresses row * 352 .. row * 352 + 351. */
module Framebuffer {
  import opened Api

  const WordsPerLine: nat := 11
  const PxPerLine: nat := 336
  const Lines: nat := 536
  const FrameBufSize: nat := 5896
  const Width: int := 336
  const Height: int := 536

  /** Bits per line: 11 words of 32 bits. */
  const BitsPerLine: nat := 352
  /** The dirty flag, bit 16 of the last word of a line. */
  const DirtyFlag: bv32 := 0x1_0000
  const BufBits: nat := FrameBufSize * 32
  /** Position of the dirty flag within a line's last word. */
  const DirtyBit: bv5 := 16

  // ---------------------------------------------------------------- bits

  function BitIndex(a: nat): bv5 {
    (a % 32) as bv5
  }

  function Mask(k: bv5): bv32 {
    1 << k
  }

  function Bit(w: bv32, k: bv5): bool {
    (w >> k) & 1 == 1
  }

  /** The bit at address a of a framebuffer. */
  function BitAt(s: seq<bv32>, a: nat): bool
    requires a < |s| * 32
  {
    Bit(s[a / 32], BitIndex(a))
  }

  lemma BitIndexSame(a: nat, b: nat)
    ensures (BitIndex(a) == BitIndex(b)) == (a % 32 == b % 32)
  {
  }

  lemma BitOr(w: bv32, k: bv5, j: bv5)
    ensures Bit(w | Mask(k), j) == (j == k || Bit(w, j))
  {
  }

  lemma BitAndNot(w: bv32, k: bv5, j: bv5)
    ensures Bit(w & !Mask(k), j) == (j != k && Bit(w, j))
  {
  }

  lemma BitXor(w: bv32, k: bv5, j: bv5)
    ensures Bit(w ^ Mask(k), j) == (if j == k then !Bit(w, j) else Bit(w, j))
  {
  }

  lemma DirtyFlagIsBit16()
    ensures DirtyFlag == Mask(DirtyBit)
  {
  }

  // ---------------------------------------------------------------- addressing

  /** The line a pixel operation at (x, y) writes.  A y outside 0..535 is
      clamped to the last line (a negative i16 sign-extends to a huge usize);
      an x at or past column 336 forces line 335, whatever y is, and x itself
      is left unclamped. */
  function ClipRow(x: int, y: int): (row: nat)
    ensures row < Lines
  {
    var clipY := if y < 0 || y >= Lines then Lines - 1 else y;
    if x >= PxPerLine then PxPerLine - 1 else clipY
  }

  /** The bit address a pixel operation at (x, y) changes. */
  function PixelAddr(x: int, y: int): (a: nat)
    requires 0 <= x <= I16Max
    ensures a < BufBits
  {
    x + ClipRow(x, y) * BitsPerLine
  }

  /** The word holding line row's dirty flag. */
  function DirtyWord(row: nat): nat {
    row * WordsPerLine + (WordsPerLine - 1)
  }

  function DirtyAddr(row: nat): nat {
    row * BitsPerLine + PxPerLine
  }

  predicate IsDirtyAddr(a: nat) {
    a % BitsPerLine == PxPerLine
  }

  lemma DirtyAddrIsFlag(row: nat)
    requires row < Lines
    ensures DirtyAddr(row) < BufBits
    ensures DirtyAddr(row) / 32 == DirtyWord(row) && BitIndex(DirtyAddr(row)) == DirtyBit
    ensures IsDirtyAddr(DirtyAddr(row))
  {
  }

  /** The word and bit a pixel operation addresses: the source computes the
      word as (x + row * 11 * 32) / 32 and the bit as x % 32. */
  lemma {:induction false} PixelWordAndBit(x: int, y: int)
    requires 0 <= x <= I16Max
    ensures PixelAddr(x, y) / 32 == ClipRow(x, y) * WordsPerLine + x / 32
    ensures BitIndex(PixelAddr(x, y)) == BitIndex(x)
  {
    var row := ClipRow(x, y);
    assert PixelAddr(x, y) == (row * WordsPerLine + x / 32) * 32 + x % 32;
  }

  /** Within the visible columns a pixel bit is never a dirty flag: x / 32 == 10
      forces x % 32 <= 15. */
  lemma {:induction false} VisiblePixelIsNotDirty(x: int, y: int)
    requires 0 <= x < PxPerLine
    ensures x / 32 < WordsPerLine
    ensures x / 32 == WordsPerLine - 1 ==> x % 32 <= 15
    ensures !IsDirtyAddr(PixelAddr(x, y))
    ensures PixelAddr(x, y) / BitsPerLine == ClipRow(x, y)
  {
    var row := ClipRow(x, y);
    assert PixelAddr(x, y) == row * BitsPerLine + x;
  }

  /** Distinct visible pixels occupy distinct bits. */
  lemma {:induction false} VisiblePixelsDistinct(x1: int, y1: int, x2: int, y2: int)
    requires 0 <= x1 < Width && 0 <= y1 < Height && 0 <= x2 < Width && 0 <= y2 < Height
    ensures PixelAddr(x1, y1) == PixelAddr(x2, y2) <==> x1 == x2 && y1 == y2
  {
    VisiblePixelIsNotDirty(x1, y1);
    VisiblePixelIsNotDirty(x2, y2);
    assert PixelAddr(x1, y1) % BitsPerLine == x1;
    assert PixelAddr(x2, y2) % BitsPerLine == x2;
  }

  // ---------------------------------------------------------------- the primitives

  /** A word with bit k set (Light) or cleared (Dark). */
  function PaintWord(v: bv32, k: bv5, color: PixelColor): bv32 {
    if color == Light then v | Mask(k) else v & !Mask(k)
  }

  /** A word with bit k flipped. */
  function ToggleWord(v: bv32, k: bv5): bv32 {
    v ^ Mask(k)
  }

  function MarkDirty(v: bv32): bv32 {
    v | DirtyFlag
  }

  /** The buffer after `put_pixel(fb, x, y, color)`. */
  function PutPixelFB(s: seq<bv32>, x: int, y: int, color: PixelColor): (r: seq<bv32>)
    requires |s| == FrameBufSize && 0 <= x <= I16Max
    ensures |r| == FrameBufSize
  {
    var w := PixelAddr(x, y) / 32;
    var s1 := s[w := PaintWord(s[w], BitIndex(x), color)];
    var d := DirtyWord(ClipRow(x, y));
    s1[d := MarkDirty(s1[d])]
  }

  /** The buffer after `xor_pixel(fb, x, y)`. */
  function XorPixelFB(s: seq<bv32>, x: int, y: int): (r: seq<bv32>)
    requires |s| == FrameBufSize && 0 <= x <= I16Max
    ensures |r| == FrameBufSize
  {
    var w := PixelAddr(x, y) / 32;
    var s1 := s[w := ToggleWord(s[w], BitIndex(x))];
    var d := DirtyWord(ClipRow(x, y));
    s1[d := MarkDirty(s1[d])]
  }

  /** Sets (Light) or clears (Dark) one pixel and marks its line dirty.  The
      source takes an i16 x; a negative x would overflow the index sum, so the
      caller must not pass one. */
  method PutPixel(fb: array<bv32>, x: int, y: int, color: PixelColor)
    requires fb.Length == FrameBufSize
    requires 0 <= x <= I16Max
    modifies fb
    ensures fb[..] == PutPixelFB(old(fb[..]), x, y, color)
  {
    var clipY: int := y;
    if clipY < 0 || clipY >= Lines {
      clipY := Lines - 1;
    }
    var clipX: int := x;
    if clipX >= PxPerLine {
      clipY := PxPerLine - 1;
    }
    assert clipY == ClipRow(x, y);
    var w := (clipX + clipY * WordsPerLine * 32) / 32;
    assert w == PixelAddr(x, y) / 32;
    fb[w] := PaintWord(fb[w], BitIndex(clipX), color);
    var d := clipY * WordsPerLine + (WordsPerLine - 1);
    fb[d] := MarkDirty(fb[d]);
  }

  /** Toggles one pixel and marks its line dirty, with the same clamping. */
  method XorPixel(fb: array<bv32>, x: int, y: int)
    requires fb.Length == FrameBufSize
    requires 0 <= x <= I16Max
    modifies fb
    ensures fb[..] == XorPixelFB(old(fb[..]), x, y)
  {
    var clipY: int := y;
    if clipY < 0 || clipY >= Lines {
      clipY := Lines - 1;
    }
    var clipX: int := x;
    if clipX >= PxPerLine {
      clipY := PxPerLine - 1;
    }
    assert clipY == ClipRow(x, y);
    var w := (clipX + clipY * WordsPerLine * 32) / 32;
    assert w == PixelAddr(x, y) / 32;
    fb[w] := ToggleWord(fb[w], BitIndex(clipX));
    var d := clipY * WordsPerLine + (WordsPerLine - 1);
    fb[d] := MarkDirty(fb[d]);
  }

  // ---------------------------------------------------------------- what they do, bit by bit

  lemma PaintWordBit(v: bv32, m: bv5, color: PixelColor, k: bv5)
    ensures Bit(PaintWord(v, m, color), k) == if k == m then color == Light else Bit(v, k)
  {
    if color == Light { BitOr(v, m, k); } else { BitAndNot(v, m, k); }
  }

  lemma ToggleWordBit(v: bv32, m: bv5, k: bv5)
    ensures Bit(ToggleWord(v, m), k) == if k == m then !Bit(v, k) else Bit(v, k)
  {
    BitXor(v, m, k);
  }

  lemma MarkDirtyBit(v: bv32, k: bv5)
    ensures Bit(MarkDirty(v), k) == (k == DirtyBit || Bit(v, k))
  {
    DirtyFlagIsBit16();
    assert MarkDirty(v) == v | Mask(DirtyBit);
    BitOr(v, DirtyBit, k);
  }

  /** Two addresses are equal exactly when their words and bits are. */
  lemma {:induction false} AddrEq(a: nat, b: nat)
    ensures a == b <==> a / 32 == b / 32 && BitIndex(a) == BitIndex(b)
  {
    BitIndexSame(a, b);
    assert a == (a / 32) * 32 + a % 32;
    assert b == (b / 32) * 32 + b % 32;
  }

  /** The words put_pixel leaves: the pixel word painted, then the dirty word marked. */
  lemma PutPixelWord(s: seq<bv32>, x: int, y: int, color: PixelColor, i: int)
    requires |s| == FrameBufSize && 0 <= x <= I16Max && 0 <= i < FrameBufSize
    ensures var v := if i == PixelAddr(x, y) / 32 then PaintWord(s[i], BitIndex(x), color) else s[i];
      PutPixelFB(s, x, y, color)[i] == if i == DirtyWord(ClipRow(x, y)) then MarkDirty(v) else v
  {
  }

  lemma XorPixelWord(s: seq<bv32>, x: int, y: int, i: int)
    requires |s| == FrameBufSize && 0 <= x <= I16Max && 0 <= i < FrameBufSize
    ensures var v := if i == PixelAddr(x, y) / 32 then ToggleWord(s[i], BitIndex(x)) else s[i];
      XorPixelFB(s, x, y)[i] == if i == DirtyWord(ClipRow(x, y)) then MarkDirty(v) else v
  {
  }

  /** Which address a bit is: the pixel bit, the written line's dirty flag. */
  lemma {:induction false} WhichAddr(x: int, y: int, a: nat)
    requires 0 <= x <= I16Max && a < BufBits
    ensures a == PixelAddr(x, y) <==> a / 32 == PixelAddr(x, y) / 32 && BitIndex(a) == BitIndex(x)
    ensures a == DirtyAddr(ClipRow(x, y)) <==> a / 32 == DirtyWord(ClipRow(x, y)) && BitIndex(a) == DirtyBit
  {
    PixelWordAndBit(x, y);
    DirtyAddrIsFlag(ClipRow(x, y));
    AddrEq(a, PixelAddr(x, y));
    AddrEq(a, DirtyAddr(ClipRow(x, y)));
  }

  /** put_pixel changes exactly two bits: the addressed pixel bit becomes
      Light/Dark and the written line's dirty flag becomes set. */
  lemma {:induction false} PutPixelBits(s: seq<bv32>, x: int, y: int, color: PixelColor, a: nat)
    requires |s| == FrameBufSize && 0 <= x <= I16Max && a < BufBits
    ensures BitAt(PutPixelFB(s, x, y, color), a) ==
      (a == DirtyAddr(ClipRow(x, y)) || if a == PixelAddr(x, y) then color == Light else BitAt(s, a))
  {
    var i, k := a / 32, BitIndex(a);
    var w, d := PixelAddr(x, y) / 32, DirtyWord(ClipRow(x, y));
    WhichAddr(x, y, a);
    PutPixelWord(s, x, y, color, i);
    var v := if i == w then PaintWord(s[i], BitIndex(x), color) else s[i];
    if i == w { PaintWordBit(s[i], BitIndex(x), color, k); }
    if i == d { MarkDirtyBit(v, k); }
  }

  /** xor_pixel changes exactly two bits: the addressed pixel bit flips and
      the written line's dirty flag becomes set. */
  lemma {:induction false} XorPixelBits(s: seq<bv32>, x: int, y: int, a: nat)
    requires |s| == FrameBufSize && 0 <= x <= I16Max && a < BufBits
    ensures BitAt(XorPixelFB(s, x, y), a) ==
      (a == DirtyAddr(ClipRow(x, y)) || if a == PixelAddr(x, y) then !BitAt(s, a) else BitAt(s, a))
  {
    var i, k := a / 32, BitIndex(a);
    var w, d := PixelAddr(x, y) / 32, DirtyWord(ClipRow(x, y));
    WhichAddr(x, y, a);
    XorPixelWord(s, x, y, i);
    var v := if i == w then ToggleWord(s[i], BitIndex(x)) else s[i];
    if i == w { ToggleWordBit(s[i], BitIndex(x), k); }
    if i == d { MarkDirtyBit(v, k); }
  }

  /** For a visible column, put_pixel sets or clears bit x % 32 of word
      row * 11 + x / 32, sets bit 16 of word row * 11 + 10, and changes no other
      bit of any word; the row is y, or 535 when y is off the buffer. */
  lemma {:induction false} PutPixelInRange(s: seq<bv32>, x: int, y: int, color: PixelColor)
    requires |s| == FrameBufSize && 0 <= x < PxPerLine
    ensures ClipRow(x, y) == if 0 <= y < Lines then y else Lines - 1
    ensures var row := ClipRow(x, y);
      var r := PutPixelFB(s, x, y, color);
      forall i: int, k: bv5 | 0 <= i < FrameBufSize ::
        Bit(r[i], k) ==
          if i == row * WordsPerLine + x / 32 && k == BitIndex(x) then color == Light
          else if i == DirtyWord(row) && k == DirtyBit then true
          else Bit(s[i], k)
  {
    var row := ClipRow(x, y);
    forall i: int, k: bv5 | 0 <= i < FrameBufSize {
      PutPixelWordBit(s, x, y, color, i, k);
    }
  }

  lemma PutPixelWordBit(s: seq<bv32>, x: int, y: int, color: PixelColor, i: int, k: bv5)
    requires |s| == FrameBufSize && 0 <= x < PxPerLine && 0 <= i < FrameBufSize
    ensures var row := ClipRow(x, y);
      Bit(PutPixelFB(s, x, y, color)[i], k) ==
        if i == row * WordsPerLine + x / 32 && k == BitIndex(x) then color == Light
        else if i == DirtyWord(row) && k == DirtyBit then true
        else Bit(s[i], k)
  {
    var row := ClipRow(x, y);
    var a: nat := i * 32 + k as int;
    SplitAddr(i, k);
    PutPixelBits(s, x, y, color, a);
    WhichAddr(x, y, a);
    PixelWordAndBit(x, y);
    VisiblePixelIsNotDirty(x, y);
    DirtyAddrIsFlag(row);
    assert PixelAddr(x, y) != DirtyAddr(row);
    var r := PutPixelFB(s, x, y, color);
    assert BitAt(r, a) == Bit(r[i], k) && BitAt(s, a) == Bit(s[i], k);
    assert a == PixelAddr(x, y) <==> i == row * WordsPerLine + x / 32 && k == BitIndex(x);
    assert a == DirtyAddr(row) <==> i == DirtyWord(row) && k == DirtyBit;
  }

  /** Word i, bit k is bit address i * 32 + k. */
  lemma SplitAddr(i: int, k: bv5)
    requires 0 <= i
    ensures (i * 32 + k as int) / 32 == i && BitIndex(i * 32 + k as int) == k
  {
  }

  lemma PaintTwice(v: bv32, k: bv5, color: PixelColor)
    ensures PaintWord(PaintWord(v, k, color), k, color) == PaintWord(v, k, color)
  {
    if color == Light { SetOnce(v, k, color); } else { ClearOnce(v, k, color); }
  }

  lemma MarkTwice(v: bv32)
    ensures MarkDirty(MarkDirty(v)) == MarkDirty(v)
  {
  }

  lemma PaintMarkTwice(v: bv32, k: bv5, color: PixelColor)
    ensures MarkDirty(PaintWord(MarkDirty(PaintWord(v, k, color)), k, color)) == MarkDirty(PaintWord(v, k, color))
  {
    if color == Light { SetOnce(v, k, color); } else { ClearOnce(v, k, color); }
  }

  /** Setting a bit again, with or without the dirty flag in between, changes nothing. */
  lemma SetOnce(v: bv32, k: bv5, color: PixelColor)
    requires color == Light
    ensures PaintWord(PaintWord(v, k, color), k, color) == PaintWord(v, k, color)
    ensures MarkDirty(PaintWord(MarkDirty(PaintWord(v, k, color)), k, color)) == MarkDirty(PaintWord(v, k, color))
  {
  }

  /** Clearing a bit again, with or without the dirty flag in between, changes nothing. */
  lemma ClearOnce(v: bv32, k: bv5, color: PixelColor)
    requires color == Dark
    ensures PaintWord(PaintWord(v, k, color), k, color) == PaintWord(v, k, color)
    ensures MarkDirty(PaintWord(MarkDirty(PaintWord(v, k, color)), k, color)) == MarkDirty(PaintWord(v, k, color))
  {
  }

  lemma ToggleTwice(v: bv32, k: bv5)
    ensures ToggleWord(ToggleWord(v, k), k) == v
  {
  }

  lemma ToggleMarkTwice(v: bv32, k: bv5)
    ensures MarkDirty(ToggleWord(MarkDirty(ToggleWord(v, k)), k)) == MarkDirty(v)
  {
  }

  /** Drawing the same pixel twice in the same colour is drawing it once. */
  lemma {:induction false} PutPixelIdempotent(s: seq<bv32>, x: int, y: int, color: PixelColor)
    requires |s| == FrameBufSize && 0 <= x <= I16Max
    ensures PutPixelFB(PutPixelFB(s, x, y, color), x, y, color) == PutPixelFB(s, x, y, color)
  {
    var w, d, k := PixelAddr(x, y) / 32, DirtyWord(ClipRow(x, y)), BitIndex(x);
    var once := PutPixelFB(s, x, y, color);
    var twice := PutPixelFB(once, x, y, color);
    forall i | 0 <= i < FrameBufSize
      ensures twice[i] == once[i]
    {
      PutPixelWord(s, x, y, color, i);
      PutPixelWord(once, x, y, color, i);
      if i == w && i == d {
        PaintMarkTwice(s[i], k, color);
      } else if i == w {
        PaintTwice(s[i], k, color);
      } else if i == d {
        MarkTwice(s[i]);
      }
    }
    assert twice == once;
  }

  /** Toggling the same pixel twice restores every bit except that the
      written line's dirty flag is left set. */
  lemma {:induction false} XorPixelTwice(s: seq<bv32>, x: int, y: int)
    requires |s| == FrameBufSize && 0 <= x <= I16Max
    ensures var d := DirtyWord(ClipRow(x, y));
      XorPixelFB(XorPixelFB(s, x, y), x, y) == s[d := MarkDirty(s[d])]
  {
    var w, d, k := PixelAddr(x, y) / 32, DirtyWord(ClipRow(x, y)), BitIndex(x);
    var once := XorPixelFB(s, x, y);
    var twice := XorPixelFB(once, x, y);
    var marked := s[d := MarkDirty(s[d])];
    forall i | 0 <= i < FrameBufSize
      ensures twice[i] == marked[i]
    {
      XorPixelWord(s, x, y, i);
      XorPixelWord(once, x, y, i);
      if i == w && i == d {
        ToggleMarkTwice(s[i], k);
      } else if i == w {
        ToggleTwice(s[i], k);
      } else if i == d {
        MarkTwice(s[i]);
      }
    }
    assert twice == marked;
  }

  // ---------------------------------------------------------------- clamping

  /** Any y off the buffer, negative ones included, writes the last line. */
  lemma RowClamp(s: seq<bv32>, x: int, y: int, color: PixelColor)
    requires |s| == FrameBufSize && 0 <= x < PxPerLine
    requires y < 0 || y >= Lines
    ensures PutPixelFB(s, x, y, color) == PutPixelFB(s, x, Lines - 1, color)
    ensures XorPixelFB(s, x, y) == XorPixelFB(s, x, Lines - 1)
  {
    assert ClipRow(x, y) == ClipRow(x, Lines - 1);
    assert PixelAddr(x, y) == PixelAddr(x, Lines - 1);
  }

  /** An x at or past column 336 writes line 335 whatever y is, at word
      335 * 11 + x / 32: x is not clamped, so the bit can land in a later line. */
  lemma {:induction false} ColumnOverflowForcesRow(s: seq<bv32>, x: int, y: int, color: PixelColor)
    requires |s| == FrameBufSize && PxPerLine <= x <= I16Max
    ensures ClipRow(x, y) == PxPerLine - 1
    ensures PixelAddr(x, y) / 32 == (PxPerLine - 1) * WordsPerLine + x / 32
    ensures PutPixelFB(s, x, y, color) == PutPixelFB(s, x, PxPerLine - 1, color)
    ensures XorPixelFB(s, x, y) == XorPixelFB(s, x, PxPerLine - 1)
  {
    PixelWordAndBit(x, y);
    assert ClipRow(x, y) == ClipRow(x, PxPerLine - 1);
    assert PixelAddr(x, y) == PixelAddr(x, PxPerLine - 1);
  }

  /** The unclamped column can erase another line's dirty flag: for a line
      row from 336 on, a Dark pixel at x = (row - 335) * 352 + 336 (688 for line
      336) clears that line's flag, while the flag it sets is line 335's. */
  lemma {:induction false} ColumnOverflowClearsDirtyFlag(s: seq<bv32>, x: int, y: int, row: nat)
    requires |s| == FrameBufSize && PxPerLine <= row && x == (row - 335) * 352 + 336 <= I16Max
    ensures ClipRow(x, y) == PxPerLine - 1
    ensures !BitAt(PutPixelFB(s, x, y, Dark), DirtyAddr(row))
  {
    assert PixelAddr(x, y) == DirtyAddr(row);
    PutPixelBits(s, x, y, Dark, DirtyAddr(row));
  }

  // ---------------------------------------------------------------- drawing a sequence of pixels

  /** Pixels put_pixel can take: the column is a non-negative i16. */
  predicate Drawable(items: seq<Pixel>) {
    forall i :: 0 <= i < |items| ==> 0 <= items[i].p.x <= I16Max
  }

  /** Pixels in the visible columns, whose bits are never dirty flags. */
  predicate InColumns(items: seq<Pixel>) {
    forall i :: 0 <= i < |items| ==> 0 <= items[i].p.x < PxPerLine
  }

  /** The buffer after put_pixel on every item in order. */
  function PaintAll(s: seq<bv32>, items: seq<Pixel>): (r: seq<bv32>)
    requires |s| == FrameBufSize && Drawable(items)
    ensures |r| == FrameBufSize
    decreases |items|
  {
    if items == [] then s
    else
      var last := items[|items| - 1];
      PutPixelFB(PaintAll(s, items[..|items| - 1]), last.p.x, last.p.y, last.c)
  }

  /** The colour of the last item writing bit address a, if any. */
  function LastWrite(items: seq<Pixel>, a: nat): Option<PixelColor>
    requires Drawable(items)
    decreases |items|
  {
    if items == [] then None
    else
      var last := items[|items| - 1];
      if PixelAddr(last.p.x, last.p.y) == a then Some(last.c) else LastWrite(items[..|items| - 1], a)
  }

  /** Painting one more item is one more put_pixel. */
  lemma PaintAllSnoc(s: seq<bv32>, items: seq<Pixel>, px: Pixel)
    requires |s| == FrameBufSize && Drawable(items) && 0 <= px.p.x <= I16Max
    ensures Drawable(items + [px])
    ensures PaintAll(s, items + [px]) == PutPixelFB(PaintAll(s, items), px.p.x, px.p.y, px.c)
  {
    assert (items + [px])[..|items|] == items;
  }

  /** Both parts of a drawable concatenation are drawable. */
  lemma DrawableParts(a: seq<Pixel>, b: seq<Pixel>)
    requires Drawable(a + b)
    ensures Drawable(a) && Drawable(b)
  {
    forall i | 0 <= i < |b|
      ensures 0 <= b[i].p.x <= I16Max
    {
      assert (a + b)[|a| + i] == b[i];
    }
    forall i | 0 <= i < |a|
      ensures 0 <= a[i].p.x <= I16Max
    {
      assert (a + b)[i] == a[i];
    }
  }

  /** Painting a concatenation paints the first part, then the second. */
  lemma {:induction false} PaintAllAppend(s: seq<bv32>, a: seq<Pixel>, b: seq<Pixel>)
    requires |s| == FrameBufSize && Drawable(a) && Drawable(b)
    ensures Drawable(a + b)
    ensures PaintAll(s, a + b) == PaintAll(PaintAll(s, a), b)
    decreases |b|
  {
    if b == [] {
      assert a + b == a;
    } else {
      var b' := b[..|b| - 1];
      var px := b[|b| - 1];
      assert a + b == (a + b') + [px];
      assert b == b' + [px];
      PaintAllAppend(s, a, b');
      PaintAllSnoc(s, a + b', px);
      PaintAllSnoc(PaintAll(s, a), b', px);
    }
  }

  /** Every bit other than a dirty flag ends as the last item writing it left
      it, or as it was when no item writes it. */
  lemma {:induction false} PaintAllPixelBit(s: seq<bv32>, items: seq<Pixel>, a: nat)
    requires |s| == FrameBufSize && Drawable(items) && a < BufBits && !IsDirtyAddr(a)
    ensures BitAt(PaintAll(s, items), a) ==
      match LastWrite(items, a)
      case None => BitAt(s, a)
      case Some(c) => c == Light
    decreases |items|
  {
    if items != [] {
      var rest := items[..|items| - 1];
      var last := items[|items| - 1];
      assert Drawable(rest);
      PaintAllPixelBit(s, rest, a);
      PutPixelBits(PaintAll(s, rest), last.p.x, last.p.y, last.c, a);
      DirtyAddrIsFlag(ClipRow(last.p.x, last.p.y));
    }
  }

  /** With every item in the visible columns, a line's dirty flag ends set
      exactly when it was set or some item lies on that line. */
  lemma {:induction false} PaintAllDirtyBit(s: seq<bv32>, items: seq<Pixel>, row: nat)
    requires |s| == FrameBufSize && Drawable(items) && InColumns(items) && row < Lines
    ensures DirtyAddr(row) < BufBits
    ensures BitAt(PaintAll(s, items), DirtyAddr(row)) ==
      (BitAt(s, DirtyAddr(row)) || exists i :: 0 <= i < |items| && ClipRow(items[i].p.x, items[i].p.y) == row)
    decreases |items|
  {
    DirtyAddrIsFlag(row);
    if items != [] {
      var rest := items[..|items| - 1];
      var last := items[|items| - 1];
      assert Drawable(rest) && InColumns(rest);
      PaintAllDirtyBit(s, rest, row);
      DirtyBitStep(PaintAll(s, rest), last, row);
      WritesRowSnoc(rest, last, row);
      assert rest + [last] == items;
    }
  }

  /** One visible pixel sets line row's flag exactly when it is on that line,
      and otherwise leaves the flag alone. */
  lemma DirtyBitStep(s: seq<bv32>, px: Pixel, row: nat)
    requires |s| == FrameBufSize && 0 <= px.p.x < PxPerLine && row < Lines
    ensures DirtyAddr(row) < BufBits
    ensures BitAt(PutPixelFB(s, px.p.x, px.p.y, px.c), DirtyAddr(row)) ==
      (BitAt(s, DirtyAddr(row)) || ClipRow(px.p.x, px.p.y) == row)
  {
    DirtyAddrIsFlag(row);
    PutPixelBits(s, px.p.x, px.p.y, px.c, DirtyAddr(row));
    VisiblePixelIsNotDirty(px.p.x, px.p.y);
    DirtyAddrIsFlag(ClipRow(px.p.x, px.p.y));
    assert DirtyAddr(row) == DirtyAddr(ClipRow(px.p.x, px.p.y)) <==> ClipRow(px.p.x, px.p.y) == row;
  }

  /** Some pixel of items + [px] is on line row exactly when px is or one of items is. */
  lemma WritesRowSnoc(items: seq<Pixel>, px: Pixel, row: nat)
    ensures (exists i :: 0 <= i < |items + [px]| && ClipRow((items + [px])[i].p.x, (items + [px])[i].p.y) == row) <==>
      (ClipRow(px.p.x, px.p.y) == row || exists i :: 0 <= i < |items| && ClipRow(items[i].p.x, items[i].p.y) == row)
  {
    var all := items + [px];
    assert all[|items|] == px;
    if exists i :: 0 <= i < |all| && ClipRow(all[i].p.x, all[i].p.y) == row {
      var i :| 0 <= i < |all| && ClipRow(all[i].p.x, all[i].p.y) == row;
      if i < |items| {
        assert all[i] == items[i];
      }
    }
    if exists i :: 0 <= i < |items| && ClipRow(items[i].p.x, items[i].p.y) == row {
      var i :| 0 <= i < |items| && ClipRow(items[i].p.x, items[i].p.y) == row;
      assert all[i] == items[i];
    }
  }

  /** Pixels on the visible canvas. */
  predicate InCanvas(items: seq<Pixel>) {
    forall i :: 0 <= i < |items| ==> 0 <= items[i].p.x < Width && 0 <= items[i].p.y < Height
  }

  /** The colour of the last item at point q, if any. */
  function LastAt(items: seq<Pixel>, q: Point): Option<PixelColor>
    decreases |items|
  {
    if items == [] then None
    else if items[|items| - 1].p == q then Some(items[|items| - 1].c)
    else LastAt(items[..|items| - 1], q)
  }

  /** In row-major order no point repeats, so the last item at q is the only one there. */
  lemma {:induction false} LastAtRowMajor(items: seq<Pixel>, q: Point, c: PixelColor)
    requires RowMajor(items)
    ensures LastAt(items, q) == Some(c) <==> Pixel(q, c) in items
    decreases |items|
  {
    if items != [] {
      var rest := items[..|items| - 1];
      var last := items[|items| - 1];
      assert forall px :: px in items <==> px in rest || px == last;
      assert RowMajor(rest);
      LastAtRowMajor(rest, q, c);
      if last.p == q {
        forall px | px in rest
          ensures px.p != q
        {
          var i :| 0 <= i < |rest| && rest[i] == px;
          assert Before(items[i].p, items[|items| - 1].p);
        }
      }
    }
  }

  /** A driver's next pixel, and everything it has drawn so far, are drawable
      when all its pixels are. */
  lemma {:induction false} DrawableStep(done: seq<Pixel>, px: Pixel, rest: seq<Pixel>)
    requires Drawable(done + ([px] + rest))
    ensures 0 <= px.p.x <= I16Max && Drawable(done + [px])
    ensures (done + [px]) + rest == done + ([px] + rest)
  {
    assert (done + ([px] + rest))[|done|] == px;
    forall i | 0 <= i < |done|
      ensures 0 <= done[i].p.x <= I16Max
    {
      assert done[i] == (done + ([px] + rest))[i];
    }
  }

  /** With the items on the canvas and in row-major order, a canvas pixel ends
      Light or Dark when an item of that colour is drawn there, and is
      unchanged when none is. */
  lemma RowMajorCanvasPixel(s: seq<bv32>, items: seq<Pixel>, q: Point)
    requires |s| == FrameBufSize && Drawable(items) && InCanvas(items) && RowMajor(items)
    requires 0 <= q.x < Width && 0 <= q.y < Height
    ensures PixelAddr(q.x, q.y) < BufBits
    ensures BitAt(PaintAll(s, items), PixelAddr(q.x, q.y)) ==
      if Pixel(q, Light) in items then true
      else if Pixel(q, Dark) in items then false
      else BitAt(s, PixelAddr(q.x, q.y))
  {
    PaintAllCanvasPixel(s, items, q);
    LastAtRowMajor(items, q, Light);
    LastAtRowMajor(items, q, Dark);
  }

  /** On the canvas, writing a bit address and writing a point are the same. */
  lemma {:induction false} LastWriteCanvas(items: seq<Pixel>, q: Point)
    requires Drawable(items) && InCanvas(items) && 0 <= q.x < Width && 0 <= q.y < Height
    ensures LastWrite(items, PixelAddr(q.x, q.y)) == LastAt(items, q)
    decreases |items|
  {
    if items != [] {
      var rest := items[..|items| - 1];
      var last := items[|items| - 1];
      assert Drawable(rest) && InCanvas(rest);
      VisiblePixelsDistinct(last.p.x, last.p.y, q.x, q.y);
      LastWriteCanvas(rest, q);
    }
  }

  /** With every item on the canvas, a canvas pixel ends in the colour of the
      last item drawn there, or as it was when none is. */
  lemma PaintAllCanvasPixel(s: seq<bv32>, items: seq<Pixel>, q: Point)
    requires |s| == FrameBufSize && Drawable(items) && InCanvas(items)
    requires 0 <= q.x < Width && 0 <= q.y < Height
    ensures PixelAddr(q.x, q.y) < BufBits
    ensures BitAt(PaintAll(s, items), PixelAddr(q.x, q.y)) ==
      match LastAt(items, q)
      case None => BitAt(s, PixelAddr(q.x, q.y))
      case Some(c) => c == Light
  {
    VisiblePixelIsNotDirty(q.x, q.y);
    PaintAllPixelBit(s, items, PixelAddr(q.x, q.y));
    LastWriteCanvas(items, q);
  }

  /** The buffer after xor_pixel on every item's point in order; the colours
      play no part. */
  function XorAll(s: seq<bv32>, items: seq<Pixel>): (r: seq<bv32>)
    requires |s| == FrameBufSize && Drawable(items)
    ensures |r| == FrameBufSize
    decreases |items|
  {
    if items == [] then s
    else
      var last := items[|items| - 1];
      XorPixelFB(XorAll(s, items[..|items| - 1]), last.p.x, last.p.y)
  }

  lemma XorAllSnoc(s: seq<bv32>, items: seq<Pixel>, px: Pixel)
    requires |s| == FrameBufSize && Drawable(items) && 0 <= px.p.x <= I16Max
    ensures Drawable(items + [px])
    ensures XorAll(s, items + [px]) == XorPixelFB(XorAll(s, items), px.p.x, px.p.y)
  {
    assert (items + [px])[..|items|] == items;
  }

  /** How many items write bit address a. */
  function CountAt(items: seq<Pixel>, a: nat): nat
    requires Drawable(items)
    decreases |items|
  {
    if items == [] then 0
    else
      var last := items[|items| - 1];
      CountAt(items[..|items| - 1], a) + if PixelAddr(last.p.x, last.p.y) == a then 1 else 0
  }

  /** The last item of an xor pass flips its own bit and no other bit that
      is not a dirty flag. */
  lemma XorAllLast(s: seq<bv32>, items: seq<Pixel>, a: nat)
    requires |s| == FrameBufSize && Drawable(items) && items != [] && a < BufBits && !IsDirtyAddr(a)
    ensures Drawable(items[..|items| - 1])
    ensures var last := items[|items| - 1];
      BitAt(XorAll(s, items), a) ==
        (BitAt(XorAll(s, items[..|items| - 1]), a) != (PixelAddr(last.p.x, last.p.y) == a))
  {
    var last := items[|items| - 1];
    assert Drawable(items[..|items| - 1]);
    XorPixelBits(XorAll(s, items[..|items| - 1]), last.p.x, last.p.y, a);
    DirtyAddrIsFlag(ClipRow(last.p.x, last.p.y));
  }

  predicate Odd(n: nat) {
    n % 2 == 1
  }

  lemma OddSucc(n: nat)
    ensures Odd(n + 1) == !Odd(n)
  {
  }

  lemma EvenTwice(n: nat)
    ensures !Odd(n + n)
  {
  }

  /** Every bit other than a dirty flag ends flipped exactly when an odd
      number of items write it. */
  lemma {:induction false} XorAllPixelBit(s: seq<bv32>, items: seq<Pixel>, a: nat)
    requires |s| == FrameBufSize && Drawable(items) && a < BufBits && !IsDirtyAddr(a)
    ensures BitAt(XorAll(s, items), a) == (BitAt(s, a) != Odd(CountAt(items, a)))
    decreases |items|
  {
    if items != [] {
      var rest := items[..|items| - 1];
      var last := items[|items| - 1];
      XorAllLast(s, items, a);
      XorAllPixelBit(s, rest, a);
      var n := CountAt(rest, a);
      if PixelAddr(last.p.x, last.p.y) == a {
        assert CountAt(items, a) == n + 1;
        OddSucc(n);
      } else {
        assert CountAt(items, a) == n;
      }
    }
  }

  lemma {:induction false} CountAtAppend(a: seq<Pixel>, b: seq<Pixel>, addr: nat)
    requires Drawable(a) && Drawable(b)
    ensures Drawable(a + b)
    ensures CountAt(a + b, addr) == CountAt(a, addr) + CountAt(b, addr)
    decreases |b|
  {
    if b == [] {
      assert a + b == a;
    } else {
      var b' := b[..|b| - 1];
      assert (a + b)[..|a + b| - 1] == a + b';
      assert Drawable(b');
      CountAtAppend(a, b', addr);
    }
  }

  lemma {:induction false} XorAllAppend(s: seq<bv32>, a: seq<Pixel>, b: seq<Pixel>)
    requires |s| == FrameBufSize && Drawable(a) && Drawable(b)
    ensures Drawable(a + b)
    ensures XorAll(s, a + b) == XorAll(XorAll(s, a), b)
    decreases |b|
  {
    if b == [] {
      assert a + b == a;
    } else {
      var b' := b[..|b| - 1];
      var px := b[|b| - 1];
      assert a + b == (a + b') + [px];
      assert b == b' + [px];
      XorAllAppend(s, a, b');
      XorAllSnoc(s, a + b', px);
      XorAllSnoc(XorAll(s, a), b', px);
    }
  }

  /** Xor-drawing the same sequence twice restores every bit other than the
      dirty flags. */
  lemma XorAllTwice(s: seq<bv32>, items: seq<Pixel>, a: nat)
    requires |s| == FrameBufSize && Drawable(items) && a < BufBits && !IsDirtyAddr(a)
    ensures BitAt(XorAll(XorAll(s, items), items), a) == BitAt(s, a)
  {
    var both := items + items;
    var n := CountAt(items, a);
    assert !Odd(CountAt(both, a)) by {
      CountAtAppend(items, items, a);
      EvenTwice(n);
    }
    assert XorAll(XorAll(s, items), items) == XorAll(s, both) by {
      XorAllAppend(s, items, items);
    }
    XorAllPixelBit(s, both, a);
  }
}
