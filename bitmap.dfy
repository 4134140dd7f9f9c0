/**
 * Monospace bitmap fonts: glyph bitmaps packed eight pixels to a byte,
 * most significant bit first, each row starting on a byte boundary; the
 * font's rune table; and the string drawing and measuring that walk it.
 */
module Bitmap {
  import opened Common
  import opened Regions
  import opened Controller
  import opened Framebuffer
  import opened Arith

  /** One character's bitmap and metrics. */
  datatype GlyphData = GlyphData(width: int, height: int, advanceX: int, bearingX: int, bearingY: int, data: seq<byte>)

  // ---- glyph bitmaps ----

  /** Bytes per glyph row: rows are padded to byte boundaries. */
  function BytesPerRow(width: int): int {
    (width + 7) / 8
  }

  /** The byte where row gy starts, as the decoder's byte counter reaches it row after row. */
  function RowStart(bpr: int, gy: int): (r: int)
    ensures bpr >= 0 ==> r >= 0
    decreases gy
  {
    if gy <= 0 then 0 else RowStart(bpr, gy - 1) + bpr
  }

  lemma {:induction false} RowStartClosed(bpr: int, gy: int)
    requires gy >= 0
    ensures RowStart(bpr, gy) == gy * bpr
    decreases gy
  {
    if gy > 0 {
      RowStartClosed(bpr, gy - 1);
    }
  }

  lemma {:induction false} RowStartMonotone(bpr: int, a: int, b: int)
    requires bpr >= 0 && 0 <= a <= b
    ensures RowStart(bpr, a) <= RowStart(bpr, b)
    decreases b - a
  {
    if a < b {
      RowStartMonotone(bpr, a, b - 1);
    }
  }

  /** The byte holding cell (gx, gy) of the glyph. */
  function ByteIndex(g: GlyphData, gx: int, gy: int): int {
    RowStart(BytesPerRow(g.width), gy) + gx / 8
  }

  /** Bit 7 - i of b: pixel i of a byte, the most significant bit first. */
  predicate BitSet(b: byte, i: int)
    requires 0 <= i < 8
  {
    b & ((1 as byte) << (7 - i)) != 0
  }

  /** Cell `cell` of the glyph lies inside Data, has its bit set and lands at non-negative screen coordinates. */
  predicate Lit(g: GlyphData, x: int, y: int, cell: Point) {
    && 0 <= cell.x
    && 0 <= ByteIndex(g, cell.x, cell.y) < |g.data|
    && BitSet(g.data[ByteIndex(g, cell.x, cell.y)], cell.x % 8)
    && x + cell.x + g.bearingX >= 0
    && y + cell.y + g.bearingY >= 0
  }

  /** Where cell `cell` of a glyph drawn at (x, y) lands. */
  function ScreenOf(g: GlyphData, x: int, y: int, cell: Point): Point {
    Point(x + cell.x + g.bearingX, y + cell.y + g.bearingY)
  }

  /** The screen points of the lit cells among `cells`, in order. */
  function Emit(g: GlyphData, x: int, y: int, cells: seq<Point>): seq<Point>
    decreases |cells|
  {
    if cells == [] then []
    else
      var last := cells[|cells| - 1];
      Emit(g, x, y, cells[..|cells| - 1]) + if Lit(g, x, y, last) then [ScreenOf(g, x, y, last)] else []
  }

  /** The pixels drawGlyph sets: none for an empty glyph, else the lit cells in row-major order. */
  function GlyphPixels(g: GlyphData, x: int, y: int): seq<Point> {
    if g.width <= 0 || g.height <= 0 || |g.data| == 0 then []
    else Emit(g, x, y, RowMajor(0, 0, g.width - 1, g.height - 1))
  }

  lemma {:induction false} EmitAppend(g: GlyphData, x: int, y: int, a: seq<Point>, b: seq<Point>)
    ensures Emit(g, x, y, a + b) == Emit(g, x, y, a) + Emit(g, x, y, b)
    decreases |b|
  {
    if b != [] {
      var pre, last := b[..|b| - 1], b[|b| - 1];
      var tail := if Lit(g, x, y, last) then [ScreenOf(g, x, y, last)] else [];
      assert (a + b)[..|a + b| - 1] == a + pre;
      assert (a + b)[|a + b| - 1] == last;
      assert Emit(g, x, y, a + b) == Emit(g, x, y, a + pre) + tail;
      assert Emit(g, x, y, b) == Emit(g, x, y, pre) + tail;
      EmitAppend(g, x, y, a, pre);
      assert Emit(g, x, y, a) + Emit(g, x, y, pre) + tail == Emit(g, x, y, a) + (Emit(g, x, y, pre) + tail);
    } else {
      assert a + b == a;
    }
  }

  lemma {:induction false} EmitDark(g: GlyphData, x: int, y: int, cells: seq<Point>)
    requires forall c :: c in cells ==> !Lit(g, x, y, c)
    ensures Emit(g, x, y, cells) == []
    decreases |cells|
  {
    if cells != [] {
      EmitDark(g, x, y, cells[..|cells| - 1]);
    }
  }

  lemma {:induction false} EmitMembers(g: GlyphData, x: int, y: int, cells: seq<Point>, q: Point)
    ensures q in Emit(g, x, y, cells) <==> exists c :: c in cells && Lit(g, x, y, c) && q == ScreenOf(g, x, y, c)
    decreases |cells|
  {
    if cells != [] {
      var pre, last := cells[..|cells| - 1], cells[|cells| - 1];
      assert cells == pre + [last];
      EmitMembers(g, x, y, pre, q);
      if q in Emit(g, x, y, cells) && q !in Emit(g, x, y, pre) {
        assert Lit(g, x, y, last) && q == ScreenOf(g, x, y, last);
      }
    }
  }

  /** A cell is lit exactly when bit 7 - (gx mod 8) of Data[gy * ceil(W / 8) + gx / 8] is set and its screen point is not negative. */
  lemma LitMeans(g: GlyphData, x: int, y: int, gx: int, gy: int)
    requires 0 <= gx && 0 <= gy
    ensures Lit(g, x, y, Point(gx, gy))
        <==> && 0 <= gy * BytesPerRow(g.width) + gx / 8 < |g.data|
             && BitSet(g.data[gy * BytesPerRow(g.width) + gx / 8], gx % 8)
             && x + gx + g.bearingX >= 0 && y + gy + g.bearingY >= 0
  {
    RowStartClosed(BytesPerRow(g.width), gy);
  }

  /** The pixels of a non-empty glyph are the screen points of its lit cells. */
  lemma GlyphPixelsMembers(g: GlyphData, x: int, y: int, q: Point)
    requires g.width > 0 && g.height > 0 && |g.data| > 0
    ensures q in GlyphPixels(g, x, y)
        <==> exists gx, gy :: 0 <= gx < g.width && 0 <= gy < g.height && Lit(g, x, y, Point(gx, gy)) && q == ScreenOf(g, x, y, Point(gx, gy))
  {
    var scan := RowMajor(0, 0, g.width - 1, g.height - 1);
    assert GlyphPixels(g, x, y) == Emit(g, x, y, scan);
    RowMajorMembers(0, 0, g.width - 1, g.height - 1);
    EmitMembers(g, x, y, scan, q);
    if q in GlyphPixels(g, x, y) {
      var c :| c in scan && Lit(g, x, y, c) && q == ScreenOf(g, x, y, c);
      assert c == Point(c.x, c.y);
      assert 0 <= c.x < g.width && 0 <= c.y < g.height;
    }
    if exists gx, gy :: 0 <= gx < g.width && 0 <= gy < g.height && Lit(g, x, y, Point(gx, gy)) && q == ScreenOf(g, x, y, Point(gx, gy)) {
      var gx, gy :| 0 <= gx < g.width && 0 <= gy < g.height && Lit(g, x, y, Point(gx, gy)) && q == ScreenOf(g, x, y, Point(gx, gy));
      assert InRect(Point(gx, gy), 0, 0, g.width - 1, g.height - 1);
      assert Point(gx, gy) in scan;
    }
  }

  /** Once the byte counter passes the end of Data, no later cell of the scan is lit. */
  lemma GlyphRestDark(g: GlyphData, x: int, y: int, gx: int, gy: int)
    requires 0 <= gx < g.width && 0 <= gy < g.height && ByteIndex(g, gx, gy) >= |g.data|
    ensures Emit(g, x, y, RowMajor(0, 0, g.width - 1, g.height - 1)) == Emit(g, x, y, Rows(0, g.width - 1, 0, gy) + Span(0, gx, gy))
  {
    var w, h := g.width, g.height;
    ScanCut(w, h, gx, gy);
    RestDark(g, x, y, gx, gy);
    DarkTail(g, x, y, Rows(0, w - 1, 0, gy) + Span(0, gx, gy), Span(gx, w, gy) + Rows(0, w - 1, gy + 1, h));
  }

  /** The cells of the scan from (gx, gy) on are dark. */
  lemma RestDark(g: GlyphData, x: int, y: int, gx: int, gy: int)
    requires 0 <= gx < g.width && 0 <= gy < g.height && ByteIndex(g, gx, gy) >= |g.data|
    ensures forall c :: c in Span(gx, g.width, gy) + Rows(0, g.width - 1, gy + 1, g.height) ==> !Lit(g, x, y, c)
  {
    SpanMembers(gx, g.width, gy);
    RowsMembers(0, g.width - 1, gy + 1, g.height);
    forall c | c in Span(gx, g.width, gy) + Rows(0, g.width - 1, gy + 1, g.height)
      ensures !Lit(g, x, y, c)
    {
      LaterCellDark(g, x, y, gx, gy, c);
    }
  }

  /** Cells that are all dark add nothing after `done`. */
  lemma DarkTail(g: GlyphData, x: int, y: int, done: seq<Point>, rest: seq<Point>)
    requires forall c :: c in rest ==> !Lit(g, x, y, c)
    ensures Emit(g, x, y, done + rest) == Emit(g, x, y, done)
  {
    EmitDark(g, x, y, rest);
    EmitAppend(g, x, y, done, rest);
    assert Emit(g, x, y, done) + [] == Emit(g, x, y, done);
  }

  /** The row-major scan of a glyph cut just before cell (gx, gy). */
  lemma ScanCut(w: int, h: int, gx: int, gy: int)
    requires 0 <= gx < w && 0 <= gy < h
    ensures RowMajor(0, 0, w - 1, h - 1)
         == (Rows(0, w - 1, 0, gy) + Span(0, gx, gy)) + (Span(gx, w, gy) + Rows(0, w - 1, gy + 1, h))
  {
    RowsSplit(0, w - 1, 0, gy + 1, h);
    SpanSplit(0, gx, w, gy);
    RowsStep(0, w - 1, 0, gy);
    AppendAssoc(Rows(0, w - 1, 0, gy), Span(0, gx, gy), Span(gx, w, gy));
    AppendAssoc(Rows(0, w - 1, 0, gy) + Span(0, gx, gy), Span(gx, w, gy), Rows(0, w - 1, gy + 1, h));
    AppendAssoc(Rows(0, w - 1, 0, gy), Span(0, gx, gy), Span(gx, w, gy) + Rows(0, w - 1, gy + 1, h));
  }

  /** A cell at or after (gx, gy) in the scan has a byte index at least that of (gx, gy). */
  lemma LaterCellDark(g: GlyphData, x: int, y: int, gx: int, gy: int, c: Point)
    requires 0 <= gx < g.width && 0 <= gy && ByteIndex(g, gx, gy) >= |g.data|
    requires (c.y == gy && gx <= c.x) || (gy < c.y && 0 <= c.x)
    ensures !Lit(g, x, y, c)
  {
    var bpr := BytesPerRow(g.width);
    if c.y == gy {
      assert c.x / 8 >= gx / 8;
    } else {
      RowStartMonotone(bpr, gy + 1, c.y);
      assert gx / 8 < bpr;
    }
  }

  /** A row that ends on a partial byte still takes whole bytes. */
  lemma RowEnd(w: int, start: int)
    requires w > 0
    ensures start + w / 8 + (if w % 8 != 0 then 1 else 0) == start + BytesPerRow(w)
  {
  }

  /** drawGlyph's decoding loops, with the pixels they set collected in order. */
  method DecodeGlyph(g: GlyphData, x: int, y: int) returns (pts: seq<Point>)
    ensures pts == GlyphPixels(g, x, y)
  {
    if g.width <= 0 || g.height <= 0 || |g.data| == 0 {
      return [];
    }
    var byteIndex := 0;
    ghost var done: seq<Point> := [];
    pts := [];
    var glyphY := 0;
    while glyphY < g.height
      invariant 0 <= glyphY <= g.height && done == Rows(0, g.width - 1, 0, glyphY)
      invariant byteIndex == RowStart(BytesPerRow(g.width), glyphY)
      invariant pts == Emit(g, x, y, done)
    {
      var stopped;
      ghost var stopAt;
      pts, byteIndex, stopped, stopAt := DecodeRow(g, x, y, glyphY, byteIndex, done, pts);
      if stopped {
        StoppedScan(g, x, y, stopAt, glyphY, pts);
        return;
      }
      RowsStep(0, g.width - 1, 0, glyphY);
      done := done + Span(0, g.width, glyphY);
      glyphY := glyphY + 1;
    }
  }

  /** Stopping at cell (gx, gy) yields the glyph's pixels: the cells after it are dark. */
  lemma StoppedScan(g: GlyphData, x: int, y: int, gx: int, gy: int, pts: seq<Point>)
    requires g.width > 0 && g.height > 0 && |g.data| > 0
    requires 0 <= gx < g.width && 0 <= gy < g.height && ByteIndex(g, gx, gy) >= |g.data|
    requires pts == Emit(g, x, y, Rows(0, g.width - 1, 0, gy) + Span(0, gx, gy))
    ensures pts == GlyphPixels(g, x, y)
  {
    GlyphRestDark(g, x, y, gx, gy);
  }

  /** The decoder's byte and bit counters point at cell (gx, gy). */
  predicate AtCell(g: GlyphData, gx: int, gy: int, byteIndex: int, bitIndex: int) {
    byteIndex == ByteIndex(g, gx, gy) && bitIndex == gx % 8
  }

  /** The bit and byte counters after one more cell: the bit counter wraps at 8 and carries into the byte counter. */
  lemma CounterStep(g: GlyphData, gx: int, gy: int, byteIndex: int, bitIndex: int)
    requires 0 <= gx && AtCell(g, gx, gy, byteIndex, bitIndex)
    ensures 0 <= bitIndex < 8
    ensures bitIndex + 1 == 8 ==> AtCell(g, gx + 1, gy, byteIndex + 1, 0)
    ensures bitIndex + 1 != 8 ==> AtCell(g, gx + 1, gy, byteIndex, bitIndex + 1)
  {
  }

  /** One cell of drawGlyph's inner loop: test its bit and keep its screen point when that is set and not negative. */
  method DecodeCell(g: GlyphData, x: int, y: int, gx: int, gy: int, byteIndex: int, bitIndex: int, ghost done: seq<Point>, pts0: seq<Point>)
    returns (pts: seq<Point>)
    requires 0 <= gx && byteIndex == ByteIndex(g, gx, gy) && 0 <= byteIndex < |g.data| && bitIndex == gx % 8
    requires pts0 == Emit(g, x, y, done)
    ensures pts == Emit(g, x, y, done + [Point(gx, gy)])
  {
    var bitMask := (1 as byte) << (7 - bitIndex);
    var isSet := g.data[byteIndex] & bitMask != 0;
    assert isSet == BitSet(g.data[ByteIndex(g, gx, gy)], gx % 8);
    var screenX := x + gx + g.bearingX;
    var screenY := y + gy + g.bearingY;
    pts := pts0;
    if isSet && screenX >= 0 && screenY >= 0 {
      pts := pts + [Point(screenX, screenY)];
    }
    assert (done + [Point(gx, gy)])[..|done|] == done;
  }

  /**
   * The inner loop of drawGlyph for row gy: bit counter and byte counter
   * advance together, and the loop gives up once Data runs out.
   */
  method DecodeRow(g: GlyphData, x: int, y: int, gy: int, byteIndex0: int, ghost pre: seq<Point>, pts0: seq<Point>)
    returns (pts: seq<Point>, byteIndex: int, stopped: bool, ghost stopAt: int)
    requires g.width > 0 && 0 <= gy
    requires byteIndex0 == RowStart(BytesPerRow(g.width), gy) && pts0 == Emit(g, x, y, pre)
    ensures stopped ==> 0 <= stopAt < g.width && ByteIndex(g, stopAt, gy) >= |g.data| && pts == Emit(g, x, y, pre + Span(0, stopAt, gy))
    ensures !stopped ==> byteIndex == RowStart(BytesPerRow(g.width), gy + 1) && pts == Emit(g, x, y, pre + Span(0, g.width, gy))
  {
    pts, byteIndex, stopped, stopAt := pts0, byteIndex0, false, 0;
    ghost var done := pre;
    var bitIndex := 0;
    var glyphX := 0;
    assert pre + Span(0, 0, gy) == pre;
    while glyphX < g.width
      invariant 0 <= glyphX <= g.width && done == pre + Span(0, glyphX, gy)
      invariant AtCell(g, glyphX, gy, byteIndex, bitIndex)
      invariant pts == Emit(g, x, y, done)
    {
      if byteIndex >= |g.data| {
        return pts, byteIndex, true, glyphX;
      }
      pts := DecodeCell(g, x, y, glyphX, gy, byteIndex, bitIndex, done, pts);
      SpanStep(pre, 0, glyphX, gy);
      done := done + [Point(glyphX, gy)];
      CounterStep(g, glyphX, gy, byteIndex, bitIndex);
      bitIndex := bitIndex + 1;
      if bitIndex == 8 {
        bitIndex := 0;
        byteIndex := byteIndex + 1;
      }
      glyphX := glyphX + 1;
    }
    // move to the next row, aligned to a byte boundary
    assert AtCell(g, g.width, gy, byteIndex, bitIndex);
    if bitIndex != 0 {
      byteIndex := byteIndex + 1;
    }
    RowEnd(g.width, RowStart(BytesPerRow(g.width), gy));
  }

  // ---- fonts ----

  /** A glyph table read with Go's `ok` flag. */
  function Lookup(glyphs: map<char, GlyphData>, ch: char): (r: Result<GlyphData>)
    ensures r.Ok? <==> ch in glyphs
    ensures r.Ok? ==> r.value == glyphs[ch]
    ensures r.Err? ==> r.error == GlyphNotFound
  {
    if ch in glyphs then Ok(glyphs[ch]) else Err(GlyphNotFound)
  }

  /** Adding a glyph replaces that rune's entry and keeps every other. */
  lemma LookupAfterAdd(glyphs: map<char, GlyphData>, ch: char, data: GlyphData, other: char)
    ensures Lookup(glyphs[ch := data], other) == if other == ch then Ok(data) else Lookup(glyphs, other)
  {
  }

  /** The glyph DrawString draws for `ch`: its own, else the space glyph for a rune other than space, else none. */
  function ChosenGlyph(glyphs: map<char, GlyphData>, ch: char): Option<GlyphData> {
    if ch in glyphs then Some(glyphs[ch])
    else if ch == ' ' then None
    else if ' ' in glyphs then Some(glyphs[' '])
    else None
  }

  function CharPixels(glyphs: map<char, GlyphData>, x: int, y: int, ch: char): seq<Point> {
    match ChosenGlyph(glyphs, ch)
    case None => []
    case Some(g) => GlyphPixels(g, x, y)
  }

  /** The pixels DrawString sets: the first rune drawn at x, the rest one advance further on each. */
  function StringPixels(glyphs: map<char, GlyphData>, advance: int, x: int, y: int, text: string): seq<Point>
    decreases |text|
  {
    if text == [] then []
    else CharPixels(glyphs, x, y, text[0]) + StringPixels(glyphs, advance, x + advance, y, text[1..])
  }

  /** Drawing two strings one after the other, the second |a| advances on, is drawing their concatenation. */
  lemma {:induction false} StringPixelsAppend(glyphs: map<char, GlyphData>, advance: int, x: int, y: int, a: string, b: string)
    ensures StringPixels(glyphs, advance, x, y, a + b)
         == StringPixels(glyphs, advance, x, y, a) + StringPixels(glyphs, advance, x + |a| * advance, y, b)
    decreases |a|
  {
    if a == [] {
      assert a + b == b;
    } else {
      var t, xs := a[1..], x + advance;
      var head := CharPixels(glyphs, x, y, a[0]);
      assert (a + b)[0] == a[0];
      assert (a + b)[1..] == t + b;
      assert StringPixels(glyphs, advance, x, y, a + b) == head + StringPixels(glyphs, advance, xs, y, t + b);
      assert StringPixels(glyphs, advance, x, y, a) == head + StringPixels(glyphs, advance, xs, y, t);
      StringPixelsAppend(glyphs, advance, xs, y, t, b);
      MulSucc(|t|, advance);
      assert xs + |t| * advance == x + |a| * advance;
      AppendAssoc(head, StringPixels(glyphs, advance, xs, y, t), StringPixels(glyphs, advance, x + |a| * advance, y, b));
    }
  }

  /** Rune i of a string is drawn i advances on from the start. */
  lemma StringStep(glyphs: map<char, GlyphData>, advance: int, x: int, y: int, text: string, i: int, cx: int)
    requires 0 <= i < |text| && cx == x + i * advance
    ensures StringPixels(glyphs, advance, x, y, text[..i + 1])
         == StringPixels(glyphs, advance, x, y, text[..i]) + CharPixels(glyphs, cx, y, text[i])
    ensures cx + advance == x + (i + 1) * advance
  {
    var a, b := text[..i], [text[i]];
    assert |a| == i;
    assert text[..i + 1] == a + b;
    StringPixelsAppend(glyphs, advance, x, y, a, b);
    assert b[0] == text[i] && b[1..] == [];
    assert StringPixels(glyphs, advance, cx, y, b) == CharPixels(glyphs, cx, y, text[i]) + [];
    MulSucc(i, advance);
  }

  lemma AppendAssoc<T>(a: seq<T>, b: seq<T>, c: seq<T>)
    ensures a + (b + c) == (a + b) + c
  {
  }

  /** Bytes of the UTF-8 encoding of a rune. */
  function RuneLength(c: char): (n: int)
    ensures 1 <= n <= 4
    ensures n == 1 <==> c as int < 0x80
  {
    if c as int < 0x80 then 1
    else if c as int < 0x800 then 2
    else if c as int < 0x10000 then 3
    else 4
  }

  /** Go's `len` of a string: the length of its UTF-8 encoding. */
  function Utf8Length(s: string): (n: int)
    ensures |s| <= n <= 4 * |s|
    decreases |s|
  {
    if s == [] then 0 else Utf8Length(s[..|s| - 1]) + RuneLength(s[|s| - 1])
  }

  lemma {:induction false} AsciiLength(s: string)
    requires forall i :: 0 <= i < |s| ==> s[i] as int < 0x80
    ensures Utf8Length(s) == |s|
    decreases |s|
  {
    if s != [] {
      AsciiLength(s[..|s| - 1]);
    }
  }

  lemma {:induction false} Utf8LengthIsRuneCount(s: string)
    requires Utf8Length(s) == |s|
    ensures forall i :: 0 <= i < |s| ==> s[i] as int < 0x80
    decreases |s|
  {
    if s != [] {
      assert Utf8Length(s[..|s| - 1]) <= |s| - 1;
      Utf8LengthIsRuneCount(s[..|s| - 1]);
      assert forall i :: 0 <= i < |s| - 1 ==> s[i] == s[..|s| - 1][i];
    }
  }

  /** A bitmap font: its rune table and fixed metrics. */
  class BitmapFont {
    var glyphs: map<char, GlyphData>
    const width: int
    const height: int
    const advance: int

    /** NewBitmapFont: an empty table. */
    constructor (width: int, height: int, advance: int)
      ensures glyphs == map[] && this.width == width && this.height == height && this.advance == advance
    {
      glyphs := map[];
      this.width := width;
      this.height := height;
      this.advance := advance;
    }

    function Height(): (h: int)
      ensures h == height
    {
      height
    }

    method AddGlyph(ch: char, data: GlyphData)
      modifies this
      ensures glyphs == old(glyphs)[ch := data]
    {
      glyphs := glyphs[ch := data];
    }

    function GetGlyph(ch: char): (r: Result<GlyphData>)
      reads this
      ensures r == Lookup(glyphs, ch)
    {
      if ch in glyphs then Ok(glyphs[ch]) else Err(GlyphNotFound)
    }

    /** MeasureString: the byte length of the text times the advance, and the font height. */
    function MeasureString(text: string): (r: (int, int))
      ensures r.0 == Utf8Length(text) * advance && r.1 == height
    {
      (Utf8Length(text) * advance, height)
    }

    /** drawGlyph: the glyph's set pixels written through the framebuffer's SetPixel; it never fails. */
    method DrawGlyph(fb: FrameBuffer, x: int, y: int, glyph: GlyphData, color: byte, ghost start: Panel, ghost d0: bool, ghost pre: seq<Point>)
      returns (e: Outcome)
      requires fb.Valid() && fb.Written(start, d0, pre, color)
      modifies fb, fb.device.base, fb.device.base.vram
      ensures fb.Valid() && fb.device.regs == old(fb.device.regs)
      ensures e == Pass && fb.Written(start, d0, pre + GlyphPixels(glyph, x, y), color)
    {
      var pts := DecodeGlyph(glyph, x, y);
      fb.SetPixels(pts, color, start, d0, pre);
      return Pass;
    }

    /** Draws each rune with its glyph, the space glyph, or nothing, advancing once per rune. */
    method DrawString(fb: FrameBuffer, x: int, y: int, text: string, color: byte) returns (width: int, e: Outcome)
      requires fb.Valid()
      modifies fb, fb.device.base, fb.device.base.vram
      ensures fb.Valid() && fb.device.regs == old(fb.device.regs)
      ensures e == Pass && width == |text| * advance
      ensures fb.Written(old(fb.Screen()), old(fb.dirty), StringPixels(glyphs, advance, x, y, text), color & 0x0F)
    {
      var currentX := x;
      var c := color & 0x0F;
      ghost var start, d0 := fb.Screen(), fb.dirty;
      ghost var done: seq<Point> := [];
      var i := 0;
      while i < |text|
        invariant 0 <= i <= |text| && currentX == x + i * advance
        invariant done == StringPixels(glyphs, advance, x, y, text[..i])
        invariant fb.Valid() && fb.device.regs == old(fb.device.regs)
        invariant fb.Written(start, d0, done, c)
      {
        var ch := text[i];
        StringStep(glyphs, advance, x, y, text, i, currentX);
        ghost var next := done + CharPixels(glyphs, currentX, y, ch);
        if ch in glyphs {
          e := DrawGlyph(fb, currentX, y, glyphs[ch], c, start, d0, done);
        } else if ch != ' ' && ' ' in glyphs {
          e := DrawGlyph(fb, currentX, y, glyphs[' '], c, start, d0, done);
        } else {
          assert done + [] == done;
        }
        done := next;
        currentX := currentX + advance;
        i := i + 1;
      }
      assert text[..i] == text;
      return currentX - x, Pass;
    }
  }

  /** The glyph of the 5 by 7 default font for a rune. */
  function ASCIIGlyph(ch: char): GlyphData {
    var data: seq<byte> :=
      match ch
      case ' ' => seq(BytesPerRow(5) * 7, _ => 0)
      case 'A' => [0x70, 0x88, 0x88, 0xF8, 0x88, 0x88, 0x88]
      case 'B' => [0xF0, 0x88, 0x88, 0xE0, 0x88, 0x88, 0xF0]
      case 'H' => [0x88, 0x88, 0x88, 0xF8, 0x88, 0x88, 0x88]
      case 'O' => [0x70, 0x88, 0x88, 0x88, 0x88, 0x88, 0x70]
      case '0' => [0x70, 0x88, 0x88, 0x88, 0x88, 0x88, 0x70]
      case '1' => [0x20, 0x60, 0x20, 0x20, 0x20, 0x20, 0x70]
      case _ => seq(BytesPerRow(5) * 7, _ => 0x78);
    GlyphData(5, 7, 6, 0, 0, data)
  }

  /** The runes with a drawing of their own in the default font. */
  predicate Pictured(ch: char) {
    ch == 'A' || ch == 'B' || ch == 'H' || ch == 'O' || ch == '0' || ch == '1'
  }

  /** DefaultBitmapFont: 5 by 7 glyphs advancing 6 pixels, for the runes 32 to 126. */
  method DefaultBitmapFont() returns (bf: BitmapFont)
    ensures fresh(bf) && bf.width == 5 && bf.height == 7 && bf.advance == 6
    ensures forall ch :: ch in bf.glyphs <==> 32 <= ch as int <= 126
    ensures forall ch :: ch in bf.glyphs ==> bf.glyphs[ch] == ASCIIGlyph(ch)
  {
    bf := new BitmapFont(5, 7, 6);
    var ch := 32;
    while ch <= 126
      invariant 32 <= ch <= 127
      invariant forall c :: c in bf.glyphs <==> 32 <= c as int < ch
      invariant forall c :: c in bf.glyphs ==> bf.glyphs[c] == ASCIIGlyph(c)
    {
      bf.AddGlyph(ch as char, ASCIIGlyph(ch as char));
      ch := ch + 1;
    }
  }

  /** Every default glyph is 5 by 7 with one byte per row and advances 6; space is blank and unpictured runes are a block. */
  lemma DefaultGlyphShape(ch: char)
    ensures var g := ASCIIGlyph(ch);
            g.width == 5 && g.height == 7 && g.advanceX == 6 && g.bearingX == 0 && g.bearingY == 0 && |g.data| == 7
    ensures ch == ' ' ==> forall i :: 0 <= i < 7 ==> ASCIIGlyph(ch).data[i] == 0
    ensures ch != ' ' && !Pictured(ch) ==> forall i :: 0 <= i < 7 ==> ASCIIGlyph(ch).data[i] == 0x78
  {
  }

  /** The space glyph sets no pixel. */
  lemma SpaceDrawsNothing(x: int, y: int)
    ensures GlyphPixels(ASCIIGlyph(' '), x, y) == []
  {
    var g := ASCIIGlyph(' ');
    DefaultGlyphShape(' ');
    forall c | c in RowMajor(0, 0, 4, 6)
      ensures !Lit(g, x, y, c)
    {
      if 0 <= c.x && 0 <= ByteIndex(g, c.x, c.y) < |g.data| {
        assert g.data[ByteIndex(g, c.x, c.y)] == 0;
      }
    }
    EmitDark(g, x, y, RowMajor(0, 0, 4, 6));
  }

  /** The block glyph 0x78 sets columns 1 to 4 of every row. */
  lemma BlockBits(gx: int)
    requires 0 <= gx < 5
    ensures BitSet(0x78, gx) <==> 1 <= gx
  {
    if gx == 0 {
      assert !BitSet(0x78, 0);
    } else if gx == 1 {
      assert BitSet(0x78, 1);
    } else if gx == 2 {
      assert BitSet(0x78, 2);
    } else if gx == 3 {
      assert BitSet(0x78, 3);
    } else {
      assert BitSet(0x78, 4);
    }
  }

  /** A rune without a drawing of its own is drawn, at a non-negative position, as a 4 by 7 block one column in. */
  lemma BlockGlyphPixels(ch: char, x: int, y: int, q: Point)
    requires ch != ' ' && !Pictured(ch) && x >= 0 && y >= 0
    ensures q in GlyphPixels(ASCIIGlyph(ch), x, y) <==> x + 1 <= q.x <= x + 4 && y <= q.y <= y + 6
  {
    DefaultGlyphShape(ch);
    BlockShapePixels(ASCIIGlyph(ch), x, y, q);
  }

  /** The pixels of a 5 by 7 glyph whose every row is 0x78. */
  lemma BlockShapePixels(g: GlyphData, x: int, y: int, q: Point)
    requires g.width == 5 && g.height == 7 && g.bearingX == 0 && g.bearingY == 0 && |g.data| == 7
    requires forall i :: 0 <= i < 7 ==> g.data[i] == 0x78
    requires x >= 0 && y >= 0
    ensures q in GlyphPixels(g, x, y) <==> x + 1 <= q.x <= x + 4 && y <= q.y <= y + 6
  {
    if q in GlyphPixels(g, x, y) {
      BlockPixelInside(g, x, y, q);
    }
    if x + 1 <= q.x <= x + 4 && y <= q.y <= y + 6 {
      BlockPointDrawn(g, x, y, q);
    }
  }

  lemma BlockPixelInside(g: GlyphData, x: int, y: int, q: Point)
    requires g.width == 5 && g.height == 7 && g.bearingX == 0 && g.bearingY == 0 && |g.data| == 7
    requires forall i :: 0 <= i < 7 ==> g.data[i] == 0x78
    requires x >= 0 && y >= 0 && q in GlyphPixels(g, x, y)
    ensures x + 1 <= q.x <= x + 4 && y <= q.y <= y + 6
  {
    GlyphPixelsMembers(g, x, y, q);
    var gx, gy :| 0 <= gx < 5 && 0 <= gy < 7 && Lit(g, x, y, Point(gx, gy)) && q == ScreenOf(g, x, y, Point(gx, gy));
    BlockCell(g, x, y, gx, gy);
  }

  lemma BlockPointDrawn(g: GlyphData, x: int, y: int, q: Point)
    requires g.width == 5 && g.height == 7 && g.bearingX == 0 && g.bearingY == 0 && |g.data| == 7
    requires forall i :: 0 <= i < 7 ==> g.data[i] == 0x78
    requires x >= 0 && y >= 0 && x + 1 <= q.x <= x + 4 && y <= q.y <= y + 6
    ensures q in GlyphPixels(g, x, y)
  {
    var gx, gy := q.x - x, q.y - y;
    BlockCell(g, x, y, gx, gy);
    assert q == ScreenOf(g, x, y, Point(gx, gy));
    GlyphPixelsMembers(g, x, y, q);
  }

  /** Cell (gx, gy) of the block glyph is lit exactly when it is not in column 0. */
  lemma BlockCell(g: GlyphData, x: int, y: int, gx: int, gy: int)
    requires g.width == 5 && g.height == 7 && g.bearingX == 0 && g.bearingY == 0 && |g.data| == 7
    requires forall i :: 0 <= i < 7 ==> g.data[i] == 0x78
    requires x >= 0 && y >= 0 && 0 <= gx < 5 && 0 <= gy < 7
    ensures Lit(g, x, y, Point(gx, gy)) <==> 1 <= gx
  {
    LitMeans(g, x, y, gx, gy);
    assert BytesPerRow(5) == 1 && gx / 8 == 0 && gx % 8 == gx;
    assert g.data[gy * 1 + 0] == 0x78;
    BlockBits(gx);
  }

  /** MeasureString counts bytes where DrawString counts runes: the two agree exactly on ASCII text. */
  lemma MeasureMatchesDrawOnAscii(advance: int, text: string)
    requires advance != 0
    ensures Utf8Length(text) * advance == |text| * advance <==> forall i :: 0 <= i < |text| ==> text[i] as int < 0x80
  {
    if forall i :: 0 <= i < |text| ==> text[i] as int < 0x80 {
      AsciiLength(text);
    } else if Utf8Length(text) * advance == |text| * advance {
      MulCancel(Utf8Length(text), |text|, advance);
      Utf8LengthIsRuneCount(text);
    }
  }
}
