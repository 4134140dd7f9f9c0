/**
 * Text layout over a bitmap font: splitting text into lines, drawing and
 * measuring several lines, and drawing one line aligned left, centred or
 * right of a point.
 */
module Text {
  import opened Common
  import opened Controller
  import opened Framebuffer
  import opened Bitmap
  import opened Arith

  // ---- options ----

  /** Alignment is a plain integer; these three values have a meaning. */
  type Alignment = int
  const AlignLeft: Alignment := 0
  const AlignCenter: Alignment := 1
  const AlignRight: Alignment := 2

  datatype TextOptions = TextOptions(alignment: Alignment, lineSpacing: int, charSpacing: int, color: byte)

  /** Left aligned, no extra spacing, full brightness. */
  function DefaultTextOptions(): (o: TextOptions)
    ensures o.alignment == AlignLeft && o.lineSpacing == 0 && o.charSpacing == 0 && o.color == 0x0F
  {
    TextOptions(AlignLeft, 0, 0, 0x0F)
  }

  // ---- line splitting ----

  /** The lines completed so far and the line being collected. */
  datatype Scanned = Scanned(lines: seq<string>, current: string)

  /** The state of splitLines' loop after the runes of `text`: a newline ends the line, a carriage return is skipped. */
  function Scan(text: string): Scanned
    decreases |text|
  {
    if text == [] then Scanned([], [])
    else
      var s := Scan(text[..|text| - 1]);
      var ch := text[|text| - 1];
      if ch == '\n' then Scanned(s.lines + [s.current], [])
      else if ch != '\r' then Scanned(s.lines, s.current + [ch])
      else s
  }

  /** The last line is kept when it is not empty or the text ends with a newline; the result is never empty. */
  function SplitLinesOf(text: string): (r: seq<string>)
    ensures |r| >= 1
  {
    var s := Scan(text);
    var lines := if s.current != [] || (|text| > 0 && text[|text| - 1] == '\n') then s.lines + [s.current] else s.lines;
    if lines == [] then [""] else lines
  }

  /** splitLines. */
  method SplitLines(text: string) returns (lines: seq<string>)
    ensures lines == SplitLinesOf(text)
  {
    lines := [];
    var currentLine: string := [];
    var i := 0;
    while i < |text|
      invariant 0 <= i <= |text| && Scanned(lines, currentLine) == Scan(text[..i])
    {
      var ch := text[i];
      assert text[..i + 1][..i] == text[..i];
      if ch == '\n' {
        lines := lines + [currentLine];
        currentLine := [];
      } else if ch != '\r' {
        currentLine := currentLine + [ch];
      }
      i := i + 1;
    }
    assert text[..i] == text;
    if currentLine != [] || (|text| > 0 && text[|text| - 1] == '\n') {
      lines := lines + [currentLine];
    }
    if |lines| == 0 {
      lines := [""];
    }
  }

  predicate NoBreak(line: string) {
    '\n' !in line && '\r' !in line
  }

  /** The lines joined with newlines between them. */
  function Join(lines: seq<string>): string
    decreases |lines|
  {
    if |lines| == 0 then []
    else if |lines| == 1 then lines[0]
    else Join(lines[..|lines| - 1]) + "\n" + lines[|lines| - 1]
  }

  /** Text without the carriage returns. */
  function RemoveCR(text: string): (r: string)
    ensures '\r' !in r
    decreases |text|
  {
    if text == [] then []
    else RemoveCR(text[..|text| - 1]) + if text[|text| - 1] == '\r' then [] else [text[|text| - 1]]
  }

  /** The number of newlines in the text. */
  function Newlines(text: string): nat
    decreases |text|
  {
    if text == [] then 0
    else Newlines(text[..|text| - 1]) + if text[|text| - 1] == '\n' then 1 else 0
  }

  lemma {:induction false} ScanClean(text: string)
    ensures NoBreak(Scan(text).current)
    ensures forall line :: line in Scan(text).lines ==> NoBreak(line)
    decreases |text|
  {
    if text != [] {
      ScanClean(text[..|text| - 1]);
    }
  }

  /** No line holds a newline or a carriage return. */
  lemma LinesHaveNoBreaks(text: string)
    ensures forall line :: line in SplitLinesOf(text) ==> NoBreak(line)
  {
    ScanClean(text);
    assert NoBreak("");
  }

  lemma JoinSnoc(lines: seq<string>, line: string)
    requires |lines| >= 1
    ensures Join(lines + [line]) == Join(lines) + "\n" + line
  {
    assert (lines + [line])[..|lines|] == lines;
  }

  /** Without carriage returns, the lines so far and the current line join back to the text, with one line per newline. */
  lemma {:induction false} ScanJoins(text: string)
    requires '\r' !in text
    ensures Join(Scan(text).lines + [Scan(text).current]) == text
    ensures |Scan(text).lines| == Newlines(text)
    decreases |text|
  {
    if text != [] {
      var pre, ch := text[..|text| - 1], text[|text| - 1];
      assert text == pre + [ch];
      ScanJoins(pre);
      var s := Scan(pre);
      if ch == '\n' {
        JoinSnoc(s.lines + [s.current], []);
      } else if s.lines == [] {
        assert [s.current] == [] + [s.current];
        assert Join([s.current + [ch]]) == s.current + [ch];
      } else {
        JoinSnoc(s.lines, s.current);
        JoinSnoc(s.lines, s.current + [ch]);
      }
    }
  }

  /** A text ending in a rune other than a newline or a carriage return leaves that rune on the current line. */
  lemma ScanOpenLine(text: string)
    requires text != [] && text[|text| - 1] != '\n' && text[|text| - 1] != '\r'
    ensures Scan(text).current != []
  {
  }

  /** Text without carriage returns splits into lines that join back to it. */
  lemma SplitJoinRoundTrip(text: string)
    requires '\r' !in text
    ensures Join(SplitLinesOf(text)) == text
    ensures |SplitLinesOf(text)| == Newlines(text) + 1
  {
    ScanJoins(text);
    if text != [] && text[|text| - 1] != '\n' {
      ScanOpenLine(text);
    }
  }

  lemma {:induction false} ScanIgnoresCR(text: string)
    ensures Scan(RemoveCR(text)) == Scan(text)
    decreases |text|
  {
    if text != [] {
      var pre, ch := text[..|text| - 1], text[|text| - 1];
      ScanIgnoresCR(pre);
      if ch != '\r' {
        var r := RemoveCR(pre) + [ch];
        assert RemoveCR(text) == r;
        assert r[..|r| - 1] == RemoveCR(pre);
      } else {
        assert RemoveCR(text) == RemoveCR(pre) + [] == RemoveCR(pre);
        assert Scan(text) == Scan(pre);
      }
    }
  }

  /** Carriage returns change nothing, unless the text ends with one. */
  lemma CarriageReturnsIgnored(text: string)
    requires text == [] || text[|text| - 1] != '\r'
    ensures SplitLinesOf(text) == SplitLinesOf(RemoveCR(text))
  {
    ScanIgnoresCR(text);
    if text != [] {
      var pre, ch := text[..|text| - 1], text[|text| - 1];
      var r := RemoveCR(text);
      assert r == RemoveCR(pre) + [ch];
      assert |r| > 0 && r[|r| - 1] == ch;
    }
  }

  /** A newline followed by a final carriage return loses the empty last line a final newline keeps. */
  lemma TrailingCarriageReturn()
    ensures SplitLinesOf("a\n") == ["a", ""]
    ensures SplitLinesOf("a\n\r") == ["a"]
  {
    var a, an, anr := "a", "a\n", "a\n\r";
    assert a[..0] == [] && an[..1] == a && anr[..2] == an;
    assert Scan([]) == Scanned([], []);
    assert Scan(a) == Scanned([], a);
    assert Scan(an) == Scanned([a], []);
    assert Scan(anr) == Scanned([a], []);
  }

  // ---- several lines ----

  /** The pixels of the lines drawn at x, the first at y and each next one `step` lower. */
  function TextPixels(glyphs: map<char, GlyphData>, advance: int, x: int, y: int, step: int, lines: seq<string>): seq<Point>
    decreases |lines|
  {
    if lines == [] then []
    else StringPixels(glyphs, advance, x, y, lines[0]) + TextPixels(glyphs, advance, x, y + step, step, lines[1..])
  }

  /** Drawing two runs of lines, the second |a| steps lower, is drawing them all. */
  lemma {:induction false} TextPixelsAppend(glyphs: map<char, GlyphData>, advance: int, x: int, y: int, step: int, a: seq<string>, b: seq<string>)
    ensures TextPixels(glyphs, advance, x, y, step, a + b)
         == TextPixels(glyphs, advance, x, y, step, a) + TextPixels(glyphs, advance, x, y + |a| * step, step, b)
    decreases |a|
  {
    if a == [] {
      assert a + b == b;
    } else {
      var t, ys := a[1..], y + step;
      var head := StringPixels(glyphs, advance, x, y, a[0]);
      assert (a + b)[0] == a[0];
      assert (a + b)[1..] == t + b;
      assert TextPixels(glyphs, advance, x, y, step, a + b) == head + TextPixels(glyphs, advance, x, ys, step, t + b);
      assert TextPixels(glyphs, advance, x, y, step, a) == head + TextPixels(glyphs, advance, x, ys, step, t);
      TextPixelsAppend(glyphs, advance, x, ys, step, t, b);
      MulSucc(|t|, step);
      assert ys + |t| * step == y + |a| * step;
      AppendAssoc(head, TextPixels(glyphs, advance, x, ys, step, t), TextPixels(glyphs, advance, x, y + |a| * step, step, b));
    }
  }

  /** Drawing the remaining lines is drawing the next one and then the rest one step lower. */
  lemma TextRest(glyphs: map<char, GlyphData>, advance: int, x: int, step: int, lines: seq<string>, i: int, cy: int,
                 total: seq<Point>, done: seq<Point>, more: seq<Point>)
    requires 0 <= i < |lines| && total == done + TextPixels(glyphs, advance, x, cy, step, lines[i..])
    requires more == StringPixels(glyphs, advance, x, cy, lines[i])
    ensures total == (done + more) + TextPixels(glyphs, advance, x, cy + step, step, lines[i + 1..])
  {
    assert lines[i..][0] == lines[i] && lines[i..][1..] == lines[i + 1..];
    AppendAssoc(done, more, TextPixels(glyphs, advance, x, cy + step, step, lines[i + 1..]));
  }

  // ---- alignment ----

  /**
   * Where a line of the given width starts: at x, centred on x with Go's
   * truncating halving, ending at x, or at 0 for any other alignment value.
   */
  function AlignedX(x: int, width: int, alignment: Alignment): (r: int)
    ensures alignment == AlignLeft ==> r == x
    ensures alignment == AlignRight ==> r + width == x
    ensures alignment == AlignCenter && width >= 0 ==> 2 * r + width == 2 * x || 2 * r + width == 2 * x + 1
    ensures alignment == AlignCenter && width < 0 ==> 2 * r + width == 2 * x || 2 * r + width == 2 * x - 1
    ensures alignment != AlignLeft && alignment != AlignCenter && alignment != AlignRight ==> r == 0
  {
    if alignment == AlignLeft then x
    else if alignment == AlignCenter then x - GoDiv(width, 2)
    else if alignment == AlignRight then x - width
    else 0
  }

  // ---- renderers ----

  class TextRenderer {
    const font: BitmapFont
    var opts: TextOptions

    /** NewTextRenderer: the font with the default options. */
    constructor (font: BitmapFont)
      ensures this.font == font && opts == DefaultTextOptions()
    {
      this.font := font;
      opts := DefaultTextOptions();
    }

    method SetOptions(o: TextOptions)
      modifies this
      ensures opts == o
    {
      opts := o;
    }

    /** DrawText: one line in the options' colour. */
    method DrawText(fb: FrameBuffer, x: int, y: int, text: string) returns (width: int, e: Outcome)
      requires fb.Valid()
      modifies fb, fb.device.base, fb.device.base.vram
      ensures fb.Valid() && fb.device.regs == old(fb.device.regs)
      ensures e == Pass && width == |text| * font.advance
      ensures fb.Written(old(fb.Screen()), old(fb.dirty), StringPixels(font.glyphs, font.advance, x, y, text), opts.color & 0x0F)
    {
      width, e := font.DrawString(fb, x, y, text, opts.color);
    }

    /** DrawMultilineText: each line of the split text at x, one font height plus the line spacing below the previous. */
    method DrawMultilineText(fb: FrameBuffer, x: int, y: int, text: string) returns (e: Outcome)
      requires fb.Valid()
      modifies fb, fb.device.base, fb.device.base.vram
      ensures fb.Valid() && fb.device.regs == old(fb.device.regs)
      ensures e == Pass
      ensures fb.Written(old(fb.Screen()), old(fb.dirty),
                         TextPixels(font.glyphs, font.advance, x, y, font.height + opts.lineSpacing, SplitLinesOf(text)),
                         opts.color & 0x0F)
    {
      var lines := SplitLines(text);
      DrawLines(fb, x, y, lines);
      return Pass;
    }

    /** The loop of DrawMultilineText over the split lines. */
    method DrawLines(fb: FrameBuffer, x: int, y: int, lines: seq<string>)
      requires fb.Valid()
      modifies fb, fb.device.base, fb.device.base.vram
      ensures fb.Valid() && fb.device.regs == old(fb.device.regs)
      ensures fb.Written(old(fb.Screen()), old(fb.dirty),
                         TextPixels(font.glyphs, font.advance, x, y, font.height + opts.lineSpacing, lines),
                         opts.color & 0x0F)
    {
      var currentY := y;
      var step := font.Height() + opts.lineSpacing;
      ghost var start, d0 := fb.Screen(), fb.dirty;
      ghost var total := TextPixels(font.glyphs, font.advance, x, y, step, lines);
      ghost var done: seq<Point> := [];
      assert lines[0..] == lines;
      var i := 0;
      while i < |lines|
        invariant 0 <= i <= |lines|
        invariant total == done + TextPixels(font.glyphs, font.advance, x, currentY, step, lines[i..])
        invariant fb.Valid() && fb.device.regs == old(fb.device.regs)
        invariant fb.Written(start, d0, done, opts.color & 0x0F)
      {
        ghost var more := StringPixels(font.glyphs, font.advance, x, currentY, lines[i]);
        TextRest(font.glyphs, font.advance, x, step, lines, i, currentY, total, done, more);
        DrawLineFrom(fb, x, currentY, lines[i], start, d0, done, more);
        done := done + more;
        currentY := currentY + step;
        i := i + 1;
      }
      assert done + [] == done;
    }

    /** One line of DrawMultilineText, continuing the writes made since `start`. */
    method DrawLineFrom(fb: FrameBuffer, x: int, y: int, line: string, ghost start: Panel, ghost d0: bool, ghost pre: seq<Point>, ghost pts: seq<Point>)
      requires fb.Valid() && fb.Written(start, d0, pre, opts.color & 0x0F)
      requires pts == StringPixels(font.glyphs, font.advance, x, y, line)
      modifies fb, fb.device.base, fb.device.base.vram
      ensures fb.Valid() && fb.device.regs == old(fb.device.regs)
      ensures fb.Written(start, d0, pre + pts, opts.color & 0x0F)
    {
      ghost var mid, dMid := fb.Screen(), fb.dirty;
      var _, _ := font.DrawString(fb, x, y, line, opts.color);
      WrittenChain(fb.device.memory, start, d0, pre, mid, dMid, pts, opts.color & 0x0F);
    }

    /** MeasureMultilineText: the widest line (at least 0) and the lines' heights with the spacing between them. */
    method MeasureMultilineText(text: string) returns (width: int, height: int, e: Outcome)
      ensures e == Pass
      ensures var lines := SplitLinesOf(text);
              height == font.height * |lines| + opts.lineSpacing * (|lines| - 1)
      ensures width >= 0 && forall line :: line in SplitLinesOf(text) ==> font.MeasureString(line).0 <= width
      ensures width == 0 || exists line :: line in SplitLinesOf(text) && font.MeasureString(line).0 == width
    {
      var lines := SplitLines(text);
      var maxWidth := 0;
      var i := 0;
      while i < |lines|
        invariant 0 <= i <= |lines| && maxWidth >= 0
        invariant forall k :: 0 <= k < i ==> font.MeasureString(lines[k]).0 <= maxWidth
        invariant maxWidth == 0 || exists k :: 0 <= k < i && font.MeasureString(lines[k]).0 == maxWidth
      {
        var (w, _) := font.MeasureString(lines[i]);
        if w > maxWidth {
          maxWidth := w;
        }
        i := i + 1;
      }
      forall line | line in lines
        ensures font.MeasureString(line).0 <= maxWidth
      {
        var k :| 0 <= k < |lines| && lines[k] == line;
      }
      if maxWidth != 0 {
        var k :| 0 <= k < |lines| && font.MeasureString(lines[k]).0 == maxWidth;
        assert lines[k] in lines;
      }
      var totalHeight := font.Height() * |lines| + opts.lineSpacing * (|lines| - 1);
      return maxWidth, totalHeight, Pass;
    }
  }

  class AlignedTextDrawer {
    const renderer: TextRenderer

    /** NewAlignedTextDrawer: a fresh renderer over the font. */
    constructor (font: BitmapFont)
      ensures fresh(renderer) && renderer.font == font && renderer.opts == DefaultTextOptions()
    {
      renderer := new TextRenderer(font);
    }

    /**
     * DrawAlignedText: the text measured, placed by the alignment, and
     * drawn; the renderer keeps the colour in its options.
     */
    method DrawAlignedText(fb: FrameBuffer, x: int, y: int, text: string, alignment: Alignment, color: byte) returns (e: Outcome)
      requires fb.Valid()
      modifies renderer, fb, fb.device.base, fb.device.base.vram
      ensures renderer.opts == old(renderer.opts).(color := color)
      ensures fb.Valid() && fb.device.regs == old(fb.device.regs)
      ensures e == Pass
      ensures var font := renderer.font;
              fb.Written(old(fb.Screen()), old(fb.dirty),
                         StringPixels(font.glyphs, font.advance, AlignedX(x, font.MeasureString(text).0, alignment), y, text),
                         color & 0x0F)
    {
      var (width, _) := renderer.font.MeasureString(text);
      var drawX := 0;
      if alignment == AlignLeft {
        drawX := x;
      } else if alignment == AlignCenter {
        drawX := x - GoDiv(width, 2);
      } else if alignment == AlignRight {
        drawX := x - width;
      }
      var o := renderer.opts;
      o := o.(color := color);
      renderer.SetOptions(o);
      var _, err := renderer.font.DrawString(fb, drawX, y, text, color);
      return Pass;
    }

    method DrawCenteredText(fb: FrameBuffer, x: int, y: int, text: string, color: byte) returns (e: Outcome)
      requires fb.Valid()
      modifies renderer, fb, fb.device.base, fb.device.base.vram
      ensures renderer.opts == old(renderer.opts).(color := color)
      ensures fb.Valid() && fb.device.regs == old(fb.device.regs)
      ensures e == Pass
      ensures var font := renderer.font;
              fb.Written(old(fb.Screen()), old(fb.dirty),
                         StringPixels(font.glyphs, font.advance, AlignedX(x, font.MeasureString(text).0, AlignCenter), y, text),
                         color & 0x0F)
    {
      e := DrawAlignedText(fb, x, y, text, AlignCenter, color);
    }

    method DrawRightAlignedText(fb: FrameBuffer, x: int, y: int, text: string, color: byte) returns (e: Outcome)
      requires fb.Valid()
      modifies renderer, fb, fb.device.base, fb.device.base.vram
      ensures renderer.opts == old(renderer.opts).(color := color)
      ensures fb.Valid() && fb.device.regs == old(fb.device.regs)
      ensures e == Pass
      ensures var font := renderer.font;
              fb.Written(old(fb.Screen()), old(fb.dirty),
                         StringPixels(font.glyphs, font.advance, AlignedX(x, font.MeasureString(text).0, AlignRight), y, text),
                         color & 0x0F)
    {
      e := DrawAlignedText(fb, x, y, text, AlignRight, color);
    }
  }
}
