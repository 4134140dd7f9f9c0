/**
 * The drawing surface over an SSD1322 controller: every drawing call
 * clips to the viewport and writes through the controller, a flag records
 * that something was drawn, and Flush refreshes a private copy of the
 * controller's display RAM.
 */
module Framebuffer {
  import opened Common
  import opened Device
  import opened Memory
  import opened Regions
  import opened Controller
  import Primitives

  // ---- Clear: writes in scan order that stop at the first error ----

  /** The panel reached by a run of writes, its outcome and whether any write landed. */
  datatype Run = Run(panel: Panel, outcome: Outcome, wrote: bool)

  /** SetPixel at each point of `pts` in order, returning at the first error. */
  function SetRun(mh: MemoryHelper, p: Panel, pts: seq<Point>, color: byte): (r: Run)
    ensures |r.panel.vram| == |p.vram|
    ensures !r.wrote ==> r.panel == p
    decreases |pts|
  {
    if pts == [] then Run(p, Pass, false)
    else
      var r := SetRun(mh, p, pts[..|pts| - 1], color);
      var last := pts[|pts| - 1];
      if r.outcome.Fail? then r
      else match Plot(mh, r.panel, last.x, last.y, color)
        case Ok(q) => Run(q, Pass, true)
        case Err(e) => Run(r.panel, Fail(e), r.wrote)
  }

  /** One more write of a run that has not failed yet. */
  lemma SetRunStep(mh: MemoryHelper, p: Panel, pre: seq<Point>, q: Point, color: byte)
    requires SetRun(mh, p, pre, color).outcome == Pass
    ensures SetRun(mh, p, pre + [q], color)
         == match Plot(mh, SetRun(mh, p, pre, color).panel, q.x, q.y, color)
            case Ok(t) => Run(t, Pass, true)
            case Err(e) => Run(SetRun(mh, p, pre, color).panel, Fail(e), SetRun(mh, p, pre, color).wrote)
  {
    assert (pre + [q])[..|pre|] == pre;
  }

  /** Once a run has failed, the points after the failure change nothing. */
  lemma {:induction false} SetRunAbsorbs(mh: MemoryHelper, p: Panel, pts: seq<Point>, more: seq<Point>, color: byte)
    requires pts <= more && SetRun(mh, p, pts, color).outcome.Fail?
    ensures SetRun(mh, p, more, color) == SetRun(mh, p, pts, color)
    decreases |more|
  {
    if |more| > |pts| {
      assert pts <= more[..|more| - 1];
      SetRunAbsorbs(mh, p, pts, more[..|more| - 1], color);
    } else {
      assert pts == more;
    }
  }

  /** A failure at column x of a row decides the outcome of the rest of the row. */
  lemma RowAbsorbs(mh: MemoryHelper, p: Panel, pre: seq<Point>, x: int, xEnd: int, y: int, color: byte)
    requires 0 <= x < xEnd && SetRun(mh, p, pre + Span(0, x + 1, y), color).outcome.Fail?
    ensures SetRun(mh, p, pre + Span(0, xEnd, y), color) == SetRun(mh, p, pre + Span(0, x + 1, y), color)
  {
    SpanPrefix(0, x + 1, xEnd, y);
    PrefixAppend(pre, Span(0, x + 1, y), Span(0, xEnd, y));
    SetRunAbsorbs(mh, p, pre + Span(0, x + 1, y), pre + Span(0, xEnd, y), color);
  }

  /** A failure in row y decides the outcome of the whole scan. */
  lemma ScanAbsorbs(mh: MemoryHelper, p: Panel, width: int, height: int, y: int, color: byte)
    requires 0 <= y < height && SetRun(mh, p, Rows(0, width - 1, 0, y + 1), color).outcome.Fail?
    ensures SetRun(mh, p, RowMajor(0, 0, width - 1, height - 1), color) == SetRun(mh, p, Rows(0, width - 1, 0, y + 1), color)
  {
    RowsPrefix(0, width - 1, 0, y + 1, height);
    SetRunAbsorbs(mh, p, Rows(0, width - 1, 0, y + 1), RowMajor(0, 0, width - 1, height - 1), color);
  }

  /** Over points of the viewport of a panel that holds it, a run never fails and does what the discarding writes do. */
  lemma {:induction false} SetRunPokes(mh: MemoryHelper, p: Panel, pts: seq<Point>, color: byte)
    requires Fits(mh, p)
    requires forall q :: q in pts ==> mh.InPlane(q.x, q.y)
    ensures SetRun(mh, p, pts, color) == Run(PokeAll(mh, p, pts, color), Pass, pts != [])
    decreases |pts|
  {
    if pts != [] {
      var pre, last := pts[..|pts| - 1], pts[|pts| - 1];
      assert pts == pre + [last];
      SetRunPokes(mh, p, pre, color);
      mh.NibbleOffsetFits(last.x, last.y);
    }
  }

  /** Clearing a panel that holds the viewport succeeds and leaves every pixel at the colour, marked dirty. */
  lemma ClearFills(mh: MemoryHelper, p: Panel, color: byte, q: Point)
    requires Fits(mh, p) && mh.InPlane(q.x, q.y)
    ensures SetRun(mh, p, RowMajor(0, 0, mh.width - 1, mh.height - 1), color).outcome == Pass
    ensures ReadPixel(mh, SetRun(mh, p, RowMajor(0, 0, mh.width - 1, mh.height - 1), color).panel, q.x, q.y) == Ok(color & 0x0F)
    ensures Covers(SetRun(mh, p, RowMajor(0, 0, mh.width - 1, mh.height - 1), color).panel.region, q.x, q.y)
  {
    var pts := RowMajor(0, 0, mh.width - 1, mh.height - 1);
    RowMajorMembers(0, 0, mh.width - 1, mh.height - 1);
    assert q in pts;
    SetRunPokes(mh, p, pts, color);
    var filled := PokeAll(mh, p, pts, color);
    assert SetRun(mh, p, pts, color).panel == filled;
    PokeAllReadsBack(mh, p, pts, color, q);
  }

  // ---- the clipping callback of the drawing calls ----

  /** Some point of `pts` lies in the viewport, so the callback sets the dirty flag. */
  predicate AnyVisible(mh: MemoryHelper, pts: seq<Point>)
    decreases |pts|
  {
    pts != [] && (AnyVisible(mh, pts[..|pts| - 1]) || mh.InPlane(pts[|pts| - 1].x, pts[|pts| - 1].y))
  }

  /** Some write of `pts` to a display RAM of `size` bytes is accepted, so SetPixel sets the dirty flag. */
  predicate AnyAccepted(mh: MemoryHelper, size: int, pts: seq<Point>)
    decreases |pts|
  {
    pts != [] && (AnyAccepted(mh, size, pts[..|pts| - 1]) || mh.NibbleAddressable(size, pts[|pts| - 1].x, pts[|pts| - 1].y))
  }

  lemma {:induction false} AnyAcceptedAppend(mh: MemoryHelper, size: int, a: seq<Point>, b: seq<Point>)
    ensures AnyAccepted(mh, size, a + b) == (AnyAccepted(mh, size, a) || AnyAccepted(mh, size, b))
    decreases |b|
  {
    if b == [] {
      assert a + b == a;
    } else {
      assert (a + b)[..|a + b| - 1] == a + b[..|b| - 1];
      assert (a + b)[|a + b| - 1] == b[|b| - 1];
      AnyAcceptedAppend(mh, size, a, b[..|b| - 1]);
    }
  }

  /** Writing `a` and then, from where that left the panel and the flag, writing `b` is writing `a + b`. */
  lemma WrittenChain(mh: MemoryHelper, start: Panel, d0: bool, a: seq<Point>, mid: Panel, dMid: bool, b: seq<Point>, c: byte)
    requires mid == PokeAll(mh, start, a, c) && dMid == (d0 || AnyAccepted(mh, |start.vram|, a))
    ensures PokeAll(mh, mid, b, c) == PokeAll(mh, start, a + b, c)
    ensures (dMid || AnyAccepted(mh, |mid.vram|, b)) == (d0 || AnyAccepted(mh, |start.vram|, a + b))
  {
    PokeAllAppend(mh, start, a, b, c);
    AnyAcceptedAppend(mh, |start.vram|, a, b);
  }

  /** On a display RAM that holds the viewport, a write is accepted exactly when it is visible. */
  lemma {:induction false} AcceptedIsVisible(mh: MemoryHelper, p: Panel, pts: seq<Point>)
    requires Fits(mh, p)
    ensures AnyAccepted(mh, |p.vram|, pts) == AnyVisible(mh, pts)
    decreases |pts|
  {
    if pts != [] {
      var last := pts[|pts| - 1];
      AcceptedIsVisible(mh, p, pts[..|pts| - 1]);
      if mh.InPlane(last.x, last.y) {
        mh.NibbleOffsetFits(last.x, last.y);
      }
    }
  }

  lemma {:induction false} AnyVisibleMeans(mh: MemoryHelper, pts: seq<Point>)
    ensures AnyVisible(mh, pts) <==> exists q :: q in pts && mh.InPlane(q.x, q.y)
    decreases |pts|
  {
    if pts != [] {
      var pre, last := pts[..|pts| - 1], pts[|pts| - 1];
      assert pts == pre + [last];
      AnyVisibleMeans(mh, pre);
      if AnyVisible(mh, pts) && !mh.InPlane(last.x, last.y) {
        var q :| q in pre && mh.InPlane(q.x, q.y);
        assert q in pts;
      }
    }
  }

  /** Points that all lie outside the viewport change nothing. */
  lemma {:induction false} InvisibleUntouched(mh: MemoryHelper, p: Panel, pts: seq<Point>, color: byte)
    requires !AnyVisible(mh, pts)
    ensures PokeAll(mh, p, pts, color) == p
    decreases |pts|
  {
    if pts != [] {
      InvisibleUntouched(mh, p, pts[..|pts| - 1], color);
    }
  }

  /** A rectangle fill leaves the visible cells of the rectangle at the colour and every other pixel as it was. */
  lemma FillRegionReadsBack(mh: MemoryHelper, p: Panel, x: int, y: int, w: int, h: int, color: byte, q: Point)
    requires Fits(mh, p) && mh.InPlane(q.x, q.y)
    ensures ReadPixel(mh, PokeAll(mh, p, RowMajor(x, y, x + w - 1, y + h - 1), color & 0x0F), q.x, q.y)
         == if x <= q.x < x + w && y <= q.y < y + h then Ok(color & 0x0F) else ReadPixel(mh, p, q.x, q.y)
  {
    var c := color & 0x0F;
    assert c & 0x0F == c;
    RowMajorMembers(x, y, x + w - 1, y + h - 1);
    PokeAllReadsBack(mh, p, RowMajor(x, y, x + w - 1, y + h - 1), c, q);
  }

  /** Go's copy between two slices of one length. */
  method CopyBytes(dst: array<byte>, src: array<byte>)
    requires dst.Length == src.Length
    modifies dst
    ensures dst[..] == old(src[..])
  {
    ghost var from := src[..];
    var i := 0;
    while i < dst.Length
      invariant 0 <= i <= dst.Length
      invariant forall j :: 0 <= j < i ==> dst[j] == from[j]
      invariant forall j :: i <= j < dst.Length ==> src[j] == from[j]
    {
      dst[i] := src[i];
      i := i + 1;
    }
    assert dst[..] == from;
  }

  /** A framebuffer: the controller it draws on, its copy of display RAM and the dirty flag. */
  class FrameBuffer {
    const device: SSD1322
    const buffer: array<byte>
    var dirty: bool

    ghost predicate Valid()
      reads device, device.base
    {
      device.Valid() && buffer.Length == device.base.vram.Length && buffer != device.base.vram
    }

    /** The controller's display RAM and dirty region. */
    ghost function Screen(): Panel
      reads device, device.base, device.base.vram
    {
      device.View().panel
    }

    /** With nothing drawn since the last Flush, the copy equals display RAM. */
    ghost predicate Synced()
      reads this, buffer, device.base.vram
    {
      !dirty ==> buffer[..] == device.base.vram[..]
    }

    /** The points `pts` were sent through the clipping callback in colour `c`, starting from `start` and flag `d0`. */
    ghost predicate Plotted(start: Panel, d0: bool, pts: seq<Point>, c: byte)
      reads this, device, device.base, device.base.vram
    {
      Screen() == PokeAll(device.memory, start, pts, c) && dirty == (d0 || AnyVisible(device.memory, pts))
    }

    /** The points `pts` were sent to SetPixel in colour `c`, errors discarded, starting from `start` and flag `d0`. */
    ghost predicate Written(start: Panel, d0: bool, pts: seq<Point>, c: byte)
      reads this, device, device.base, device.base.vram
    {
      Screen() == PokeAll(device.memory, start, pts, c) && dirty == (d0 || AnyAccepted(device.memory, |start.vram|, pts))
    }

    /** NewFrameBuffer: a copy of the device's display RAM, nothing drawn yet. */
    constructor (dev: SSD1322)
      requires dev.Valid()
      ensures Valid() && Synced() && device == dev && fresh(buffer) && !dirty
      ensures buffer[..] == dev.base.vram[..]
    {
      var b := new byte[dev.base.vram.Length];
      CopyBytes(b, dev.base.vram);
      device := dev;
      buffer := b;
      dirty := false;
    }

    /** Writes one pixel; the flag is set only when the device accepted the write. */
    method SetPixel(x: int, y: int, color: byte) returns (e: Outcome)
      requires Valid()
      modifies this, device.base, device.base.vram
      ensures Valid() && device.regs == old(device.regs) && (old(Synced()) ==> Synced())
      ensures match Plot(device.memory, old(Screen()), x, y, color)
              case Ok(p) => e == Pass && Screen() == p && dirty
              case Err(err) => e == Fail(err) && Screen() == old(Screen()) && dirty == old(dirty)
    {
      e := device.SetPixel(x, y, color);
      if e.Fail? {
        return;
      }
      dirty := true;
    }

    function GetPixel(x: int, y: int): (r: Result<byte>)
      requires Valid()
      reads device, device.base, device.base.vram
      ensures r == ReadPixel(device.memory, Screen(), x, y)
    {
      device.GetPixel(x, y)
    }

    /** SetPixel over the viewport row by row, returning the first error. */
    method Clear(color: byte) returns (e: Outcome)
      requires Valid()
      modifies this, device.base, device.base.vram
      ensures Valid() && device.regs == old(device.regs) && (old(Synced()) ==> Synced())
      ensures var r := SetRun(device.memory, old(Screen()), RowMajor(0, 0, device.memory.width - 1, device.memory.height - 1), color);
              Screen() == r.panel && e == r.outcome && dirty == (old(dirty) || r.wrote)
    {
      var width, height := device.base.Width(), device.base.Height();
      ghost var start, d0 := Screen(), dirty;
      ghost var done: seq<Point> := [];
      var y := 0;
      while y < height
        invariant 0 <= y <= height && done == Rows(0, width - 1, 0, y)
        invariant Valid() && device.regs == old(device.regs)
        invariant At(start, d0, done, color, Pass)
      {
        e := ClearRow(width, y, color, start, d0, done);
        RowsStep(0, width - 1, 0, y);
        done := done + Span(0, width, y);
        if e.Fail? {
          ScanAbsorbs(device.memory, start, width, height, y, color);
          return;
        }
        y := y + 1;
      }
      return Pass;
    }

    /** The writes of a scan over `pts` have ended in `e`, and the screen and flag show them. */
    ghost predicate At(start: Panel, d0: bool, pts: seq<Point>, color: byte, e: Outcome)
      reads this, device, device.base, device.base.vram
    {
      var r := SetRun(device.memory, start, pts, color);
      r.outcome == e && r.panel == Screen() && dirty == (d0 || r.wrote)
    }

    /** The inner loop of Clear: row y, after the points `pre`. */
    method ClearRow(width: int, y: int, color: byte, ghost start: Panel, ghost d0: bool, ghost pre: seq<Point>) returns (e: Outcome)
      requires Valid() && width == device.memory.width && At(start, d0, pre, color, Pass)
      modifies this, device.base, device.base.vram
      ensures Valid() && device.regs == old(device.regs)
      ensures At(start, d0, pre + Span(0, width, y), color, e)
    {
      var x := 0;
      ghost var done := pre;
      assert pre + Span(0, x, y) == pre;
      while x < width
        invariant 0 <= x <= width && done == pre + Span(0, x, y)
        invariant Valid() && device.regs == old(device.regs)
        invariant At(start, d0, done, color, Pass)
      {
        e := ClearPixel(x, y, color, start, d0, done);
        SpanStep(pre, 0, x, y);
        done := done + [Point(x, y)];
        if e.Fail? {
          RowAbsorbs(device.memory, start, pre, x, width, y, color);
          return;
        }
        x := x + 1;
      }
      return Pass;
    }

    /** One SetPixel of Clear. */
    method ClearPixel(x: int, y: int, color: byte, ghost start: Panel, ghost d0: bool, ghost pre: seq<Point>) returns (e: Outcome)
      requires Valid() && At(start, d0, pre, color, Pass)
      modifies this, device.base, device.base.vram
      ensures Valid() && device.regs == old(device.regs)
      ensures At(start, d0, pre + [Point(x, y)], color, e)
    {
      SetRunStep(device.memory, start, pre, Point(x, y), color);
      e := SetPixel(x, y, color);
    }

    /** SetPixel at one more point of a run whose errors the caller discards. */
    method SetPixelFrom(x: int, y: int, c: byte, ghost start: Panel, ghost d0: bool, ghost pre: seq<Point>)
      requires Valid() && Written(start, d0, pre, c)
      modifies this, device.base, device.base.vram
      ensures Valid() && device.regs == old(device.regs)
      ensures Written(start, d0, pre + [Point(x, y)], c)
    {
      assert (pre + [Point(x, y)])[..|pre|] == pre;
      var ignored := SetPixel(x, y, c);
    }

    /** SetPixel at each point of `pts` in order after the points `pre`, errors discarded. */
    method SetPixels(pts: seq<Point>, c: byte, ghost start: Panel, ghost d0: bool, ghost pre: seq<Point>)
      requires Valid() && Written(start, d0, pre, c)
      modifies this, device.base, device.base.vram
      ensures Valid() && device.regs == old(device.regs)
      ensures Written(start, d0, pre + pts, c)
    {
      var i := 0;
      ghost var done := pre;
      while i < |pts|
        invariant 0 <= i <= |pts| && done == pre + pts[..i]
        invariant Valid() && device.regs == old(device.regs)
        invariant Written(start, d0, done, c)
      {
        SetPixelFrom(pts[i].x, pts[i].y, c, start, d0, done);
        assert pre + pts[..i + 1] == done + [pts[i]];
        done := done + [pts[i]];
        i := i + 1;
      }
      assert pts[..i] == pts;
    }

    /** The callback: a visible point is written and sets the flag, the device's error discarded. */
    method PlotVisible(x: int, y: int, c: byte, ghost start: Panel, ghost d0: bool, ghost pre: seq<Point>)
      requires Valid() && Plotted(start, d0, pre, c)
      modifies this, device.base, device.base.vram
      ensures Valid() && device.regs == old(device.regs)
      ensures Plotted(start, d0, pre + [Point(x, y)], c)
    {
      assert (pre + [Point(x, y)])[..|pre|] == pre;
      if x >= 0 && x < device.base.Width() && y >= 0 && y < device.base.Height() {
        var ignored := device.SetPixel(x, y, c);
        dirty := true;
      }
    }

    /** The callback applied to each point of a primitive in order. */
    method PlotAll(pts: seq<Point>, c: byte)
      requires Valid()
      modifies this, device.base, device.base.vram
      ensures Valid() && device.regs == old(device.regs) && (old(Synced()) ==> Synced())
      ensures Plotted(old(Screen()), old(dirty), pts, c)
    {
      ghost var start, d0 := Screen(), dirty;
      var i := 0;
      while i < |pts|
        invariant 0 <= i <= |pts|
        invariant Valid() && device.regs == old(device.regs)
        invariant Plotted(start, d0, pts[..i], c)
      {
        assert pts[..i + 1] == pts[..i] + [pts[i]];
        PlotVisible(pts[i].x, pts[i].y, c, start, d0, pts[..i]);
        i := i + 1;
      }
      assert pts[..i] == pts;
      if !dirty {
        InvisibleUntouched(device.memory, start, pts, c);
      }
    }

    method DrawLine(x0: int, y0: int, x1: int, y1: int, color: byte) returns (e: Outcome)
      requires Valid()
      modifies this, device.base, device.base.vram
      ensures Valid() && device.regs == old(device.regs) && (old(Synced()) ==> Synced())
      ensures e == Pass && Plotted(old(Screen()), old(dirty), Primitives.Line(x0, y0, x1, y1), color & 0x0F)
    {
      var c := color & 0x0F;
      var pts := Primitives.DrawLineBresenham(x0, y0, x1, y1);
      PlotAll(pts, c);
      return Pass;
    }

    method DrawRect(x: int, y: int, w: int, h: int, color: byte, filled: bool) returns (e: Outcome)
      requires Valid()
      modifies this, device.base, device.base.vram
      ensures Valid() && device.regs == old(device.regs) && (old(Synced()) ==> Synced())
      ensures w < 0 || h < 0 ==> e == Fail(InvalidArgument) && Screen() == old(Screen()) && dirty == old(dirty)
      ensures w >= 0 && h >= 0 ==> e == Pass && Plotted(old(Screen()), old(dirty), Primitives.RectPoints(x, y, w, h, filled), color & 0x0F)
    {
      if w < 0 || h < 0 {
        return Fail(InvalidArgument);
      }
      var c := color & 0x0F;
      var pts := Primitives.DrawRect(x, y, w, h, filled);
      PlotAll(pts, c);
      return Pass;
    }

    method DrawCircle(x: int, y: int, r: int, color: byte, filled: bool) returns (e: Outcome)
      requires Valid()
      modifies this, device.base, device.base.vram
      ensures Valid() && device.regs == old(device.regs) && (old(Synced()) ==> Synced())
      ensures r < 0 ==> e == Fail(InvalidArgument) && Screen() == old(Screen()) && dirty == old(dirty)
      ensures r >= 0 ==> e == Pass && Plotted(old(Screen()), old(dirty),
                                              if filled then Primitives.FilledCircle(x, y, r) else Primitives.CircleOutline(x, y, r),
                                              color & 0x0F)
    {
      if r < 0 {
        return Fail(InvalidArgument);
      }
      var c := color & 0x0F;
      var pts := Primitives.DrawCircle(x, y, r, filled);
      PlotAll(pts, c);
      return Pass;
    }

    method DrawEllipse(x: int, y: int, rx: int, ry: int, color: byte, filled: bool) returns (e: Outcome)
      requires Valid()
      modifies this, device.base, device.base.vram
      ensures Valid() && device.regs == old(device.regs) && (old(Synced()) ==> Synced())
      ensures rx < 0 || ry < 0 ==> e == Fail(InvalidArgument) && Screen() == old(Screen()) && dirty == old(dirty)
      ensures rx >= 0 && ry >= 0 ==> e == Pass && Plotted(old(Screen()), old(dirty), Primitives.Ellipse(x, y, rx, ry, filled), color & 0x0F)
    {
      if rx < 0 || ry < 0 {
        return Fail(InvalidArgument);
      }
      var c := color & 0x0F;
      var pts := Primitives.DrawEllipse(x, y, rx, ry, filled);
      PlotAll(pts, c);
      return Pass;
    }

    /** DrawTriangle with `filled` false: the three edges. */
    method DrawTriangle(x1: int, y1: int, x2: int, y2: int, x3: int, y3: int, color: byte) returns (e: Outcome)
      requires Valid()
      modifies this, device.base, device.base.vram
      ensures Valid() && device.regs == old(device.regs) && (old(Synced()) ==> Synced())
      ensures e == Pass && Plotted(old(Screen()), old(dirty), Primitives.TriangleOutline(x1, y1, x2, y2, x3, y3), color & 0x0F)
    {
      var c := color & 0x0F;
      var pts := Primitives.DrawTriangleOutline(x1, y1, x2, y2, x3, y3);
      PlotAll(pts, c);
      return Pass;
    }

    /** Fills the w by h rectangle at (x, y), clipped to the viewport, row by row. */
    method FillRegion(x: int, y: int, w: int, h: int, color: byte) returns (e: Outcome)
      requires Valid()
      modifies this, device.base, device.base.vram
      ensures Valid() && device.regs == old(device.regs) && (old(Synced()) ==> Synced())
      ensures w < 0 || h < 0 ==> e == Fail(InvalidArgument) && Screen() == old(Screen()) && dirty == old(dirty)
      ensures w >= 0 && h >= 0 ==> e == Pass && Plotted(old(Screen()), old(dirty), RowMajor(x, y, x + w - 1, y + h - 1), color & 0x0F)
    {
      if w < 0 || h < 0 {
        return Fail(InvalidArgument);
      }
      var c := color & 0x0F;
      ghost var start, d0 := Screen(), dirty;
      ghost var done: seq<Point> := [];
      var py := y;
      while py < y + h
        invariant y <= py <= y + h && done == Rows(x, x + w - 1, y, py)
        invariant Valid() && device.regs == old(device.regs)
        invariant Plotted(start, d0, done, c)
      {
        FillRow(x, x + w, py, c, start, d0, done);
        RowsStep(x, x + w - 1, y, py);
        done := done + Span(x, x + w, py);
        py := py + 1;
      }
      if !dirty {
        InvisibleUntouched(device.memory, start, done, c);
      }
      return Pass;
    }

    /** The inner loop of FillRegion: columns x to xEnd - 1 of row py. */
    method FillRow(x: int, xEnd: int, py: int, c: byte, ghost start: Panel, ghost d0: bool, ghost pre: seq<Point>)
      requires Valid() && x <= xEnd && Plotted(start, d0, pre, c)
      modifies this, device.base, device.base.vram
      ensures Valid() && device.regs == old(device.regs)
      ensures Plotted(start, d0, pre + Span(x, xEnd, py), c)
    {
      var px := x;
      ghost var done := pre;
      assert pre + Span(x, px, py) == pre;
      while px < xEnd
        invariant x <= px <= xEnd && done == pre + Span(x, px, py)
        invariant Valid() && device.regs == old(device.regs)
        invariant Plotted(start, d0, done, c)
      {
        PlotVisible(px, py, c, start, d0, done);
        SpanStep(pre, x, px, py);
        done := done + [Point(px, py)];
        px := px + 1;
      }
    }

    /** Refreshes the copy from display RAM when something was drawn since the last Flush. */
    method Flush() returns (e: Outcome)
      requires Valid()
      modifies this, buffer
      ensures Valid() && e == Pass && !dirty && Screen() == old(Screen())
      ensures buffer[..] == if old(dirty) then device.base.vram[..] else old(buffer[..])
      ensures old(dirty) || old(Synced()) ==> Synced()
    {
      if !dirty {
        return Pass;
      }
      CopyBytes(buffer, device.base.vram);
      dirty := false;
      return Pass;
    }

    function IsDirty(): (d: bool)
      reads this
      ensures d == dirty
    {
      dirty
    }

    /** A fresh copy of the framebuffer's copy of display RAM. */
    method GetBuffer() returns (b: array<byte>)
      ensures fresh(b) && b[..] == buffer[..]
    {
      b := new byte[buffer.Length];
      CopyBytes(b, buffer);
    }

    function Width(): (w: int)
      requires Valid()
      reads device, device.base
      ensures w == device.memory.width && w > 0
    {
      device.base.Width()
    }

    function Height(): (h: int)
      requires Valid()
      reads device, device.base
      ensures h == device.memory.height && h > 0
    {
      device.base.Height()
    }
  }
}
