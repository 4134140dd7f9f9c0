/**
 * The device layer: display configuration, VRAM sizing and the dirty
 * rectangle a device keeps of the pixels changed since the last flush.
 */
module Device {
  import opened Common

  /** How pixels are packed into VRAM. */
  datatype PixelFormat = HorizontalNibble | VerticalByte | RGB888

  datatype Config = Config(
    width: int,
    height: int,
    colorDepth: int,
    pixelFormat: PixelFormat,
    columnOffset: int,
    initCommands: seq<byte>)

  /** Columns of the SSD1322 internal display RAM, whatever the viewport width. */
  const InternalColumns: int := 480

  /** Number of VRAM bytes a device allocates for its configuration. */
  function VramSize(config: Config): (n: nat)
    requires config.width > 0 && config.height > 0
    ensures n > 0
    ensures config.pixelFormat == HorizontalNibble ==> n == InternalColumns * config.height / 2
    ensures config.pixelFormat == VerticalByte ==> n == config.width * ((config.height + 7) / 8)
    ensures config.pixelFormat == RGB888 ==> n == config.width * config.height * 3
  {
    match config.pixelFormat
    case HorizontalNibble => InternalColumns * config.height / 2
    case VerticalByte => Pos(config.width, (config.height + 7) / 8)
    case RGB888 => Pos(config.width * config.height, 3)
  }

  /** A product of positive numbers is positive. */
  function Pos(a: int, b: int): (n: nat)
    requires a > 0 && b > 0
    ensures n == a * b && n > 0
  {
    MulPositive(a, b);
    a * b
  }

  lemma MulPositive(a: int, b: int)
    requires a > 0 && b > 0
    ensures a * b > 0
  {
    var k := b - 1;
    assert a * b == a * k + a;
  }

  /** The nibble-packed buffer spans the full internal width: its size does not depend on the viewport width. */
  lemma NibbleVramIgnoresWidth(c: Config, w: int)
    requires c.width > 0 && c.height > 0 && w > 0
    requires c.pixelFormat == HorizontalNibble
    ensures VramSize(c.(width := w)) == VramSize(c) >= InternalColumns / 2
  {
  }

  /** The dirty rectangle: nothing changed, or an inclusive bounding box. */
  datatype DirtyRegion = Clean | Dirty(x0: int, y0: int, x1: int, y1: int)

  /** Every rectangle `inner` marks lies inside `outer`. */
  predicate Encloses(outer: DirtyRegion, inner: DirtyRegion) {
    inner.Clean? ||
    (outer.Dirty? && outer.x0 <= inner.x0 && outer.y0 <= inner.y0 && inner.x1 <= outer.x1 && inner.y1 <= outer.y1)
  }

  predicate Covers(r: DirtyRegion, x: int, y: int) {
    r.Dirty? && r.x0 <= x <= r.x1 && r.y0 <= y <= r.y1
  }

  /** The rectangle MarkDirty records once its corners are clamped to the viewport. */
  function ClampRect(width: int, height: int, x0: int, y0: int, x1: int, y1: int): (r: DirtyRegion)
    ensures r.Dirty? && r.x0 >= 0 && r.y0 >= 0 && r.x1 < width && r.y1 < height
    ensures x0 >= 0 ==> r.x0 == x0
    ensures y0 >= 0 ==> r.y0 == y0
    ensures x1 < width ==> r.x1 == x1
    ensures y1 < height ==> r.y1 == y1
  {
    Dirty(if x0 < 0 then 0 else x0,
          if y0 < 0 then 0 else y0,
          if x1 >= width then width - 1 else x1,
          if y1 >= height then height - 1 else y1)
  }

  /** The dirty region after marking rectangle (x0, y0)-(x1, y1). */
  function MarkRegion(r: DirtyRegion, width: int, height: int, x0: int, y0: int, x1: int, y1: int): (m: DirtyRegion)
    ensures m.Dirty?
    ensures r.Clean? ==> m == ClampRect(width, height, x0, y0, x1, y1)
    ensures Encloses(m, r) && Encloses(m, ClampRect(width, height, x0, y0, x1, y1))
    ensures r.Dirty? && r.x0 >= 0 && r.y0 >= 0 && r.x1 < width && r.y1 < height ==>
              m.x0 >= 0 && m.y0 >= 0 && m.x1 < width && m.y1 < height
  {
    var c := ClampRect(width, height, x0, y0, x1, y1);
    match r
    case Clean => c
    case Dirty(dx0, dy0, dx1, dy1) =>
      Dirty(if c.x0 < dx0 then c.x0 else dx0,
            if c.y0 < dy0 then c.y0 else dy0,
            if c.x1 > dx1 then c.x1 else dx1,
            if c.y1 > dy1 then c.y1 else dy1)
  }

  /** The marked region is the smallest rectangle enclosing both the old region and the clamped mark. */
  lemma MarkRegionIsLeast(r: DirtyRegion, width: int, height: int, x0: int, y0: int, x1: int, y1: int, b: DirtyRegion)
    requires Encloses(b, r) && Encloses(b, ClampRect(width, height, x0, y0, x1, y1))
    ensures Encloses(b, MarkRegion(r, width, height, x0, y0, x1, y1))
  {
  }

  /** MarkRegion, case by case, once the clamped corners are known. */
  lemma MarkRegionUnion(r: DirtyRegion, width: int, height: int, x0: int, y0: int, x1: int, y1: int, cx0: int, cy0: int, cx1: int, cy1: int)
    requires cx0 == (if x0 < 0 then 0 else x0) && cy0 == (if y0 < 0 then 0 else y0)
    requires cx1 == (if x1 >= width then width - 1 else x1) && cy1 == (if y1 >= height then height - 1 else y1)
    ensures r.Clean? ==> MarkRegion(r, width, height, x0, y0, x1, y1) == Dirty(cx0, cy0, cx1, cy1)
    ensures r.Dirty? ==> MarkRegion(r, width, height, x0, y0, x1, y1)
                         == Dirty(if cx0 < r.x0 then cx0 else r.x0, if cy0 < r.y0 then cy0 else r.y0,
                                  if cx1 > r.x1 then cx1 else r.x1, if cy1 > r.y1 then cy1 else r.y1)
  {
  }

  /** Marking the same rectangle twice is the same as marking it once. */
  lemma MarkRegionIdempotent(r: DirtyRegion, width: int, height: int, x0: int, y0: int, x1: int, y1: int)
    ensures MarkRegion(MarkRegion(r, width, height, x0, y0, x1, y1), width, height, x0, y0, x1, y1)
         == MarkRegion(r, width, height, x0, y0, x1, y1)
  {
  }

  /** A marked pixel of the viewport stays covered by the region under every later mark. */
  lemma MarkRegionKeepsCover(r: DirtyRegion, width: int, height: int, x0: int, y0: int, x1: int, y1: int, x: int, y: int)
    requires Covers(r, x, y)
    ensures Covers(MarkRegion(r, width, height, x0, y0, x1, y1), x, y)
  {
  }

  /** The state shared by every emulated controller: configuration, VRAM and dirty tracking. */
  class BaseDevice {
    const config: Config
    const vram: array<byte>
    var dirtyX0: int
    var dirtyY0: int
    var dirtyX1: int
    var dirtyY1: int
    var hasDirty: bool

    ghost predicate Valid()
      reads this
    {
      && config.width > 0 && config.height > 0
      && vram.Length == VramSize(config)
      && (if hasDirty
          then dirtyX0 >= 0 && dirtyY0 >= 0 && dirtyX1 < config.width && dirtyY1 < config.height
          else dirtyX0 == -1 && dirtyY0 == -1 && dirtyX1 == -1 && dirtyY1 == -1)
    }

    /** The dirty tracking fields read as a region. */
    function Region(): DirtyRegion
      reads this
    {
      if hasDirty then Dirty(dirtyX0, dirtyY0, dirtyX1, dirtyY1) else Clean
    }

    /** NewBaseDevice: a device with zeroed VRAM sized for its pixel format and nothing dirty. */
    constructor (config: Config)
      requires config.width > 0 && config.height > 0
      ensures Valid() && fresh(vram)
      ensures this.config == config && Region() == Clean
      ensures vram[..] == seq(VramSize(config), _ => 0)
    {
      this.config := config;
      dirtyX0, dirtyY0, dirtyX1, dirtyY1 := -1, -1, -1, -1;
      hasDirty := false;
      vram := new byte[VramSize(config)](_ => 0);
    }

    function GetFrameBuffer(): (b: array<byte>)
      ensures b == vram
    {
      vram
    }

    /** The bounding box of changed pixels, or four -1 when nothing changed. */
    function GetDirtyRegion(): (r: (int, int, int, int))
      requires Valid()
      reads this
      ensures r.0 == -1 <==> Region().Clean?
      ensures Region().Clean? ==> r == (-1, -1, -1, -1)
      ensures Region().Dirty? ==> r == (Region().x0, Region().y0, Region().x1, Region().y1)
    {
      if !hasDirty then (-1, -1, -1, -1) else (dirtyX0, dirtyY0, dirtyX1, dirtyY1)
    }

    method ClearDirtyRegion()
      requires Valid()
      modifies this
      ensures Valid() && Region() == Clean
    {
      hasDirty := false;
      dirtyX0, dirtyY0, dirtyX1, dirtyY1 := -1, -1, -1, -1;
    }

    /** Grows the dirty region to enclose the rectangle clamped to the viewport. */
    method MarkDirty(x0: int, y0: int, x1: int, y1: int)
      requires Valid()
      modifies this
      ensures Valid()
      ensures Region() == MarkRegion(old(Region()), config.width, config.height, x0, y0, x1, y1)
    {
      ghost var before := Region();
      var cx0, cy0, cx1, cy1 := x0, y0, x1, y1;
      if cx0 < 0 {
        cx0 := 0;
      }
      if cy0 < 0 {
        cy0 := 0;
      }
      if cx1 >= config.width {
        cx1 := config.width - 1;
      }
      if cy1 >= config.height {
        cy1 := config.height - 1;
      }
      MarkRegionUnion(before, config.width, config.height, x0, y0, x1, y1, cx0, cy0, cx1, cy1);
      if !hasDirty {
        dirtyX0, dirtyY0, dirtyX1, dirtyY1 := cx0, cy0, cx1, cy1;
        hasDirty := true;
      } else {
        var nx0, ny0, nx1, ny1 := dirtyX0, dirtyY0, dirtyX1, dirtyY1;
        if cx0 < nx0 {
          nx0 := cx0;
        }
        if cy0 < ny0 {
          ny0 := cy0;
        }
        if cx1 > nx1 {
          nx1 := cx1;
        }
        if cy1 > ny1 {
          ny1 := cy1;
        }
        dirtyX0, dirtyY0, dirtyX1, dirtyY1 := nx0, ny0, nx1, ny1;
      }
    }

    function Width(): (w: int)
      requires Valid()
      reads this
      ensures w == config.width && w > 0
    {
      config.width
    }

    function Height(): (h: int)
      requires Valid()
      reads this
      ensures h == config.height && h > 0
    {
      config.height
    }

    function ColorDepth(): (d: int)
      ensures d == config.colorDepth
    {
      config.colorDepth
    }

    function Format(): (f: PixelFormat)
      ensures f == config.pixelFormat
    {
      config.pixelFormat
    }
  }
}
