/**
 * VRAM addressing and pixel packing for the three pixel formats: 4-bit
 * pixels two to a byte in the 480-column SSD1322 plane, 1-bit pixels eight
 * to a byte stacked vertically, and three bytes per RGB pixel. The
 * methods write an `array<byte>` in place; each is specified by a pure
 * function over the VRAM contents.
 */
module Memory {
  import opened Common
  import opened Arith
  import opened Device
  import opened Regions

  /** A byte offset into VRAM with the nibble (0 low, 1 high) or bit within it. */
  datatype Location = Location(offset: int, sub: int)

  function NibbleOf(b: byte, sub: int): (n: byte)
    ensures n <= 0x0F
  {
    if sub == 0 then b & 0x0F else (b >> 4) & 0x0F
  }

  /** The nibble that shares a byte with nibble `sub`. */
  function Other(sub: int): int {
    if sub == 0 then 1 else 0
  }

  /** `b` with nibble `sub` replaced by the low four bits of `c`. */
  function WithNibble(b: byte, sub: int, c: byte): (r: byte)
    ensures NibbleOf(r, sub) == c & 0x0F
    ensures NibbleOf(r, Other(sub)) == NibbleOf(b, Other(sub))
  {
    if sub == 0 then (b & 0xF0) | (c & 0x0F) else (b & 0x0F) | ((c & 0x0F) << 4)
  }

  /** The mask `1 << k`, spelled out so the solver need not convert `k` to a bit-vector. */
  function Bit(k: int): (m: byte)
    requires 0 <= k < 8
  {
    [0x01, 0x02, 0x04, 0x08, 0x10, 0x20, 0x40, 0x80][k]
  }

  lemma BitIsShift(k: int)
    requires 0 <= k < 8
    ensures Bit(k) == (1 as byte) << k
  {
  }

  function BitOf(b: byte, k: int): (v: byte)
    requires 0 <= k < 8
    ensures v <= 1
  {
    if b & Bit(k) != 0 then 1 else 0
  }

  /** `b` with bit `k` set when `color` is non-zero and cleared otherwise. */
  function WithBit(b: byte, k: int, color: byte): (r: byte)
    requires 0 <= k < 8
    ensures BitOf(r, k) == if color > 0 then 1 else 0
    ensures forall j :: 0 <= j < 8 && j != k ==> BitOf(r, j) == BitOf(b, j)
  {
    forall j | 0 <= j < 8 && j != k
      ensures BitOf(if color > 0 then b | Bit(k) else b & !Bit(k), j) == BitOf(b, j)
    {
      OtherBitKept(b, k, color, j);
    }
    if color > 0 then b | Bit(k) else b & !Bit(k)
  }

  lemma OtherBitKept(b: byte, k: int, color: byte, j: int)
    requires 0 <= k < 8 && 0 <= j < 8 && j != k
    ensures BitOf(if color > 0 then b | Bit(k) else b & !Bit(k), j) == BitOf(b, j)
  {
    MasksDisjoint(k, j);
    var mk, mj := Bit(k), Bit(j);
    assert (b | mk) & mj == b & mj;
    assert (b & !mk) & mj == b & mj;
  }

  lemma MasksDisjoint(k: int, j: int)
    requires 0 <= k < 8 && 0 <= j < 8 && j != k
    ensures Bit(k) & Bit(j) == 0
  {
    var masks: seq<byte> := [0x01, 0x02, 0x04, 0x08, 0x10, 0x20, 0x40, 0x80];
    assert Bit(k) == masks[k] && Bit(j) == masks[j];
    if k == 0 { } else if k == 1 { } else if k == 2 { } else if k == 3 { }
    else if k == 4 { } else if k == 5 { } else if k == 6 { } else { }
  }

  /** Reading slot `lq` after storing a four-bit `pixel` in slot `l`. */
  lemma SlotRead(b: seq<byte>, l: Location, pixel: byte, lq: Location)
    requires 0 <= l.offset < |b| && 0 <= l.sub <= 1 && 0 <= lq.offset < |b| && 0 <= lq.sub <= 1 && pixel <= 0x0F
    ensures NibbleOf(b[l.offset := WithNibble(b[l.offset], l.sub, pixel)][lq.offset], lq.sub)
         == if lq == l then pixel else NibbleOf(b[lq.offset], lq.sub)
  {
    if lq == l {
      assert pixel & 0x0F == pixel;
    } else if lq.offset == l.offset {
      assert lq.sub == Other(l.sub);
    }
  }

  /** Which write routine a fill uses. */
  datatype Packing = Nibbles | Bits

  /** The pixel value a write of `color` leaves behind. */
  function Stored(pk: Packing, color: byte): byte {
    match pk
    case Nibbles => color & 0x0F
    case Bits => if color > 0 then 1 else 0
  }

  /** The VRAM contents a fill leaves, and the error it stopped at. */
  datatype Filled = Filled(vram: seq<byte>, outcome: Outcome)

  /** Which rule ExtractRegionNibble uses to place a pixel in its output buffer. */
  datatype SlotRule =
    | AsWritten   // the nibble is chosen by the column parity alone
    | Linear      // the nibble is chosen by the parity of the row-major index

  /** Length of the buffer ExtractRegionNibble allocates for the inclusive rectangle. */
  function ExtractLength(x0: int, y0: int, x1: int, y1: int): int {
    GoDiv((x1 - x0 + 1) * (y1 - y0 + 1), 2) + 1
  }

  /** Where the pixel at (relX, relY) of a region `w` wide goes in the extracted buffer. */
  function ExtractSlot(rule: SlotRule, relX: int, relY: int, w: int): Location {
    var k := relY * w + relX;
    Location(k / 2, if rule == AsWritten then relX % 2 else k % 2)
  }

  /** The rule never sends two pixels of a region `w` wide to the same nibble. */
  predicate SlotsDistinct(rule: SlotRule, w: int) {
    rule == Linear || w % 2 == 0
  }

  lemma SlotFits(rule: SlotRule, x0: int, y0: int, x1: int, y1: int, p: Point)
    requires InRect(p, x0, y0, x1, y1)
    ensures var l := ExtractSlot(rule, p.x - x0, p.y - y0, x1 - x0 + 1);
            0 <= l.offset < ExtractLength(x0, y0, x1, y1) && 0 <= l.sub <= 1
  {
    var w, h := x1 - x0 + 1, y1 - y0 + 1;
    GridIndexBound(w, h, p.x - x0, p.y - y0);
  }

  /** The as-written rule equals the linear one whenever the region width is even. */
  lemma SlotRulesAgree(relX: int, relY: int, w: int)
    requires 0 <= relX && 0 <= relY && w % 2 == 0
    ensures ExtractSlot(AsWritten, relX, relY, w) == ExtractSlot(Linear, relX, relY, w)
  {
    var half := w / 2;
    assert relY * w == 2 * (relY * half);
  }

  lemma SlotsDistinctHolds(rule: SlotRule, x0: int, y0: int, x1: int, y1: int, p: Point, q: Point)
    requires SlotsDistinct(rule, x1 - x0 + 1)
    requires InRect(p, x0, y0, x1, y1) && InRect(q, x0, y0, x1, y1) && p != q
    ensures ExtractSlot(rule, p.x - x0, p.y - y0, x1 - x0 + 1) != ExtractSlot(rule, q.x - x0, q.y - y0, x1 - x0 + 1)
  {
    var w := x1 - x0 + 1;
    if rule == AsWritten {
      SlotRulesAgree(p.x - x0, p.y - y0, w);
      SlotRulesAgree(q.x - x0, q.y - y0, w);
    }
    if (p.y - y0) * w + (p.x - x0) == (q.y - y0) * w + (q.x - x0) {
      GridIndexInjective(w, p.x - x0, p.y - y0, q.x - x0, q.y - y0);
    }
  }

  /**
   * The packing of one display's VRAM: the plane's size, its format and
   * the column at which the viewport starts in the internal plane.
   */
  datatype MemoryHelper = MemoryHelper(width: int, height: int, pixelFormat: PixelFormat, colOffset: nat) {

    predicate InPlane(x: int, y: int) {
      0 <= x < width && 0 <= y < height
    }

    /** A row of the plane, shifted by the column offset, fits in one internal row. */
    predicate NoWrap() {
      width + colOffset <= InternalColumns
    }

    // ---- 4-bit pixels, two per byte along a 480-column row ----

    function PixelToByteOffsetNibble(x: int, y: int): (r: Result<Location>)
      ensures r.Err? <==> !InPlane(x, y)
      ensures r.Err? ==> r.error == PixelOutOfBounds
      ensures r.Ok? ==> r.value.offset >= 0 && 0 <= r.value.sub <= 1
      ensures r.Ok? ==> 2 * r.value.offset + r.value.sub == y * InternalColumns + x + colOffset
    {
      if x < 0 || x >= width || y < 0 || y >= height then Err(PixelOutOfBounds)
      else Ok(Location((y * InternalColumns + x + colOffset) / 2, (x + colOffset) % 2))
    }

    /** Pixel (x, y) is in the plane and its byte lies inside a VRAM of `size` bytes. */
    predicate NibbleAddressable(size: int, x: int, y: int) {
      PixelToByteOffsetNibble(x, y).Ok? && PixelToByteOffsetNibble(x, y).value.offset < size
    }

    function GetPixelNibble(vram: seq<byte>, x: int, y: int): (r: Result<byte>)
      ensures r.Ok? <==> NibbleAddressable(|vram|, x, y)
      ensures r.Ok? ==> r.value <= 0x0F
      ensures r.Err? ==> r.error == if InPlane(x, y) then VramOutOfBounds else PixelOutOfBounds
    {
      var loc :- PixelToByteOffsetNibble(x, y);
      if loc.offset >= |vram| then Err(VramOutOfBounds) else Ok(NibbleOf(vram[loc.offset], loc.sub))
    }

    /** The VRAM contents after SetPixelNibble. */
    function PutPixelNibble(vram: seq<byte>, x: int, y: int, color: byte): (r: Result<seq<byte>>)
      ensures r.Ok? <==> NibbleAddressable(|vram|, x, y)
      ensures r.Err? ==> r.error == if InPlane(x, y) then VramOutOfBounds else PixelOutOfBounds
      ensures r.Ok? ==> |r.value| == |vram| && GetPixelNibble(r.value, x, y) == Ok(color & 0x0F)
    {
      var loc :- PixelToByteOffsetNibble(x, y);
      if loc.offset >= |vram| then Err(VramOutOfBounds)
      else Ok(vram[loc.offset := WithNibble(vram[loc.offset], loc.sub, color)])
    }

    /** A nibble write changes one byte of VRAM, and only the addressed half of it. */
    lemma NibbleWriteFrame(vram: seq<byte>, x: int, y: int, color: byte, loc: Location)
      requires PutPixelNibble(vram, x, y, color).Ok? && loc == PixelToByteOffsetNibble(x, y).value
      ensures forall j :: 0 <= j < |vram| && j != loc.offset ==> PutPixelNibble(vram, x, y, color).value[j] == vram[j]
      ensures NibbleOf(PutPixelNibble(vram, x, y, color).value[loc.offset], Other(loc.sub)) == NibbleOf(vram[loc.offset], Other(loc.sub))
    {
    }

    method SetPixelNibble(vram: array<byte>, x: int, y: int, color: byte) returns (e: Outcome)
      modifies vram
      ensures match PutPixelNibble(old(vram[..]), x, y, color)
              case Ok(s) => e == Pass && vram[..] == s
              case Err(err) => e == Fail(err) && vram[..] == old(vram[..])
    {
      var r := PixelToByteOffsetNibble(x, y);
      if r.Err? {
        return Fail(r.error);
      }
      var byteOffset, nibbleIndex := r.value.offset, r.value.sub;
      if byteOffset >= vram.Length {
        return Fail(VramOutOfBounds);
      }
      assert PutPixelNibble(old(vram[..]), x, y, color) == Ok(old(vram[..])[byteOffset := WithNibble(old(vram[byteOffset]), nibbleIndex, color)]);
      var c := color & 0x0F;
      if nibbleIndex == 0 {
        vram[byteOffset] := (vram[byteOffset] & 0xF0) | c;
      } else {
        vram[byteOffset] := (vram[byteOffset] & 0x0F) | (c << 4);
      }
      return Pass;
    }

    /** With no wrap, every pixel of the plane lies inside the 480-column VRAM. */
    lemma NibbleOffsetFits(x: int, y: int)
      requires NoWrap() && InPlane(x, y)
      ensures NibbleAddressable(InternalColumns * height / 2, x, y)
    {
      assert y * InternalColumns + x + colOffset <= (height - 1) * InternalColumns + InternalColumns - 1;
    }

    /** With no wrap, distinct pixels of the plane have distinct nibbles. */
    lemma NibbleSlotsDistinct(x: int, y: int, x': int, y': int)
      requires NoWrap() && InPlane(x, y) && InPlane(x', y') && Point(x, y) != Point(x', y')
      ensures PixelToByteOffsetNibble(x, y).value != PixelToByteOffsetNibble(x', y').value
    {
      if y * InternalColumns + x + colOffset == y' * InternalColumns + x' + colOffset {
        GridIndexInjective(InternalColumns, x + colOffset, y, x' + colOffset, y');
      }
    }

    /** Writing one pixel leaves every other pixel of the plane as it was. */
    lemma NibbleWriteIsolated(vram: seq<byte>, x: int, y: int, color: byte, x': int, y': int)
      requires NoWrap() && PutPixelNibble(vram, x, y, color).Ok?
      requires InPlane(x', y') && Point(x', y') != Point(x, y)
      ensures GetPixelNibble(PutPixelNibble(vram, x, y, color).value, x', y') == GetPixelNibble(vram, x', y')
    {
      NibbleSlotsDistinct(x, y, x', y');
      NibbleWriteFrame(vram, x, y, color, PixelToByteOffsetNibble(x, y).value);
    }

    // ---- 1-bit pixels, eight per byte stacked down a column ----

    /** Bytes per column of the vertically packed plane. */
    function VerticalStride(): int {
      (height + 7) / 8
    }

    function PixelToByteOffsetVertical(x: int, y: int): (r: Result<Location>)
      ensures r.Err? <==> !InPlane(x, y)
      ensures r.Err? ==> r.error == PixelOutOfBounds
      ensures r.Ok? ==> r.value.offset >= 0 && 0 <= r.value.sub < 8
      ensures r.Ok? ==> r.value.offset / VerticalStride() == x
      ensures r.Ok? ==> (r.value.offset % VerticalStride()) * 8 + r.value.sub == y
    {
      if x < 0 || x >= width || y < 0 || y >= height then Err(PixelOutOfBounds)
      else
        DivModUnique(x * VerticalStride() + y / 8, VerticalStride(), x, y / 8);
        MulNonNegative(x, VerticalStride());
        Ok(Location(x * VerticalStride() + y / 8, y % 8))
    }

    predicate VerticalAddressable(size: int, x: int, y: int) {
      PixelToByteOffsetVertical(x, y).Ok? && PixelToByteOffsetVertical(x, y).value.offset < size
    }

    function GetPixelVertical(vram: seq<byte>, x: int, y: int): (r: Result<byte>)
      ensures r.Ok? <==> VerticalAddressable(|vram|, x, y)
      ensures r.Ok? ==> r.value <= 1
      ensures r.Err? ==> r.error == if InPlane(x, y) then VramOutOfBounds else PixelOutOfBounds
    {
      var loc :- PixelToByteOffsetVertical(x, y);
      if loc.offset >= |vram| then Err(VramOutOfBounds) else Ok(BitOf(vram[loc.offset], loc.sub))
    }

    /** The VRAM contents after SetPixelVertical. */
    function PutPixelVertical(vram: seq<byte>, x: int, y: int, color: byte): (r: Result<seq<byte>>)
      ensures r.Ok? <==> VerticalAddressable(|vram|, x, y)
      ensures r.Err? ==> r.error == if InPlane(x, y) then VramOutOfBounds else PixelOutOfBounds
      ensures r.Ok? ==> |r.value| == |vram| && GetPixelVertical(r.value, x, y) == Ok(if color > 0 then 1 else 0)
      ensures r.Ok? ==>
                var loc := PixelToByteOffsetVertical(x, y).value;
                && (forall j :: 0 <= j < |vram| && j != loc.offset ==> r.value[j] == vram[j])
                && (forall k :: 0 <= k < 8 && k != loc.sub ==> BitOf(r.value[loc.offset], k) == BitOf(vram[loc.offset], k))
    {
      var loc :- PixelToByteOffsetVertical(x, y);
      if loc.offset >= |vram| then Err(VramOutOfBounds)
      else Ok(vram[loc.offset := WithBit(vram[loc.offset], loc.sub, color)])
    }

    method SetPixelVertical(vram: array<byte>, x: int, y: int, color: byte) returns (e: Outcome)
      modifies vram
      ensures match PutPixelVertical(old(vram[..]), x, y, color)
              case Ok(s) => e == Pass && vram[..] == s
              case Err(err) => e == Fail(err) && vram[..] == old(vram[..])
    {
      var r := PixelToByteOffsetVertical(x, y);
      if r.Err? {
        return Fail(r.error);
      }
      var byteOffset, bitOffset := r.value.offset, r.value.sub;
      if byteOffset >= vram.Length {
        return Fail(VramOutOfBounds);
      }
      assert PutPixelVertical(old(vram[..]), x, y, color) == Ok(old(vram[..])[byteOffset := WithBit(old(vram[byteOffset]), bitOffset, color)]);
      if color > 0 {
        vram[byteOffset] := vram[byteOffset] | Bit(bitOffset);
      } else {
        vram[byteOffset] := vram[byteOffset] & !Bit(bitOffset);
      }
      return Pass;
    }

    /** Every pixel of the plane lies inside a VRAM of `width * stride` bytes. */
    lemma VerticalOffsetFits(x: int, y: int)
      requires InPlane(x, y)
      ensures VerticalAddressable(width * VerticalStride(), x, y)
    {
      MulMonotone(x, width - 1, VerticalStride());
      assert (width - 1) * VerticalStride() + VerticalStride() == width * VerticalStride();
    }

    lemma VerticalWriteIsolated(vram: seq<byte>, x: int, y: int, color: byte, x': int, y': int)
      requires PutPixelVertical(vram, x, y, color).Ok?
      requires InPlane(x', y') && Point(x', y') != Point(x, y)
      ensures GetPixelVertical(PutPixelVertical(vram, x, y, color).value, x', y') == GetPixelVertical(vram, x', y')
    {
    }

    // ---- 24-bit pixels, three bytes each ----

    function RGBOffset(x: int, y: int): int {
      (y * width + x) * 3
    }

    predicate RGBAddressable(size: int, x: int, y: int) {
      InPlane(x, y) && RGBOffset(x, y) + 2 < size
    }

    function GetPixelRGB888(vram: seq<byte>, x: int, y: int): (r: Result<(byte, byte, byte)>)
      ensures r.Ok? <==> RGBAddressable(|vram|, x, y)
      ensures r.Err? ==> r.error == if InPlane(x, y) then VramOutOfBounds else PixelOutOfBounds
    {
      if x < 0 || x >= width || y < 0 || y >= height then Err(PixelOutOfBounds)
      else
        var offset := RGBOffset(x, y);
        if offset + 2 >= |vram| then Err(VramOutOfBounds)
        else
          MulNonNegative(y, width);
          Ok((vram[offset], vram[offset + 1], vram[offset + 2]))
    }

    /** The VRAM contents after SetPixelRGB888. */
    function PutPixelRGB888(vram: seq<byte>, x: int, y: int, red: byte, green: byte, blue: byte): (r: Result<seq<byte>>)
      ensures r.Ok? <==> RGBAddressable(|vram|, x, y)
      ensures r.Err? ==> r.error == if InPlane(x, y) then VramOutOfBounds else PixelOutOfBounds
      ensures r.Ok? ==> |r.value| == |vram| && GetPixelRGB888(r.value, x, y) == Ok((red, green, blue))
      ensures r.Ok? ==> forall j :: 0 <= j < |vram| && !(RGBOffset(x, y) <= j < RGBOffset(x, y) + 3) ==> r.value[j] == vram[j]
    {
      if x < 0 || x >= width || y < 0 || y >= height then Err(PixelOutOfBounds)
      else
        var offset := RGBOffset(x, y);
        if offset + 2 >= |vram| then Err(VramOutOfBounds)
        else
          MulNonNegative(y, width);
          Ok(vram[offset := red][offset + 1 := green][offset + 2 := blue])
    }

    method SetPixelRGB888(vram: array<byte>, x: int, y: int, red: byte, green: byte, blue: byte) returns (e: Outcome)
      modifies vram
      ensures match PutPixelRGB888(old(vram[..]), x, y, red, green, blue)
              case Ok(s) => e == Pass && vram[..] == s
              case Err(err) => e == Fail(err) && vram[..] == old(vram[..])
    {
      if x < 0 || x >= width || y < 0 || y >= height {
        return Fail(PixelOutOfBounds);
      }
      var offset := (y * width + x) * 3;
      if offset + 2 >= vram.Length {
        return Fail(VramOutOfBounds);
      }
      MulNonNegative(y, width);
      assert PutPixelRGB888(old(vram[..]), x, y, red, green, blue) == Ok(old(vram[..])[offset := red][offset + 1 := green][offset + 2 := blue]);
      vram[offset] := red;
      vram[offset + 1] := green;
      vram[offset + 2] := blue;
      return Pass;
    }

    /** Every pixel of the plane lies inside a VRAM of `width * height * 3` bytes. */
    lemma RGBOffsetFits(x: int, y: int)
      requires InPlane(x, y)
      ensures RGBAddressable(width * height * 3, x, y)
    {
      GridIndexBound(width, height, x, y);
    }

    lemma RGBWriteIsolated(vram: seq<byte>, x: int, y: int, red: byte, green: byte, blue: byte, x': int, y': int)
      requires PutPixelRGB888(vram, x, y, red, green, blue).Ok?
      requires InPlane(x', y') && Point(x', y') != Point(x, y)
      ensures GetPixelRGB888(PutPixelRGB888(vram, x, y, red, green, blue).value, x', y') == GetPixelRGB888(vram, x', y')
    {
      var i, i' := y * width + x, y' * width + x';
      if i == i' {
        GridIndexInjective(width, x, y, x', y');
      }
      assert i' + 1 <= i || i + 1 <= i';
      assert RGBOffset(x', y') + 3 <= RGBOffset(x, y) || RGBOffset(x, y) + 3 <= RGBOffset(x', y');
      var v := PutPixelRGB888(vram, x, y, red, green, blue).value;
      assert |v| == |vram|;
      if RGBAddressable(|vram|, x', y') {
        var o, o' := RGBOffset(x, y), RGBOffset(x', y');
        assert 0 <= i' by {
          MulNonNegative(y', width);
        }
        assert 0 <= o' && o' + 2 < |vram|;
        assert !(o <= o' < o + 3) && !(o <= o' + 1 < o + 3) && !(o <= o' + 2 < o + 3);
        assert v[o'] == vram[o'];
        assert v[o' + 1] == vram[o' + 1];
        assert v[o' + 2] == vram[o' + 2];
      }
    }

    // ---- region fills ----

    /** The pixel value a fill reads back in the given packing. */
    function Read(pk: Packing, vram: seq<byte>, p: Point): Result<byte> {
      match pk
      case Nibbles => GetPixelNibble(vram, p.x, p.y)
      case Bits => GetPixelVertical(vram, p.x, p.y)
    }

    function Put(pk: Packing, vram: seq<byte>, p: Point, color: byte): (r: Result<seq<byte>>)
      ensures r.Ok? ==> |r.value| == |vram|
    {
      match pk
      case Nibbles => PutPixelNibble(vram, p.x, p.y, color)
      case Bits => PutPixelVertical(vram, p.x, p.y, color)
    }

    /** The VRAM size the device allocates for the packing makes every pixel of the plane writable. */
    predicate Sized(pk: Packing, size: int) {
      match pk
      case Nibbles => NoWrap() && size == InternalColumns * height / 2
      case Bits => size == width * VerticalStride()
    }

    lemma PutSucceeds(pk: Packing, vram: seq<byte>, p: Point, color: byte)
      requires Sized(pk, |vram|) && InPlane(p.x, p.y)
      ensures Put(pk, vram, p, color).Ok?
      ensures Read(pk, Put(pk, vram, p, color).value, p) == Ok(Stored(pk, color))
    {
      match pk
      case Nibbles => NibbleOffsetFits(p.x, p.y);
      case Bits => VerticalOffsetFits(p.x, p.y);
    }

    lemma PutIsolated(pk: Packing, vram: seq<byte>, p: Point, color: byte, q: Point)
      requires Sized(pk, |vram|) && Put(pk, vram, p, color).Ok? && InPlane(q.x, q.y) && q != p
      ensures Read(pk, Put(pk, vram, p, color).value, q) == Read(pk, vram, q)
    {
      match pk
      case Nibbles => NibbleWriteIsolated(vram, p.x, p.y, color, q.x, q.y);
      case Bits => VerticalWriteIsolated(vram, p.x, p.y, color, q.x, q.y);
    }

    /** The writes of a fill over `pts` in order, stopping at the first that fails. */
    function WriteRun(pk: Packing, vram: seq<byte>, pts: seq<Point>, color: byte): (f: Filled)
      ensures |f.vram| == |vram|
      decreases |pts|
    {
      if pts == [] then Filled(vram, Pass)
      else
        var f := WriteRun(pk, vram, pts[..|pts| - 1], color);
        if f.outcome.Fail? then f
        else match Put(pk, f.vram, pts[|pts| - 1], color)
          case Ok(s) => Filled(s, Pass)
          case Err(e) => Filled(f.vram, Fail(e))
    }

    /** One more point of a fill that has not failed yet. */
    lemma WriteRunStep(pk: Packing, vram: seq<byte>, pre: seq<Point>, p: Point, color: byte)
      requires WriteRun(pk, vram, pre, color).outcome == Pass
      ensures WriteRun(pk, vram, pre + [p], color)
           == match Put(pk, WriteRun(pk, vram, pre, color).vram, p, color)
              case Ok(s) => Filled(s, Pass)
              case Err(e) => Filled(WriteRun(pk, vram, pre, color).vram, Fail(e))
    {
      assert (pre + [p])[..|pre|] == pre;
    }

    /** Once a fill has failed, the points after the failure change nothing. */
    lemma {:induction false} WriteRunAbsorbs(pk: Packing, vram: seq<byte>, pts: seq<Point>, more: seq<Point>, color: byte)
      requires pts <= more && WriteRun(pk, vram, pts, color).outcome.Fail?
      ensures WriteRun(pk, vram, more, color) == WriteRun(pk, vram, pts, color)
      decreases |more|
    {
      if |more| > |pts| {
        assert pts <= more[..|more| - 1];
        WriteRunAbsorbs(pk, vram, pts, more[..|more| - 1], color);
      } else {
        assert pts == more;
      }
    }

    /** A fill stops at its first failing pixel; the pixels written before it stay written. */
    lemma WriteRunFirstError(pk: Packing, vram: seq<byte>, pts: seq<Point>, k: int, color: byte)
      requires 0 <= k < |pts|
      requires WriteRun(pk, vram, pts[..k], color).outcome == Pass
      requires Put(pk, WriteRun(pk, vram, pts[..k], color).vram, pts[k], color).Err?
      ensures WriteRun(pk, vram, pts, color)
           == Filled(WriteRun(pk, vram, pts[..k], color).vram,
                     Fail(Put(pk, WriteRun(pk, vram, pts[..k], color).vram, pts[k], color).error))
    {
      assert pts[..k + 1][..k] == pts[..k];
      WriteRunAbsorbs(pk, vram, pts[..k + 1], pts, color);
    }

    /** A fill over points of the plane succeeds and leaves exactly those pixels at the fill value. */
    lemma {:induction false} WriteRunReadsBack(pk: Packing, vram: seq<byte>, pts: seq<Point>, color: byte, q: Point)
      requires Sized(pk, |vram|)
      requires forall p :: p in pts ==> InPlane(p.x, p.y)
      requires InPlane(q.x, q.y)
      ensures WriteRun(pk, vram, pts, color).outcome == Pass
      ensures Read(pk, WriteRun(pk, vram, pts, color).vram, q) == if q in pts then Ok(Stored(pk, color)) else Read(pk, vram, q)
      decreases |pts|
    {
      if pts != [] {
        var pre, last := pts[..|pts| - 1], pts[|pts| - 1];
        assert pts == pre + [last];
        WriteRunReadsBack(pk, vram, pre, color, q);
        var f := WriteRun(pk, vram, pre, color);
        PutSucceeds(pk, f.vram, last, color);
        if q != last {
          PutIsolated(pk, f.vram, last, color, q);
        }
      }
    }

    /** A fill of a rectangle inside the plane succeeds, sets the rectangle and keeps every other pixel. */
    lemma FillReadsBack(pk: Packing, vram: seq<byte>, x0: int, y0: int, x1: int, y1: int, color: byte, q: Point)
      requires Sized(pk, |vram|)
      requires 0 <= x0 && x1 < width && 0 <= y0 && y1 < height
      requires InPlane(q.x, q.y)
      ensures WriteRun(pk, vram, RowMajor(x0, y0, x1, y1), color).outcome == Pass
      ensures Read(pk, WriteRun(pk, vram, RowMajor(x0, y0, x1, y1), color).vram, q)
           == if InRect(q, x0, y0, x1, y1) then Ok(Stored(pk, color)) else Read(pk, vram, q)
    {
      RowMajorMembers(x0, y0, x1, y1);
      WriteRunReadsBack(pk, vram, RowMajor(x0, y0, x1, y1), color, q);
    }

    /** Fills the inclusive rectangle with the low four bits of `color`, stopping at the first error. */
    method FillRegionNibble(vram: array<byte>, x0: int, y0: int, x1: int, y1: int, color: byte) returns (e: Outcome)
      modifies vram
      ensures Filled(vram[..], e) == WriteRun(Nibbles, old(vram[..]), RowMajor(x0, y0, x1, y1), color & 0x0F)
    {
      var c := color & 0x0F;
      e := FillRegion(Nibbles, vram, x0, y0, x1, y1, c);
    }

    /** Fills the inclusive rectangle with bits set or cleared by `color`, stopping at the first error. */
    method FillRegionVertical(vram: array<byte>, x0: int, y0: int, x1: int, y1: int, color: byte) returns (e: Outcome)
      modifies vram
      ensures Filled(vram[..], e) == WriteRun(Bits, old(vram[..]), RowMajor(x0, y0, x1, y1), color)
    {
      e := FillRegion(Bits, vram, x0, y0, x1, y1, color);
    }

    /** SetPixelNibble or SetPixelVertical at one more point of a fill. */
    method FillPixel(pk: Packing, vram: array<byte>, x: int, y: int, color: byte, ghost start: seq<byte>, ghost pre: seq<Point>)
      returns (e: Outcome)
      requires WriteRun(pk, start, pre, color) == Filled(vram[..], Pass)
      modifies vram
      ensures WriteRun(pk, start, pre + [Point(x, y)], color) == Filled(vram[..], e)
    {
      WriteRunStep(pk, start, pre, Point(x, y), color);
      if pk == Nibbles {
        e := SetPixelNibble(vram, x, y, color);
      } else {
        e := SetPixelVertical(vram, x, y, color);
      }
    }

    /** The nested loops shared by both fill routines. */
    method FillRegion(pk: Packing, vram: array<byte>, x0: int, y0: int, x1: int, y1: int, color: byte) returns (e: Outcome)
      modifies vram
      ensures Filled(vram[..], e) == WriteRun(pk, old(vram[..]), RowMajor(x0, y0, x1, y1), color)
    {
      ghost var start := vram[..];
      ghost var done: seq<Point> := [];
      var y := y0;
      while y <= y1
        invariant y == y0 || y0 <= y <= y1 + 1
        invariant done == Rows(x0, x1, y0, y)
        invariant WriteRun(pk, start, done, color) == Filled(vram[..], Pass)
      {
        e := FillRow(pk, vram, x0, x1, y, color, start, done);
        RowsStep(x0, x1, y0, y);
        done := done + Span(x0, x1 + 1, y);
        if e.Fail? {
          RegionAbsorbs(pk, start, x0, y0, x1, y1, y, color);
          return e;
        }
        y := y + 1;
      }
      RowsDone(x0, x1, y0, y1, y);
      return Pass;
    }

    /** A failure in row y of a rectangle decides the outcome of the whole rectangle. */
    lemma RegionAbsorbs(pk: Packing, start: seq<byte>, x0: int, y0: int, x1: int, y1: int, y: int, color: byte)
      requires y0 <= y <= y1 && WriteRun(pk, start, Rows(x0, x1, y0, y + 1), color).outcome.Fail?
      ensures WriteRun(pk, start, RowMajor(x0, y0, x1, y1), color) == WriteRun(pk, start, Rows(x0, x1, y0, y + 1), color)
    {
      RowsPrefix(x0, x1, y0, y + 1, y1 + 1);
      WriteRunAbsorbs(pk, start, Rows(x0, x1, y0, y + 1), RowMajor(x0, y0, x1, y1), color);
    }

    /** A failure at column x of a row decides the outcome of the whole row. */
    lemma RowAbsorbs(pk: Packing, start: seq<byte>, pre: seq<Point>, x0: int, x: int, x1: int, y: int, color: byte)
      requires x0 <= x <= x1 && WriteRun(pk, start, pre + Span(x0, x + 1, y), color).outcome.Fail?
      ensures WriteRun(pk, start, pre + Span(x0, x1 + 1, y), color) == WriteRun(pk, start, pre + Span(x0, x + 1, y), color)
    {
      SpanPrefix(x0, x + 1, x1 + 1, y);
      PrefixAppend(pre, Span(x0, x + 1, y), Span(x0, x1 + 1, y));
      WriteRunAbsorbs(pk, start, pre + Span(x0, x + 1, y), pre + Span(x0, x1 + 1, y), color);
    }

    /** The inner loop of a fill: row `y` from x0 to x1, after the points `pre`. */
    method FillRow(pk: Packing, vram: array<byte>, x0: int, x1: int, y: int, color: byte, ghost start: seq<byte>, ghost pre: seq<Point>)
      returns (e: Outcome)
      requires WriteRun(pk, start, pre, color) == Filled(vram[..], Pass)
      modifies vram
      ensures WriteRun(pk, start, pre + Span(x0, x1 + 1, y), color) == Filled(vram[..], e)
    {
      var x := x0;
      assert pre + Span(x0, x, y) == pre;
      while x <= x1
        invariant x == x0 || x0 <= x <= x1 + 1
        invariant WriteRun(pk, start, pre + Span(x0, x, y), color) == Filled(vram[..], Pass)
      {
        var err := FillPixel(pk, vram, x, y, color, start, pre + Span(x0, x, y));
        SpanStep(pre, x0, x, y);
        if err.Fail? {
          RowAbsorbs(pk, start, pre, x0, x, x1, y, color);
          return err;
        }
        x := x + 1;
      }
      assert Span(x0, x, y) == Span(x0, x1 + 1, y);
      return Pass;
    }

    // ---- region extraction ----

    /** The extracted buffer after packing the region pixels `pts`, or the first read error. */
    function Pack(rule: SlotRule, vram: seq<byte>, x0: int, y0: int, x1: int, y1: int, buf: seq<byte>, pts: seq<Point>): (r: Result<seq<byte>>)
      requires |buf| == ExtractLength(x0, y0, x1, y1)
      ensures r.Ok? ==> |r.value| == |buf|
      decreases |pts|
    {
      if pts == [] then Ok(buf)
      else
        var pre, p := pts[..|pts| - 1], pts[|pts| - 1];
        assert pts == pre + [p];
        var b :- Pack(rule, vram, x0, y0, x1, y1, buf, pre);
        var pixel :- GetPixelNibble(vram, p.x, p.y);
        var l := ExtractSlot(rule, p.x - x0, p.y - y0, x1 - x0 + 1);
        // the loops visit no point outside the rectangle
        if !InRect(p, x0, y0, x1, y1) then Ok(b)
        else
          SlotFits(rule, x0, y0, x1, y1, p);
          Ok(b[l.offset := WithNibble(b[l.offset], l.sub, pixel)])
    }

    /** What ExtractRegionNibble returns for the inclusive rectangle under a slot rule. */
    function Extract(rule: SlotRule, vram: seq<byte>, x0: int, y0: int, x1: int, y1: int): (r: Result<seq<byte>>)
      requires ExtractLength(x0, y0, x1, y1) >= 0
      ensures r.Ok? ==> |r.value| == ExtractLength(x0, y0, x1, y1)
    {
      Pack(rule, vram, x0, y0, x1, y1, seq(ExtractLength(x0, y0, x1, y1), _ => 0), RowMajor(x0, y0, x1, y1))
    }

    /** Extraction fails exactly when some pixel of the rectangle cannot be read. */
    lemma ExtractOk(rule: SlotRule, vram: seq<byte>, x0: int, y0: int, x1: int, y1: int)
      requires ExtractLength(x0, y0, x1, y1) >= 0
      ensures Extract(rule, vram, x0, y0, x1, y1).Ok? <==> Readable(vram, x0, y0, x1, y1)
    {
      RowMajorMembers(x0, y0, x1, y1);
      PackOk(rule, vram, x0, y0, x1, y1, seq(ExtractLength(x0, y0, x1, y1), _ => 0), RowMajor(x0, y0, x1, y1));
    }

    /** Packing succeeds exactly when every visited pixel can be read. */
    lemma {:induction false} PackOk(rule: SlotRule, vram: seq<byte>, x0: int, y0: int, x1: int, y1: int, buf: seq<byte>, pts: seq<Point>)
      requires |buf| == ExtractLength(x0, y0, x1, y1)
      ensures Pack(rule, vram, x0, y0, x1, y1, buf, pts).Ok? <==> forall p :: p in pts ==> GetPixelNibble(vram, p.x, p.y).Ok?
      decreases |pts|
    {
      if pts != [] {
        assert pts == pts[..|pts| - 1] + [pts[|pts| - 1]];
        PackOk(rule, vram, x0, y0, x1, y1, buf, pts[..|pts| - 1]);
      }
    }

    /** Every pixel of the inclusive rectangle can be read. */
    ghost predicate Readable(vram: seq<byte>, x0: int, y0: int, x1: int, y1: int) {
      forall p :: InRect(p, x0, y0, x1, y1) ==> GetPixelNibble(vram, p.x, p.y).Ok?
    }

    /** One more pixel packed into a buffer whose earlier reads all succeeded. */
    lemma PackStep(rule: SlotRule, vram: seq<byte>, x0: int, y0: int, x1: int, y1: int, buf: seq<byte>, pre: seq<Point>, p: Point)
      requires |buf| == ExtractLength(x0, y0, x1, y1)
      requires InRect(p, x0, y0, x1, y1)
      requires Pack(rule, vram, x0, y0, x1, y1, buf, pre).Ok?
      ensures var l := ExtractSlot(rule, p.x - x0, p.y - y0, x1 - x0 + 1);
              var b := Pack(rule, vram, x0, y0, x1, y1, buf, pre).value;
              0 <= l.offset < |b| &&
              Pack(rule, vram, x0, y0, x1, y1, buf, pre + [p])
                == match GetPixelNibble(vram, p.x, p.y)
                   case Ok(pixel) => Ok(b[l.offset := WithNibble(b[l.offset], l.sub, pixel)])
                   case Err(e) => Err(e)
    {
      assert (pre + [p])[..|pre|] == pre;
      SlotFits(rule, x0, y0, x1, y1, p);
    }

    /** PackStep for a pixel already read, with its slot and the buffer so far named by the caller. */
    lemma PackPixel(rule: SlotRule, vram: seq<byte>, x0: int, y0: int, x1: int, y1: int, buf: seq<byte>, pre: seq<Point>, p: Point,
                    b: seq<byte>, l: Location, pixel: byte)
      requires |buf| == ExtractLength(x0, y0, x1, y1)
      requires InRect(p, x0, y0, x1, y1)
      requires Pack(rule, vram, x0, y0, x1, y1, buf, pre) == Ok(b)
      requires GetPixelNibble(vram, p.x, p.y) == Ok(pixel)
      requires l == ExtractSlot(rule, p.x - x0, p.y - y0, x1 - x0 + 1)
      ensures 0 <= l.offset < |b| && 0 <= l.sub <= 1
      ensures Pack(rule, vram, x0, y0, x1, y1, buf, pre + [p]) == Ok(b[l.offset := WithNibble(b[l.offset], l.sub, pixel)])
    {
      PackStep(rule, vram, x0, y0, x1, y1, buf, pre, p);
      SlotFits(rule, x0, y0, x1, y1, p);
    }

    /** Copies the inclusive rectangle into a new nibble-packed buffer, or fails on the first unreadable pixel. */
    method ExtractRegionNibble(vram: seq<byte>, x0: int, y0: int, x1: int, y1: int) returns (r: Result<seq<byte>>)
      requires ExtractLength(x0, y0, x1, y1) >= 0
      ensures r == Extract(AsWritten, vram, x0, y0, x1, y1)
    {
      var extracted := new byte[ExtractLength(x0, y0, x1, y1)](_ => 0);
      ghost var buf := extracted[..];
      assert buf == seq(ExtractLength(x0, y0, x1, y1), _ => 0);
      ghost var done: seq<Point> := [];
      var y := y0;
      while y <= y1
        invariant y == y0 || y0 <= y <= y1 + 1
        invariant done == Rows(x0, x1, y0, y)
        invariant Pack(AsWritten, vram, x0, y0, x1, y1, buf, done) == Ok(extracted[..])
      {
        var err := PackRow(vram, x0, y0, x1, y1, y, extracted, buf, done);
        RowsStep(x0, x1, y0, y);
        done := done + Span(x0, x1 + 1, y);
        if err.Fail? {
          PackRegionAbsorbs(vram, x0, y0, x1, y1, buf, y);
          return Err(err.error);
        }
        y := y + 1;
      }
      RowsDone(x0, x1, y0, y1, y);
      return Ok(extracted[..]);
    }

    /** A read failure in row y of a rectangle decides the outcome of the whole extraction. */
    lemma PackRegionAbsorbs(vram: seq<byte>, x0: int, y0: int, x1: int, y1: int, buf: seq<byte>, y: int)
      requires |buf| == ExtractLength(x0, y0, x1, y1)
      requires y0 <= y <= y1 && Pack(AsWritten, vram, x0, y0, x1, y1, buf, Rows(x0, x1, y0, y + 1)).Err?
      ensures Pack(AsWritten, vram, x0, y0, x1, y1, buf, RowMajor(x0, y0, x1, y1))
           == Pack(AsWritten, vram, x0, y0, x1, y1, buf, Rows(x0, x1, y0, y + 1))
    {
      RowsPrefix(x0, x1, y0, y + 1, y1 + 1);
      PackAbsorbs(AsWritten, vram, x0, y0, x1, y1, buf, Rows(x0, x1, y0, y + 1), RowMajor(x0, y0, x1, y1));
    }

    /** The inner loop of ExtractRegionNibble: row `y`, after the points `pre`. */
    method PackRow(vram: seq<byte>, x0: int, y0: int, x1: int, y1: int, y: int, extracted: array<byte>, ghost buf: seq<byte>, ghost pre: seq<Point>)
      returns (e: Outcome)
      requires |buf| == ExtractLength(x0, y0, x1, y1) == extracted.Length
      requires y0 <= y <= y1
      requires Pack(AsWritten, vram, x0, y0, x1, y1, buf, pre) == Ok(extracted[..])
      modifies extracted
      ensures e.Pass? ==> Pack(AsWritten, vram, x0, y0, x1, y1, buf, pre + Span(x0, x1 + 1, y)) == Ok(extracted[..])
      ensures e.Fail? ==> Pack(AsWritten, vram, x0, y0, x1, y1, buf, pre + Span(x0, x1 + 1, y)) == Err(e.error)
    {
      var x := x0;
      ghost var done := pre;
      assert pre + Span(x0, x, y) == pre;
      while x <= x1
        invariant x == x0 || x0 <= x <= x1 + 1
        invariant done == pre + Span(x0, x, y)
        invariant Pack(AsWritten, vram, x0, y0, x1, y1, buf, done) == Ok(extracted[..])
      {
        e := PackPixelAt(vram, x0, y0, x1, y1, x, y, extracted, buf, done);
        SpanStep(pre, x0, x, y);
        done := done + [Point(x, y)];
        if e.Fail? {
          PackRowAbsorbs(vram, x0, y0, x1, y1, buf, pre, x, y);
          return e;
        }
        x := x + 1;
      }
      assert Span(x0, x, y) == Span(x0, x1 + 1, y);
      return Pass;
    }

    /** A read failure at column x of a row decides the packing of the whole row. */
    lemma PackRowAbsorbs(vram: seq<byte>, x0: int, y0: int, x1: int, y1: int, buf: seq<byte>, pre: seq<Point>, x: int, y: int)
      requires |buf| == ExtractLength(x0, y0, x1, y1)
      requires x0 <= x <= x1 && Pack(AsWritten, vram, x0, y0, x1, y1, buf, pre + Span(x0, x + 1, y)).Err?
      ensures Pack(AsWritten, vram, x0, y0, x1, y1, buf, pre + Span(x0, x1 + 1, y))
           == Pack(AsWritten, vram, x0, y0, x1, y1, buf, pre + Span(x0, x + 1, y))
    {
      SpanPrefix(x0, x + 1, x1 + 1, y);
      PrefixAppend(pre, Span(x0, x + 1, y), Span(x0, x1 + 1, y));
      PackAbsorbs(AsWritten, vram, x0, y0, x1, y1, buf, pre + Span(x0, x + 1, y), pre + Span(x0, x1 + 1, y));
    }

    /** The body of ExtractRegionNibble's inner loop: read pixel (x, y) and store it in its slot. */
    method PackPixelAt(vram: seq<byte>, x0: int, y0: int, x1: int, y1: int, x: int, y: int, extracted: array<byte>, ghost buf: seq<byte>, ghost done: seq<Point>)
      returns (e: Outcome)
      requires |buf| == ExtractLength(x0, y0, x1, y1) == extracted.Length
      requires x0 <= x <= x1 && y0 <= y <= y1
      requires Pack(AsWritten, vram, x0, y0, x1, y1, buf, done) == Ok(extracted[..])
      modifies extracted
      ensures e.Pass? ==> Pack(AsWritten, vram, x0, y0, x1, y1, buf, done + [Point(x, y)]) == Ok(extracted[..])
      ensures e.Fail? ==> Pack(AsWritten, vram, x0, y0, x1, y1, buf, done + [Point(x, y)]) == Err(e.error)
    {
      var pixel := GetPixelNibble(vram, x, y);
      if pixel.Err? {
        PackStep(AsWritten, vram, x0, y0, x1, y1, buf, done, Point(x, y));
        return Fail(pixel.error);
      }
      var width := x1 - x0 + 1;
      var relX := x - x0;
      var relY := y - y0;
      var offset := (relY * width + relX) / 2;
      var nibbleIndex := relX % 2;
      assert Location(offset, nibbleIndex) == ExtractSlot(AsWritten, relX, relY, width);
      PackPixel(AsWritten, vram, x0, y0, x1, y1, buf, done, Point(x, y), extracted[..], Location(offset, nibbleIndex), pixel.value);
      StoreNibble(extracted, offset, nibbleIndex, pixel.value);
      return Pass;
    }

    /** The two-branch nibble store of ExtractRegionNibble's inner loop. */
    method StoreNibble(extracted: array<byte>, offset: int, nibbleIndex: int, pixel: byte)
      requires 0 <= offset < extracted.Length && 0 <= nibbleIndex <= 1 && pixel <= 0x0F
      modifies extracted
      ensures extracted[..] == old(extracted[..])[offset := WithNibble(old(extracted[offset]), nibbleIndex, pixel)]
    {
      ghost var v := WithNibble(extracted[offset], nibbleIndex, pixel);
      if nibbleIndex == 0 {
        extracted[offset] := (extracted[offset] & 0xF0) | pixel;
      } else {
        extracted[offset] := (extracted[offset] & 0x0F) | (pixel << 4);
      }
      assert extracted[offset] == v;
    }

    /** Once a read has failed, the later pixels change nothing. */
    lemma {:induction false} PackAbsorbs(rule: SlotRule, vram: seq<byte>, x0: int, y0: int, x1: int, y1: int, buf: seq<byte>, pts: seq<Point>, more: seq<Point>)
      requires |buf| == ExtractLength(x0, y0, x1, y1)
      requires pts <= more
      requires Pack(rule, vram, x0, y0, x1, y1, buf, pts).Err?
      ensures Pack(rule, vram, x0, y0, x1, y1, buf, more) == Pack(rule, vram, x0, y0, x1, y1, buf, pts)
      decreases |more|
    {
      if |more| > |pts| {
        assert pts <= more[..|more| - 1];
        PackAbsorbs(rule, vram, x0, y0, x1, y1, buf, pts, more[..|more| - 1]);
      } else {
        assert pts == more;
      }
    }

    /** Under a rule that keeps slots apart, every packed pixel can be read back from its slot. */
    lemma {:induction false} PackReadsBack(rule: SlotRule, vram: seq<byte>, x0: int, y0: int, x1: int, y1: int, buf: seq<byte>, pts: seq<Point>, q: Point)
      requires |buf| == ExtractLength(x0, y0, x1, y1)
      requires forall p :: p in pts ==> InRect(p, x0, y0, x1, y1)
      requires SlotsDistinct(rule, x1 - x0 + 1)
      requires Pack(rule, vram, x0, y0, x1, y1, buf, pts).Ok?
      requires q in pts
      ensures var l := ExtractSlot(rule, q.x - x0, q.y - y0, x1 - x0 + 1);
              var out := Pack(rule, vram, x0, y0, x1, y1, buf, pts).value;
              0 <= l.offset < |out| && Ok(NibbleOf(out[l.offset], l.sub)) == GetPixelNibble(vram, q.x, q.y)
      decreases |pts|
    {
      var pre, p := pts[..|pts| - 1], pts[|pts| - 1];
      assert pts == pre + [p];
      var w := x1 - x0 + 1;
      var l := ExtractSlot(rule, q.x - x0, q.y - y0, w);
      var lp := ExtractSlot(rule, p.x - x0, p.y - y0, w);
      assert Pack(rule, vram, x0, y0, x1, y1, buf, pre).Ok? && GetPixelNibble(vram, p.x, p.y).Ok?;
      var b := Pack(rule, vram, x0, y0, x1, y1, buf, pre).value;
      var pixel := GetPixelNibble(vram, p.x, p.y).value;
      PackPixel(rule, vram, x0, y0, x1, y1, buf, pre, p, b, lp, pixel);
      var out := b[lp.offset := WithNibble(b[lp.offset], lp.sub, pixel)];
      assert Pack(rule, vram, x0, y0, x1, y1, buf, pts).value == out;
      SlotFits(rule, x0, y0, x1, y1, q);
      assert |out| == |b|;
      if q == p {
        SlotRead(b, lp, pixel, l);
      } else {
        assert q in pre;
        assert forall r :: r in pre ==> r in pts;
        PackReadsBack(rule, vram, x0, y0, x1, y1, buf, pre, q);
        SlotsDistinctHolds(rule, x0, y0, x1, y1, p, q);
        SlotRead(b, lp, pixel, l);
        assert NibbleOf(out[l.offset], l.sub) == NibbleOf(b[l.offset], l.sub);
      }
    }

    /** Under a rule that keeps slots apart, every pixel of a readable rectangle is read back from its slot. */
    lemma ExtractReadsBack(rule: SlotRule, vram: seq<byte>, x0: int, y0: int, x1: int, y1: int, x: int, y: int)
      requires ExtractLength(x0, y0, x1, y1) >= 0 && SlotsDistinct(rule, x1 - x0 + 1)
      requires Readable(vram, x0, y0, x1, y1)
      requires x0 <= x <= x1 && y0 <= y <= y1
      ensures Extract(rule, vram, x0, y0, x1, y1).Ok?
      ensures var l := ExtractSlot(rule, x - x0, y - y0, x1 - x0 + 1);
              var out := Extract(rule, vram, x0, y0, x1, y1).value;
              0 <= l.offset < |out| && Ok(NibbleOf(out[l.offset], l.sub)) == GetPixelNibble(vram, x, y)
    {
      var buf := seq(ExtractLength(x0, y0, x1, y1), _ => 0);
      var pts := RowMajor(x0, y0, x1, y1);
      assert Extract(rule, vram, x0, y0, x1, y1) == Pack(rule, vram, x0, y0, x1, y1, buf, pts);
      ExtractOk(rule, vram, x0, y0, x1, y1);
      RowMajorMembers(x0, y0, x1, y1);
      assert Point(x, y) in pts;
      PackReadsBack(rule, vram, x0, y0, x1, y1, buf, pts, Point(x, y));
    }

    /**
     * ExtractRegionNibble with the nibble chosen by the parity of the
     * row-major index: every pixel of the region lands in its own nibble.
     */
    lemma ExtractLinearReadsBack(vram: seq<byte>, x0: int, y0: int, x1: int, y1: int, x: int, y: int)
      requires ExtractLength(x0, y0, x1, y1) >= 0
      requires Readable(vram, x0, y0, x1, y1)
      requires x0 <= x <= x1 && y0 <= y <= y1
      ensures Extract(Linear, vram, x0, y0, x1, y1).Ok?
      ensures var l := ExtractSlot(Linear, x - x0, y - y0, x1 - x0 + 1);
              var out := Extract(Linear, vram, x0, y0, x1, y1).value;
              0 <= l.offset < |out| && Ok(NibbleOf(out[l.offset], l.sub)) == GetPixelNibble(vram, x, y)
    {
      ExtractReadsBack(Linear, vram, x0, y0, x1, y1, x, y);
    }

    /** As written, extraction is faithful for regions of even width. */
    lemma ExtractEvenWidthReadsBack(vram: seq<byte>, x0: int, y0: int, x1: int, y1: int, x: int, y: int)
      requires ExtractLength(x0, y0, x1, y1) >= 0 && (x1 - x0 + 1) % 2 == 0
      requires Readable(vram, x0, y0, x1, y1)
      requires x0 <= x <= x1 && y0 <= y <= y1
      ensures Extract(AsWritten, vram, x0, y0, x1, y1).Ok?
      ensures var l := ExtractSlot(AsWritten, x - x0, y - y0, x1 - x0 + 1);
              var out := Extract(AsWritten, vram, x0, y0, x1, y1).value;
              0 <= l.offset < |out| && Ok(NibbleOf(out[l.offset], l.sub)) == GetPixelNibble(vram, x, y)
    {
      ExtractReadsBack(AsWritten, vram, x0, y0, x1, y1, x, y);
    }

    /**
     * As written, a region of odd width sends the last pixel of its first
     * row and the first pixel of its second row to the same nibble.
     */
    lemma ExtractOddWidthCollides(x0: int, y0: int, x1: int, y1: int)
      requires (x1 - x0 + 1) % 2 == 1 && x0 <= x1 && y0 < y1
      ensures InRect(Point(x1, y0), x0, y0, x1, y1) && InRect(Point(x0, y0 + 1), x0, y0, x1, y1)
      ensures ExtractSlot(AsWritten, x1 - x0, 0, x1 - x0 + 1) == ExtractSlot(AsWritten, 0, 1, x1 - x0 + 1)
    {
    }
  }
}
