/**
 * The host side of the protocol: the catalogue of SSD1322 opcodes, a
 * builder that collects command and data bytes, and the fixed command
 * sequences a driver sends, each tied to what the emulated controller
 * makes of it.
 */
module Commands {
  import opened Common
  import opened Memory
  import opened Controller

  /** What the catalogue records about an opcode. */
  datatype CommandInfo = CommandInfo(code: byte, name: string, description: string, dataBytes: int)

  /** The catalogue's entry for the opcode with value `k`, one case per entry. */
  function Entry(k: int): Option<CommandInfo> {
    match k
    case 0x15 => Some(CommandInfo(0x15, "SetColumnAddress", "Set column address", 2))
    case 0x75 => Some(CommandInfo(0x75, "SetRowAddress", "Set row address", 2))
    case 0x5C => Some(CommandInfo(0x5C, "WriteRAM", "Write RAM", 0))
    case 0x5D => Some(CommandInfo(0x5D, "ReadRAM", "Read RAM", 0))
    case 0xC1 => Some(CommandInfo(0xC1, "SetContrast", "Set contrast", 1))
    case 0xC7 => Some(CommandInfo(0xC7, "MasterCurrentControl", "Master current control", 1))
    case 0xA0 => Some(CommandInfo(0xA0, "SetRemap", "Set remap and dual COM mode", 1))
    case 0xA1 => Some(CommandInfo(0xA1, "SetStartLine", "Set display start line", 1))
    case 0xA2 => Some(CommandInfo(0xA2, "DisplayOffset", "Set display offset", 1))
    case 0xA4 => Some(CommandInfo(0xA4, "DisplayMode", "Set display mode", 0))
    case 0xA5 => Some(CommandInfo(0xA5, "EntireDisplayON", "Entire display ON", 0))
    case 0xA6 => Some(CommandInfo(0xA6, "NormalDisplay", "Normal display", 1))
    case 0xA7 => Some(CommandInfo(0xA7, "InverseDisplay", "Inverse display", 0))
    case 0xAE => Some(CommandInfo(0xAE, "SleepMode", "Sleep mode (display OFF)", 0))
    case 0xAF => Some(CommandInfo(0xAF, "NormalMode", "Normal mode (display ON)", 0))
    case 0xCA => Some(CommandInfo(0xCA, "SetMultiplexRatio", "Set MUX ratio", 1))
    case 0xB3 => Some(CommandInfo(0xB3, "SetClockDivider", "Set clock divider ratio", 1))
    case 0xB1 => Some(CommandInfo(0xB1, "SetPhaseLength", "Set phase length", 1))
    case 0xBB => Some(CommandInfo(0xBB, "SetPrecharge", "Set second precharge period", 1))
    case 0xBE => Some(CommandInfo(0xBE, "SetVCOMH", "Set V_COMH deselect level", 1))
    case 0xB4 => Some(CommandInfo(0xB4, "DisplayEnhance", "Display enhancement", 1))
    case 0xD1 => Some(CommandInfo(0xD1, "DisplayEnhanceB", "Display enhancement B", 1))
    case 0x26 => Some(CommandInfo(0x26, "HorizontalScroll", "Horizontal scroll setup", 5))
    case 0x27 => Some(CommandInfo(0x27, "ContinuousScroll", "Horizontal scroll setup (continuous)", 5))
    case 0x2E => Some(CommandInfo(0x2E, "DeactivateScroll", "Deactivate scroll", 0))
    case 0x2F => Some(CommandInfo(0x2F, "ActivateScroll", "Activate scroll", 0))
    case 0xB9 => Some(CommandInfo(0xB9, "GrayscaleTable", "Set default grayscale table", 1))
    case 0xFD => Some(CommandInfo(0xFD, "CommandLock", "Set command lock", 1))
    case _ => None
  }

  /** The opcode catalogue, keyed by the opcode's value. */
  const Catalogue: map<int, CommandInfo> := map k | 0 <= k < 256 && Entry(k).Some? :: Entry(k).value

  lemma CatalogueEntries(k: int)
    ensures k in Catalogue <==> 0 <= k < 256 && Entry(k).Some?
    ensures k in Catalogue ==> Catalogue[k] == Entry(k).value
  {
  }

  /** The catalogue entry of `code`, or an error for an opcode it does not list. */
  function GetCommandInfo(code: byte): (r: Result<CommandInfo>)
    ensures r.Ok? <==> code as int in Catalogue
    ensures r.Ok? ==> r.value == Catalogue[code as int] && r.value.code == code
    ensures r.Err? ==> r.error == UnknownCommand
  {
    CatalogueKeyedByCode(code, code as int);
    if code as int in Catalogue then Ok(Catalogue[code as int]) else Err(UnknownCommand)
  }

  /** Every entry is filed under its own opcode, and every key is an opcode value. */
  lemma CatalogueKeyedByCode(code: byte, k: int)
    ensures k in Catalogue ==> 0 <= k < 256
    ensures code as int in Catalogue ==> Catalogue[code as int].code == code
  {
  }

  /**
   * Every opcode the controller handles is catalogued; the catalogue also
   * lists four opcodes the controller ignores.
   */
  lemma CatalogueCoversController(code: byte)
    ensures code in HandledOpcodes ==> code as int in Catalogue
    ensures code as int in Catalogue && code !in HandledOpcodes <==> code in {0xA5, 0xA7, 0xD1, 0x27}
  {
  }

  /**
   * The catalogued parameter counts agree with what the controller's
   * handlers read: one byte for each single-byte setter (0xA6 included,
   * although its catalogue name is NormalDisplay), two for an address,
   * five for the scroll setup.
   */
  lemma CatalogueParameterCounts(code: byte)
    ensures code in SingleByteSetters ==> code as int in Catalogue && Catalogue[code as int].dataBytes == 1
    ensures code == CmdSetColumnAddress || code == CmdSetRowAddress ==> Catalogue[code as int].dataBytes == 2
    ensures code == CmdHorizontalScroll ==> Catalogue[code as int].dataBytes == 5
  {
  }

  /** The catalogue's example entries. */
  lemma GetCommandInfoExamples()
    ensures GetCommandInfo(0xFD) == Ok(CommandInfo(0xFD, "CommandLock", "Set command lock", 1))
    ensures GetCommandInfo(0xFF) == Err(UnknownCommand)
  {
  }

  /** Collects command and data bytes in call order. */
  class CommandBuilder {
    var bytes: seq<byte>

    constructor ()
      ensures bytes == []
    {
      bytes := [];
    }

    method AddCommand(code: byte)
      modifies this
      ensures bytes == old(bytes) + [code]
    {
      bytes := bytes + [code];
    }

    method AddData(data: byte)
      modifies this
      ensures bytes == old(bytes) + [data]
    {
      bytes := bytes + [data];
    }

    method AddBytes(data: seq<byte>)
      modifies this
      ensures bytes == old(bytes) + data
    {
      bytes := bytes + data;
    }

    /** A fresh array holding the bytes so far: later additions leave it as it is. */
    method Build() returns (result: array<byte>)
      ensures fresh(result) && result[..] == bytes
    {
      var b := bytes;
      result := new byte[|b|](i requires 0 <= i < |b| => b[i]);
    }

    method Reset()
      modifies this
      ensures bytes == []
    {
      bytes := [];
    }
  }

  /** A data byte carrying `color` in both pixels; the shift drops the high bits of a color above 0x0F. */
  function PackedPair(color: byte): (b: byte)
    ensures b & 0x0F == color & 0x0F
    ensures (b >> 4) & 0x0F == (color & 0x0F) | (color >> 4)
    ensures color <= 0x0F ==> b == color * 0x11
  {
    (color << 4) | color
  }

  /** The power-up sequence a driver sends: unlock, display off, the panel settings, the window, display on. */
  function InitSequence(): (s: seq<byte>)
    ensures |s| == 33
    ensures s[..2] == [CmdCommandLock, 0xB1] && s[|s| - 1] == CmdNormalDisplay
  {
    [ 0xFD, 0xB1,
      0xAE,
      0xB3, 0x00,
      0xCA, 0x3F,
      0xA2, 0x00,
      0xA1, 0x00,
      0xA0, 0x14,
      0xB1, 0x74,
      0xB4, 0x00,
      0xC1, 0x7F,
      0xC7, 0x0F,
      0xBB, 0x3C,
      0xBE, 0x07,
      0xA6,
      0x15, 0x1C, 0x5B,
      0x75, 0x00, 0x3F,
      0xAF ]
  }

  /** A one-pixel window at (x, y), Write RAM, then one data byte with `color` in both pixels. */
  function DrawPixelCommand(x: byte, y: byte, color: byte): (s: seq<byte>)
    ensures |s| == 8
    ensures s[0] == CmdSetColumnAddress && s[1] == s[2] == x
    ensures s[3] == CmdSetRowAddress && s[4] == s[5] == y
    ensures s[6] == CmdWriteRAM && s[7] == PackedPair(color)
  {
    [CmdSetColumnAddress, x, x, CmdSetRowAddress, y, y, CmdWriteRAM, PackedPair(color)]
  }

  /**
   * The commands of DrawPixelCommand, sent to the controller with the 0x5C
   * opcode taking no parameters and the last byte as data, select the
   * one-column window at x and write the byte there. The data path writes
   * at the window-relative column, so the two pixels land at columns 0
   * and 1 of row y whatever x is.
   */
  lemma DrawPixelLandsAtWindowStart(mh: MemoryHelper, r: Registers, p: Panel, x: byte, y: byte, color: byte)
    requires Fits(mh, p) && mh.width >= 2 && (y as int) < mh.height
    ensures var s := DrawPixelCommand(x, y, color);
            var r' := Dispatch(Dispatch(Dispatch(r, s[0], s[1..3]), s[3], s[4..6]), s[6], []);
            var t := FeedByte(mh, Snapshot(r', p), s[7]);
            && r'.window.columnStart == r'.window.currentColumn == x as int
            && r'.window.rowStart == r'.window.currentRow == y as int
            && r'.dataMode
            && ReadPixel(mh, t.panel, 0, y as int) == Ok(color & 0x0F)
            && ReadPixel(mh, t.panel, 1, y as int) == Ok((color & 0x0F) | (color >> 4))
  {
    var s := DrawPixelCommand(x, y, color);
    var r' := Dispatch(Dispatch(Dispatch(r, s[0], s[1..3]), s[3], s[4..6]), s[6], []);
    DrawPixelWindow(r, x, y, s[1..3], s[4..6], r');
    DrawPixelData(mh, Snapshot(r', p), y as int, s[7], color);
  }

  /** The register half of DrawPixelLandsAtWindowStart. */
  lemma DrawPixelWindow(r: Registers, x: byte, y: byte, cols: seq<byte>, rows: seq<byte>, r': Registers)
    requires cols == [x, x] && rows == [y, y]
    requires r' == Dispatch(Dispatch(Dispatch(r, CmdSetColumnAddress, cols), CmdSetRowAddress, rows), CmdWriteRAM, [])
    ensures r'.window.columnStart == r'.window.currentColumn == r'.window.columnEnd == x as int
    ensures r'.window.rowStart == r'.window.currentRow == r'.window.rowEnd == y as int
    ensures r'.dataMode
  {
    var r1 := Dispatch(r, CmdSetColumnAddress, cols);
    ColumnAddressPlacesCursor(r, cols);
    RowAddressPlacesCursor(r1, rows);
  }

  /** The pixel half of DrawPixelLandsAtWindowStart: the packed byte written at the window start. */
  lemma DrawPixelData(mh: MemoryHelper, s: Snapshot, y: int, b: byte, color: byte)
    requires Fits(mh, s.panel) && mh.width >= 2 && 0 <= y < mh.height
    requires s.regs.window.columnStart == s.regs.window.currentColumn == s.regs.window.columnEnd
    requires s.regs.window.rowStart == s.regs.window.currentRow == s.regs.window.rowEnd == y
    requires b == PackedPair(color)
    ensures ReadPixel(mh, FeedByte(mh, s, b).panel, 0, y) == Ok(color & 0x0F)
    ensures ReadPixel(mh, FeedByte(mh, s, b).panel, 1, y) == Ok((color & 0x0F) | (color >> 4))
  {
    FeedByteUnpacks(mh, s, b, 0, y);
  }

  /** The inversion command a driver sends: 0xA7 to invert, 0xA6 otherwise, neither with a parameter byte. */
  function InversionCommand(inverted: bool): (s: seq<byte>)
    ensures |s| == 1 && s[0] == if inverted then 0xA7 else CmdInvertDisplay
  {
    if inverted then [0xA7] else [CmdInvertDisplay]
  }

  /** Neither inversion command changes the controller: 0xA7 has no handler and 0xA6 without its parameter byte is ignored. */
  lemma InversionIgnored(r: Registers, inverted: bool)
    ensures Dispatch(r, InversionCommand(inverted)[0], []) == r
  {
    if !inverted {
      ShortPayloadIgnored(r, CmdInvertDisplay, []);
    }
  }

  function PowerCommand(on: bool): (s: seq<byte>)
    ensures |s| == 1 && s[0] == if on then CmdNormalDisplay else CmdSleepMode
  {
    if on then [CmdNormalDisplay] else [CmdSleepMode]
  }

  /** The power command switches the controller's display exactly as asked and changes nothing else. */
  lemma PowerCommandSwitches(r: Registers, on: bool)
    ensures Dispatch(r, PowerCommand(on)[0], []) == r.(display := r.display.(displayOn := on))
  {
  }

  function ContrastCommand(level: byte): (s: seq<byte>)
    ensures |s| == 2 && s[0] == CmdSetContrast && s[1] == level
  {
    [CmdSetContrast, level]
  }

  /** The contrast command sets the controller's contrast to its level and changes nothing else. */
  lemma ContrastCommandSets(r: Registers, level: byte)
    ensures var s := ContrastCommand(level);
            Dispatch(r, s[0], s[1..]) == r.(display := r.display.(contrastLevel := level))
  {
  }

  /** The opening of FillScreenCommand: the column window 0x1C-0x5B, the row window 0-0x3F, then Write RAM. */
  const FillHeader: seq<byte> := [CmdSetColumnAddress, 0x1C, 0x5B, CmdSetRowAddress, 0x00, 0x3F, CmdWriteRAM]

  /** Number of data bytes FillScreenCommand sends. */
  const FillLength: nat := 7680

  /** The bytes of FillScreenCommand. */
  function FillScreenBytes(color: byte): (s: seq<byte>)
    ensures |s| == |FillHeader| + FillLength && s[..|FillHeader|] == FillHeader
    ensures forall i :: |FillHeader| <= i < |s| ==> s[i] == PackedPair(color)
  {
    FillHeader + seq(FillLength, _ => PackedPair(color))
  }

  /** Builds the header, then one packed data byte per loop pass. */
  method FillScreenCommand(color: byte) returns (result: array<byte>)
    ensures fresh(result) && result[..] == FillScreenBytes(color)
  {
    var builder := new CommandBuilder();
    builder.AddCommand(CmdSetColumnAddress);
    builder.AddData(0x1C);
    builder.AddData(0x5B);
    builder.AddCommand(CmdSetRowAddress);
    builder.AddData(0x00);
    builder.AddData(0x3F);
    builder.AddCommand(CmdWriteRAM);
    var i := 0;
    while i < FillLength
      invariant 0 <= i <= FillLength
      invariant builder.bytes == FillHeader + seq(i, _ => PackedPair(color))
    {
      builder.AddData(PackedPair(color));
      i := i + 1;
    }
    result := builder.Build();
  }

  /**
   * Sent to the controller, FillScreenCommand's header opens a window of
   * 64 columns; since the cursor moves one column per data byte, no data
   * byte reaches a pixel right of column 64 of the viewport, which keeps
   * its old value.
   */
  lemma FillScreenReachesOnlyLeftColumns(mh: MemoryHelper, r: Registers, p: Panel, color: byte, x: int, y: int)
    requires mh.NoWrap() && mh.InPlane(x, y) && x > 0x5B - 0x1C + 1
    ensures var s := FillScreenBytes(color);
            var r' := Dispatch(Dispatch(Dispatch(r, s[0], s[1..3]), s[3], s[4..6]), s[6], []);
            ReadPixel(mh, Feed(mh, Snapshot(r', p), s[7..]).panel, x, y) == ReadPixel(mh, p, x, y)
  {
    var s := FillScreenBytes(color);
    assert s[..7] == FillHeader;
    assert s[1..3] == [0x1C, 0x5B] && s[4..6] == [0x00, 0x3F];
    var r1 := Dispatch(r, s[0], s[1..3]);
    var r' := Dispatch(Dispatch(r1, s[3], s[4..6]), s[6], []);
    ColumnAddressPlacesCursor(r, s[1..3]);
    assert r'.window.columnStart == 0x1C && r'.window.columnEnd == 0x5B;
    FeedConfined(mh, Snapshot(r', p), s[7..], x, y);
  }
}
