/**
 * The SSD1322 controller: its register file, the command handlers that
 * update it, and the data path that unpacks written bytes into the
 * nibble-packed display RAM while a cursor walks the addressing window.
 */
module Controller {
  import opened Common
  import opened Device
  import opened Memory

  const CmdSetColumnAddress: byte := 0x15
  const CmdSetRowAddress: byte := 0x75
  const CmdWriteRAM: byte := 0x5C
  const CmdReadRAM: byte := 0x5D
  const CmdSetContrast: byte := 0xC1
  const CmdMasterContrast: byte := 0xC7
  const CmdSetRemap: byte := 0xA0
  const CmdSetStartLine: byte := 0xA1
  const CmdDisplayOffset: byte := 0xA2
  const CmdDisplayMode: byte := 0xA4
  const CmdInvertDisplay: byte := 0xA6
  const CmdSetMultiplexRatio: byte := 0xCA
  const CmdSleepMode: byte := 0xAE
  const CmdNormalDisplay: byte := 0xAF
  const CmdHorizontalScroll: byte := 0x26
  const CmdContinuousScroll: byte := 0x27
  const CmdDeactivateScroll: byte := 0x2E
  const CmdActivateScroll: byte := 0x2F
  const CmdSetClockDivider: byte := 0xB3
  const CmdSetPhaseLength: byte := 0xB1
  const CmdEnhanceDisplay: byte := 0xB4
  const CmdSetPrecharge: byte := 0xBB
  const CmdSetVCOMH: byte := 0xBE
  const CmdGrayscaleTable: byte := 0xB9
  const CmdCommandLock: byte := 0xFD

  /** Column of the internal RAM at which the visible area starts. */
  const ColumnOffset: nat := 28

  /** The opcodes ProcessCommand has a case for; every other opcode is ignored. */
  const HandledOpcodes: set<byte> := {
    0x15, 0x75, 0x5C, 0x5D, 0xC1, 0xC7, 0xA0, 0xA1, 0xA2, 0xA4, 0xA6, 0xCA,
    0xAE, 0xAF, 0x26, 0x2E, 0x2F, 0xB3, 0xB1, 0xB4, 0xBB, 0xBE, 0xB9, 0xFD }

  /** The opcodes whose handler stores its first parameter byte, when there is one. */
  const SingleByteSetters: set<byte> := {
    0xC1, 0xC7, 0xA6, 0xCA, 0xA1, 0xA2, 0xA0, 0xB3, 0xB1, 0xBB, 0xBE, 0xB9 }

  /** The opcodes handled by the display-settings group of registers. */
  const DisplayOpcodes: set<byte> := { 0xAF, 0xAE, 0xC1, 0xC7, 0xA6, 0xA1, 0xA2, 0x2E, 0x2F, 0x26 }

  /** The opcodes handled by the drive-settings group of registers. */
  const DriveOpcodes: set<byte> := { 0xCA, 0xA0, 0xB3, 0xB1, 0xBB, 0xBE, 0xB9 }

  /** Power, brightness and scan settings, all restored by a reset. */
  datatype DisplaySettings = DisplaySettings(
    displayOn: bool,
    contrastLevel: byte,
    masterCurrentLevel: byte,
    invertDisplay: bool,
    scrollEnabled: bool,
    startLine: int,
    displayOffset: int)

  /** The addressing window and the cursor that walks it. */
  datatype Window = Window(
    columnStart: int,
    columnEnd: int,
    rowStart: int,
    rowEnd: int,
    currentColumn: int,
    currentRow: int)

  /** Multiplex, timing, remap and grayscale settings, which a reset keeps. */
  datatype DriveSettings = DriveSettings(
    multiplexRatio: byte,
    clockDivider: byte,
    phaseLength: byte,
    prechargeVoltage: byte,
    vcomhLevel: byte,
    remapSettings: byte,
    grayscaleTableMode: int)

  /** The controller's registers, grouped by how a reset treats them. */
  datatype Registers = Registers(
    commandLocked: bool,
    dataMode: bool,
    display: DisplaySettings,
    window: Window,
    drive: DriveSettings)

  /** The cursor lies inside the addressing window. */
  predicate InWindow(w: Window) {
    w.columnStart <= w.currentColumn <= w.columnEnd && w.rowStart <= w.currentRow <= w.rowEnd
  }

  /** The power-on display settings. */
  const PowerOnDisplay: DisplaySettings := DisplaySettings(
    displayOn := false, contrastLevel := 0x7F, masterCurrentLevel := 0x0F, invertDisplay := false,
    scrollEnabled := false, startLine := 0, displayOffset := 0)

  /** The power-on drive settings. */
  const PowerOnDrive: DriveSettings := DriveSettings(
    multiplexRatio := 0x3F, clockDivider := 0x00, phaseLength := 0x74, prechargeVoltage := 0x3C,
    vcomhLevel := 0x07, remapSettings := 0x14, grayscaleTableMode := 0)

  /** The addressing window covering the whole viewport, with the cursor at its origin. */
  function HomeWindow(width: int, height: int): (w: Window)
    ensures w.currentColumn == w.columnStart == 0 && w.currentRow == w.rowStart == 0
    ensures w.columnEnd == width - 1 && w.rowEnd == height - 1
    ensures width > 0 && height > 0 ==> InWindow(w)
  {
    Window(0, width - 1, 0, height - 1, 0, 0)
  }

  /** The registers of a freshly created controller: locked, display off, not in data mode. */
  function PowerOnRegisters(width: int, height: int): (r: Registers)
    ensures r.commandLocked && !r.dataMode && !r.display.displayOn
    ensures r.window == HomeWindow(width, height)
  {
    Registers(true, false, PowerOnDisplay, HomeWindow(width, height), PowerOnDrive)
  }

  /** Column and row address commands: both bytes set the window bounds and put the cursor at its start. */
  function Address(w: Window, cmd: byte, data: seq<byte>): (w': Window)
    requires cmd == CmdSetColumnAddress || cmd == CmdSetRowAddress
    ensures |data| < 2 ==> w' == w
    ensures |data| >= 2 && cmd == CmdSetColumnAddress ==>
              && w'.columnStart == w'.currentColumn == data[0] as int && w'.columnEnd == data[1] as int
              && w'.rowStart == w.rowStart && w'.rowEnd == w.rowEnd && w'.currentRow == w.currentRow
    ensures |data| >= 2 && cmd == CmdSetRowAddress ==>
              && w'.rowStart == w'.currentRow == data[0] as int && w'.rowEnd == data[1] as int
              && w'.columnStart == w.columnStart && w'.columnEnd == w.columnEnd && w'.currentColumn == w.currentColumn
  {
    if |data| < 2 then w
    else if cmd == CmdSetColumnAddress then w.(columnStart := data[0] as int, columnEnd := data[1] as int, currentColumn := data[0] as int)
    else w.(rowStart := data[0] as int, rowEnd := data[1] as int, currentRow := data[0] as int)
  }

  /** The handlers of the display-settings opcodes. */
  function DisplayCommand(d: DisplaySettings, cmd: byte, data: seq<byte>): (d': DisplaySettings)
    requires cmd in DisplayOpcodes
    ensures cmd == CmdNormalDisplay ==> d'.displayOn
    ensures cmd == CmdSleepMode ==> !d'.displayOn
    ensures cmd == CmdMasterContrast && |data| > 0 ==> d'.masterCurrentLevel == data[0] & 0x0F <= 0x0F
    ensures cmd == CmdSetContrast && |data| > 0 ==> d'.contrastLevel == data[0]
    ensures cmd == CmdInvertDisplay && |data| > 0 ==> (d'.invertDisplay <==> data[0] & 0x01 == 0x01)
    ensures cmd == CmdSetStartLine && |data| > 0 ==> d'.startLine == (data[0] & 0x7F) as int <= 0x7F
    ensures cmd == CmdDisplayOffset && |data| > 0 ==> d'.displayOffset == data[0] as int
    ensures cmd == CmdDeactivateScroll ==> !d'.scrollEnabled
    ensures cmd == CmdActivateScroll ==> d'.scrollEnabled
    ensures cmd == CmdHorizontalScroll ==> d'.scrollEnabled == (|data| >= 5 || d.scrollEnabled)
  {
    var has := |data| > 0;
    if cmd == CmdNormalDisplay then d.(displayOn := true)
    else if cmd == CmdSleepMode then d.(displayOn := false)
    else if cmd == CmdSetContrast then (if has then d.(contrastLevel := data[0]) else d)
    else if cmd == CmdMasterContrast then (if has then d.(masterCurrentLevel := data[0] & 0x0F) else d)
    else if cmd == CmdInvertDisplay then (if has then d.(invertDisplay := data[0] & 0x01 != 0) else d)
    else if cmd == CmdSetStartLine then (if has then d.(startLine := (data[0] & 0x7F) as int) else d)
    else if cmd == CmdDisplayOffset then (if has then d.(displayOffset := data[0] as int) else d)
    else if cmd == CmdDeactivateScroll then d.(scrollEnabled := false)
    else if cmd == CmdActivateScroll then d.(scrollEnabled := true)
    else if |data| >= 5 then d.(scrollEnabled := true) else d
  }

  /** The handlers of the drive-settings opcodes: each stores its first parameter byte when there is one. */
  function DriveCommand(v: DriveSettings, cmd: byte, data: seq<byte>): (v': DriveSettings)
    requires cmd in DriveOpcodes
    ensures |data| == 0 ==> v' == v
    ensures |data| > 0 && cmd == CmdSetMultiplexRatio ==> v'.multiplexRatio == data[0]
    ensures |data| > 0 && cmd == CmdSetRemap ==> v'.remapSettings == data[0]
    ensures |data| > 0 && cmd == CmdSetClockDivider ==> v'.clockDivider == data[0]
    ensures |data| > 0 && cmd == CmdSetPhaseLength ==> v'.phaseLength == data[0]
    ensures |data| > 0 && cmd == CmdSetPrecharge ==> v'.prechargeVoltage == data[0]
    ensures |data| > 0 && cmd == CmdSetVCOMH ==> v'.vcomhLevel == data[0]
    ensures |data| > 0 && cmd == CmdGrayscaleTable ==> v'.grayscaleTableMode == data[0] as int
  {
    if |data| == 0 then v
    else if cmd == CmdSetMultiplexRatio then v.(multiplexRatio := data[0])
    else if cmd == CmdSetRemap then v.(remapSettings := data[0])
    else if cmd == CmdSetClockDivider then v.(clockDivider := data[0])
    else if cmd == CmdSetPhaseLength then v.(phaseLength := data[0])
    else if cmd == CmdSetPrecharge then v.(prechargeVoltage := data[0])
    else if cmd == CmdSetVCOMH then v.(vcomhLevel := data[0])
    else v.(grayscaleTableMode := data[0] as int)
  }

  /** The registers after command `cmd` with parameter bytes `data`. */
  function Dispatch(r: Registers, cmd: byte, data: seq<byte>): (r': Registers)
    ensures cmd != CmdCommandLock ==> r'.commandLocked == r.commandLocked
    ensures cmd == CmdCommandLock ==>
              r'.commandLocked == if |data| > 0 && data[0] == 0xB1 then false
                                  else if |data| > 0 && data[0] == 0xB0 then true
                                  else r.commandLocked
    ensures r'.dataMode == (r.dataMode || cmd == CmdWriteRAM || cmd == CmdReadRAM)
    ensures cmd !in HandledOpcodes ==> r' == r
    ensures cmd != CmdSetColumnAddress && cmd != CmdSetRowAddress ==> r'.window == r.window
    ensures cmd !in DisplayOpcodes ==> r'.display == r.display
    ensures cmd !in DriveOpcodes ==> r'.drive == r.drive
  {
    if cmd == CmdCommandLock then
      if |data| > 0 && data[0] == 0xB1 then r.(commandLocked := false)
      else if |data| > 0 && data[0] == 0xB0 then r.(commandLocked := true)
      else r
    else if cmd == CmdWriteRAM || cmd == CmdReadRAM then r.(dataMode := true)
    else if cmd == CmdSetColumnAddress || cmd == CmdSetRowAddress then r.(window := Address(r.window, cmd, data))
    else if cmd in DisplayOpcodes then r.(display := DisplayCommand(r.display, cmd, data))
    else if cmd in DriveOpcodes then r.(drive := DriveCommand(r.drive, cmd, data))
    else r
  }

  /** The command lock is recorded but gates nothing: every other command acts the same whether locked or not. */
  lemma LockNotEnforced(r: Registers, cmd: byte, data: seq<byte>, locked: bool)
    requires cmd != CmdCommandLock
    ensures Dispatch(r.(commandLocked := locked), cmd, data) == Dispatch(r, cmd, data).(commandLocked := locked)
  {
  }

  /** A command without the parameter bytes its handler needs changes nothing. */
  lemma ShortPayloadIgnored(r: Registers, cmd: byte, data: seq<byte>)
    requires || (cmd in SingleByteSetters && |data| == 0)
             || (cmd == CmdCommandLock && |data| == 0)
             || ((cmd == CmdSetColumnAddress || cmd == CmdSetRowAddress) && |data| < 2)
             || (cmd == CmdHorizontalScroll && |data| < 5)
    ensures Dispatch(r, cmd, data) == r
  {
  }

  /** The continuous-scroll opcode has a name but no handler. */
  lemma ContinuousScrollIgnored(r: Registers, data: seq<byte>)
    ensures Dispatch(r, CmdContinuousScroll, data) == r
  {
  }

  /** The masking setters store their parameter byte masked, so the stored value stays in the register's range. */
  lemma SettersMask(r: Registers, data: seq<byte>)
    requires |data| > 0
    ensures Dispatch(r, CmdMasterContrast, data).display.masterCurrentLevel == data[0] & 0x0F <= 0x0F
    ensures Dispatch(r, CmdSetStartLine, data).display.startLine == (data[0] & 0x7F) as int
    ensures 0 <= Dispatch(r, CmdSetStartLine, data).display.startLine <= 0x7F
    ensures Dispatch(r, CmdInvertDisplay, data).display.invertDisplay <==> data[0] & 0x01 == 0x01
    ensures Dispatch(r, CmdSetContrast, data).display.contrastLevel == data[0]
  {
    assert data[0] & 0x7F <= 0x7F;
  }

  /** Each display setter with its parameter byte changes its own register and nothing else. */
  lemma DisplaySettersStore(r: Registers, data: seq<byte>)
    requires |data| > 0
    ensures Dispatch(r, CmdSetContrast, data) == r.(display := r.display.(contrastLevel := data[0]))
    ensures Dispatch(r, CmdMasterContrast, data) == r.(display := r.display.(masterCurrentLevel := data[0] & 0x0F))
    ensures Dispatch(r, CmdInvertDisplay, data) == r.(display := r.display.(invertDisplay := data[0] & 0x01 == 0x01))
    ensures Dispatch(r, CmdSetStartLine, data) == r.(display := r.display.(startLine := (data[0] & 0x7F) as int))
    ensures Dispatch(r, CmdDisplayOffset, data) == r.(display := r.display.(displayOffset := data[0] as int))
  {
  }

  /** Each drive setter with its parameter byte stores that byte in its own register and changes nothing else. */
  lemma DriveSettersStore(r: Registers, data: seq<byte>)
    requires |data| > 0
    ensures Dispatch(r, CmdSetMultiplexRatio, data) == r.(drive := r.drive.(multiplexRatio := data[0]))
    ensures Dispatch(r, CmdSetRemap, data) == r.(drive := r.drive.(remapSettings := data[0]))
    ensures Dispatch(r, CmdSetClockDivider, data) == r.(drive := r.drive.(clockDivider := data[0]))
    ensures Dispatch(r, CmdSetPhaseLength, data) == r.(drive := r.drive.(phaseLength := data[0]))
    ensures Dispatch(r, CmdSetPrecharge, data) == r.(drive := r.drive.(prechargeVoltage := data[0]))
    ensures Dispatch(r, CmdSetVCOMH, data) == r.(drive := r.drive.(vcomhLevel := data[0]))
    ensures Dispatch(r, CmdGrayscaleTable, data) == r.(drive := r.drive.(grayscaleTableMode := data[0] as int))
  {
    DriveDispatch(r, CmdSetMultiplexRatio, data);
    DriveDispatch(r, CmdSetRemap, data);
    DriveDispatch(r, CmdSetClockDivider, data);
    DriveDispatch(r, CmdSetPhaseLength, data);
    DriveDispatch(r, CmdSetPrecharge, data);
    DriveDispatch(r, CmdSetVCOMH, data);
    DriveDispatch(r, CmdGrayscaleTable, data);
  }

  /** A drive-settings opcode reaches DriveCommand and touches only the drive registers. */
  lemma DriveDispatch(r: Registers, cmd: byte, data: seq<byte>)
    requires cmd in DriveOpcodes
    ensures Dispatch(r, cmd, data) == r.(drive := DriveCommand(r.drive, cmd, data))
  {
  }

  /** 0x2E stops scrolling, 0x2F starts it, and 0x26 starts it only with its five parameter bytes; nothing else changes. */
  lemma ScrollCommands(r: Registers, data: seq<byte>)
    ensures Dispatch(r, CmdDeactivateScroll, data) == r.(display := r.display.(scrollEnabled := false))
    ensures Dispatch(r, CmdActivateScroll, data) == r.(display := r.display.(scrollEnabled := true))
    ensures |data| >= 5 ==> Dispatch(r, CmdHorizontalScroll, data) == r.(display := r.display.(scrollEnabled := true))
  {
  }

  /** The display-mode and enhancement opcodes have a case that does nothing. */
  lemma EmptyHandlers(r: Registers, data: seq<byte>)
    ensures Dispatch(r, CmdDisplayMode, data) == r
    ensures Dispatch(r, CmdEnhanceDisplay, data) == r
  {
  }

  /**
   * A column address command with both bytes puts the cursor at the start
   * of the new column window, so the cursor is left inside the window
   * exactly when that window is non-empty and the row was in its window.
   */
  lemma ColumnAddressPlacesCursor(r: Registers, data: seq<byte>)
    requires |data| >= 2
    ensures var w := Dispatch(r, CmdSetColumnAddress, data).window;
            && w.columnStart == w.currentColumn == data[0] as int && w.columnEnd == data[1] as int
            && (InWindow(w) <==> data[0] <= data[1] && r.window.rowStart <= r.window.currentRow <= r.window.rowEnd)
  {
  }

  lemma RowAddressPlacesCursor(r: Registers, data: seq<byte>)
    requires |data| >= 2
    ensures var w := Dispatch(r, CmdSetRowAddress, data).window;
            && w.rowStart == w.currentRow == data[0] as int && w.rowEnd == data[1] as int
            && (InWindow(w) <==> data[0] <= data[1] && r.window.columnStart <= r.window.currentColumn <= r.window.columnEnd)
  {
  }

  /** A command that does not set an address keeps the cursor inside the window. */
  lemma DispatchKeepsCursor(r: Registers, cmd: byte, data: seq<byte>)
    requires InWindow(r.window) && cmd != CmdSetColumnAddress && cmd != CmdSetRowAddress
    ensures InWindow(Dispatch(r, cmd, data).window)
  {
  }

  /**
   * A hardware reset restores the power-on lock, mode, display settings,
   * window and cursor and keeps the drive settings as they were.
   */
  function ResetRegisters(r: Registers, width: int, height: int): (r': Registers)
    ensures r' == PowerOnRegisters(width, height).(drive := r.drive)
  {
    r.(commandLocked := true, dataMode := false, display := PowerOnDisplay, window := HomeWindow(width, height))
  }

  lemma ResetIdempotent(r: Registers, width: int, height: int)
    ensures ResetRegisters(ResetRegisters(r, width, height), width, height) == ResetRegisters(r, width, height)
  {
  }

  /** Moves the cursor one column on, wrapping to the next row of the window and back to its top. */
  function Advance(w: Window): (w': Window)
    ensures w' == w.(currentColumn := w'.currentColumn, currentRow := w'.currentRow)
    ensures InWindow(w) ==> InWindow(w')
    ensures w.currentColumn < w.columnEnd ==> w'.currentColumn == w.currentColumn + 1 && w'.currentRow == w.currentRow
    ensures w.currentColumn >= w.columnEnd ==> w'.currentColumn == w.columnStart
    ensures w.currentColumn >= w.columnEnd && w.currentRow < w.rowEnd ==> w'.currentRow == w.currentRow + 1
    ensures w.currentColumn >= w.columnEnd && w.currentRow >= w.rowEnd ==> w'.currentRow == w.rowStart
  {
    var col := w.currentColumn + 1;
    if col > w.columnEnd then
      var row := w.currentRow + 1;
      w.(currentColumn := w.columnStart, currentRow := if row > w.rowEnd then w.rowStart else row)
    else
      w.(currentColumn := col)
  }

  /** Display RAM with the dirty region tracking it. */
  datatype Panel = Panel(vram: seq<byte>, region: DirtyRegion)

  /** SetPixel: a viewport check, a nibble write, then a one-pixel dirty mark. */
  function Plot(mh: MemoryHelper, p: Panel, x: int, y: int, color: byte): (r: Result<Panel>)
    ensures r.Ok? <==> mh.NibbleAddressable(|p.vram|, x, y)
    ensures r.Err? ==> r.error == if mh.InPlane(x, y) then VramOutOfBounds else PixelOutOfBounds
    ensures r.Ok? ==> |r.value.vram| == |p.vram| && mh.GetPixelNibble(r.value.vram, x, y) == Ok(color & 0x0F)
    ensures r.Ok? ==> r.value.region == MarkRegion(p.region, mh.width, mh.height, x, y, x, y)
    ensures r.Ok? ==> Covers(r.value.region, x, y) && Encloses(r.value.region, p.region)
  {
    if x < 0 || x >= mh.width || y < 0 || y >= mh.height then Err(PixelOutOfBounds)
    else
      var v :- mh.PutPixelNibble(p.vram, x, y, color & 0x0F);
      Ok(Panel(v, MarkRegion(p.region, mh.width, mh.height, x, y, x, y)))
  }

  /** A write whose error the caller discards: the panel is unchanged when the write fails. */
  function Poke(mh: MemoryHelper, p: Panel, x: int, y: int, color: byte): (r: Panel)
    ensures |r.vram| == |p.vram| && Encloses(r.region, p.region)
  {
    match Plot(mh, p, x, y, color)
    case Ok(q) => q
    case Err(_) => p
  }

  /** The pixel value at (x, y), as GetPixel reads it. */
  function ReadPixel(mh: MemoryHelper, p: Panel, x: int, y: int): Result<byte> {
    mh.GetPixelNibble(p.vram, x, y)
  }

  /** A write to one pixel leaves every other pixel of the viewport as it was. */
  lemma PokeIsolated(mh: MemoryHelper, p: Panel, x: int, y: int, color: byte, x': int, y': int)
    requires mh.NoWrap() && mh.InPlane(x', y') && Point(x', y') != Point(x, y)
    ensures ReadPixel(mh, Poke(mh, p, x, y, color), x', y') == ReadPixel(mh, p, x', y')
  {
    if Plot(mh, p, x, y, color).Ok? {
      mh.NibbleWriteIsolated(p.vram, x, y, color & 0x0F, x', y');
    }
  }

  /** A write to a pixel of a viewport that fits the VRAM reads back masked. */
  lemma PokeReads(mh: MemoryHelper, p: Panel, x: int, y: int, color: byte)
    requires Fits(mh, p) && mh.InPlane(x, y)
    ensures ReadPixel(mh, Poke(mh, p, x, y, color), x, y) == Ok(color & 0x0F)
    ensures |Poke(mh, p, x, y, color).vram| == |p.vram|
  {
    mh.NibbleOffsetFits(x, y);
  }

  /** The VRAM holds the whole viewport, as the device allocates it for a 480-column plane. */
  predicate Fits(mh: MemoryHelper, p: Panel) {
    mh.NoWrap() && |p.vram| == InternalColumns * mh.height / 2
  }

  /** Writes to `pts` in order, each failure discarded. */
  function PokeAll(mh: MemoryHelper, p: Panel, pts: seq<Point>, color: byte): (r: Panel)
    ensures |r.vram| == |p.vram| && Encloses(r.region, p.region)
    decreases |pts|
  {
    if pts == [] then p
    else
      var last := pts[|pts| - 1];
      Poke(mh, PokeAll(mh, p, pts[..|pts| - 1], color), last.x, last.y, color)
  }

  lemma {:induction false} PokeAllAppend(mh: MemoryHelper, p: Panel, a: seq<Point>, b: seq<Point>, color: byte)
    ensures PokeAll(mh, p, a + b, color) == PokeAll(mh, PokeAll(mh, p, a, color), b, color)
    decreases |b|
  {
    if b == [] {
      assert a + b == a;
    } else {
      assert (a + b)[..|a + b| - 1] == a + b[..|b| - 1];
      PokeAllAppend(mh, p, a, b[..|b| - 1], color);
    }
  }

  /**
   * After writes to `pts`, a pixel of the viewport reads the written value
   * exactly when it is among `pts`, and its old value otherwise; the dirty
   * region covers it when it was written.
   */
  lemma {:induction false} PokeAllReadsBack(mh: MemoryHelper, p: Panel, pts: seq<Point>, color: byte, q: Point)
    requires Fits(mh, p) && mh.InPlane(q.x, q.y)
    ensures ReadPixel(mh, PokeAll(mh, p, pts, color), q.x, q.y)
         == if q in pts then Ok(color & 0x0F) else ReadPixel(mh, p, q.x, q.y)
    ensures q in pts ==> Covers(PokeAll(mh, p, pts, color).region, q.x, q.y)
    decreases |pts|
  {
    if pts != [] {
      var pre, last := pts[..|pts| - 1], pts[|pts| - 1];
      assert pts == pre + [last];
      PokeAllReadsBack(mh, p, pre, color, q);
      var mid := PokeAll(mh, p, pre, color);
      if q == last {
        mh.NibbleOffsetFits(q.x, q.y);
      } else {
        PokeIsolated(mh, mid, last.x, last.y, color, q.x, q.y);
        if q in pre {
          MarkRegionKeepsCover(mid.region, mh.width, mh.height, last.x, last.y, last.x, last.y, q.x, q.y);
        }
      }
    }
  }

  /** A controller's whole observable state. */
  datatype Snapshot = Snapshot(regs: Registers, panel: Panel)

  /** WriteData accepts a byte only while the cursor is in the window and inside the viewport's width. */
  predicate Accepts(mh: MemoryHelper, w: Window) {
    InWindow(w) && w.currentColumn - w.columnStart < mh.width
  }

  /** One byte of WriteData: its low nibble, then its high nibble, to adjacent pixels, then the cursor steps one column. */
  function FeedByte(mh: MemoryHelper, s: Snapshot, b: byte): (t: Snapshot)
    ensures t.regs == s.regs.(window := t.regs.window)
    ensures InWindow(s.regs.window) ==> InWindow(t.regs.window)
    ensures !Accepts(mh, s.regs.window) ==> t == s
    ensures Accepts(mh, s.regs.window) ==> t.regs.window == Advance(s.regs.window)
    ensures |t.panel.vram| == |s.panel.vram| && Encloses(t.panel.region, s.panel.region)
  {
    var w := s.regs.window;
    if !Accepts(mh, w) then s
    else
      var col := w.currentColumn - w.columnStart;
      var low := Poke(mh, s.panel, col, w.currentRow, b & 0x0F);
      var both := if col + 1 < mh.width then Poke(mh, low, col + 1, w.currentRow, (b >> 4) & 0x0F) else low;
      Snapshot(s.regs.(window := Advance(w)), both)
  }

  /** WriteData's loop over its payload. */
  function Feed(mh: MemoryHelper, s: Snapshot, data: seq<byte>): (t: Snapshot)
    decreases |data|
  {
    if data == [] then s else FeedByte(mh, Feed(mh, s, data[..|data| - 1]), data[|data| - 1])
  }

  /**
   * Writing data moves only the cursor among the registers, keeps the
   * cursor inside the window and only grows the dirty region.
   */
  lemma {:induction false} FeedKeepsRegisters(mh: MemoryHelper, s: Snapshot, data: seq<byte>)
    ensures var t := Feed(mh, s, data);
            && t.regs == s.regs.(window := t.regs.window)
            && t.regs.window.columnStart == s.regs.window.columnStart && t.regs.window.columnEnd == s.regs.window.columnEnd
            && t.regs.window.rowStart == s.regs.window.rowStart && t.regs.window.rowEnd == s.regs.window.rowEnd
            && (InWindow(s.regs.window) ==> InWindow(t.regs.window))
            && |t.panel.vram| == |s.panel.vram|
            && Encloses(t.panel.region, s.panel.region)
    decreases |data|
  {
    if data != [] {
      FeedKeepsRegisters(mh, s, data[..|data| - 1]);
    }
  }

  /** A byte refused because the cursor is past the viewport leaves the cursor there: all later bytes are dropped too. */
  lemma {:induction false} FeedStuck(mh: MemoryHelper, s: Snapshot, data: seq<byte>)
    requires !Accepts(mh, s.regs.window)
    ensures Feed(mh, s, data) == s
    decreases |data|
  {
    if data != [] {
      FeedStuck(mh, s, data[..|data| - 1]);
    }
  }

  /**
   * The data path only reaches pixels in columns 0 to columnEnd - columnStart + 1
   * of the rows of the window: every other pixel keeps its value, however
   * many bytes are written.
   */
  lemma {:induction false} FeedConfined(mh: MemoryHelper, s: Snapshot, data: seq<byte>, x: int, y: int)
    requires mh.NoWrap() && mh.InPlane(x, y)
    requires OutsideReach(s.regs.window, x, y)
    ensures ReadPixel(mh, Feed(mh, s, data).panel, x, y) == ReadPixel(mh, s.panel, x, y)
    decreases |data|
  {
    if data != [] {
      var pre := data[..|data| - 1];
      FeedConfined(mh, s, pre, x, y);
      FeedKeepsRegisters(mh, s, pre);
      var m := Feed(mh, s, pre);
      FeedByteConfined(mh, m, data[|data| - 1], x, y, m.regs.window.currentColumn - m.regs.window.columnStart, m.regs.window.currentRow);
    }
  }

  /** Pixel (x, y) lies right of the columns, or outside the rows, that a cursor in window `w` can write. */
  predicate OutsideReach(w: Window, x: int, y: int) {
    x > w.columnEnd - w.columnStart + 1 || y < w.rowStart || y > w.rowEnd
  }

  lemma FeedByteConfined(mh: MemoryHelper, s: Snapshot, b: byte, x: int, y: int, c: int, row: int)
    requires mh.NoWrap() && mh.InPlane(x, y)
    requires OutsideReach(s.regs.window, x, y)
    requires c == s.regs.window.currentColumn - s.regs.window.columnStart && row == s.regs.window.currentRow
    ensures ReadPixel(mh, FeedByte(mh, s, b).panel, x, y) == ReadPixel(mh, s.panel, x, y)
  {
    if Accepts(mh, s.regs.window) {
      var low := Poke(mh, s.panel, c, row, b & 0x0F);
      if c + 1 < mh.width {
        FeedByteWrites(mh, s, b, c, row);
        PairMisses(mh, s.panel, low, Poke(mh, low, c + 1, row, (b >> 4) & 0x0F), c, row, b & 0x0F, (b >> 4) & 0x0F, x, y);
      } else {
        FeedByteWritesLast(mh, s, b, c, row);
        KeptThrough(mh, s.panel, low, c, row, b & 0x0F, x, y);
      }
    }
  }

  /** Writes to (c, row) and (c + 1, row) leave every other pixel as it was. */
  lemma PairMisses(mh: MemoryHelper, p: Panel, low: Panel, t: Panel, c: int, row: int, k0: byte, k1: byte, x: int, y: int)
    requires mh.NoWrap() && mh.InPlane(x, y) && Point(x, y) != Point(c, row) && Point(x, y) != Point(c + 1, row)
    requires low == Poke(mh, p, c, row, k0) && t == Poke(mh, low, c + 1, row, k1)
    ensures ReadPixel(mh, t, x, y) == ReadPixel(mh, p, x, y)
  {
    KeptThrough(mh, p, low, c, row, k0, x, y);
    KeptThrough(mh, low, t, c + 1, row, k1, x, y);
  }

  /**
   * A byte written with the cursor at window-relative column `c` lands
   * with its low nibble at pixel (c, row) and its high nibble at
   * (c + 1, row), when both lie in the viewport.
   */
  lemma FeedByteUnpacks(mh: MemoryHelper, s: Snapshot, b: byte, c: int, row: int)
    requires Fits(mh, s.panel) && InWindow(s.regs.window)
    requires c == s.regs.window.currentColumn - s.regs.window.columnStart && row == s.regs.window.currentRow
    requires c + 1 < mh.width && 0 <= row < mh.height
    ensures var t := FeedByte(mh, s, b).panel;
            && ReadPixel(mh, t, c, row) == Ok(b & 0x0F)
            && ReadPixel(mh, t, c + 1, row) == Ok((b >> 4) & 0x0F)
  {
    FeedByteWrites(mh, s, b, c, row);
    var low := Poke(mh, s.panel, c, row, b & 0x0F);
    UnpackPanel(mh, s.panel, low, Poke(mh, low, c + 1, row, (b >> 4) & 0x0F), c, row, b);
  }

  /** The panel-level half of FeedByteUnpacks: two nibble writes to adjacent pixels. */
  lemma UnpackPanel(mh: MemoryHelper, p: Panel, low: Panel, t: Panel, c: int, row: int, b: byte)
    requires Fits(mh, p) && 0 <= c && c + 1 < mh.width && 0 <= row < mh.height
    requires low == Poke(mh, p, c, row, b & 0x0F) && t == Poke(mh, low, c + 1, row, (b >> 4) & 0x0F)
    ensures ReadPixel(mh, t, c, row) == Ok(b & 0x0F)
    ensures ReadPixel(mh, t, c + 1, row) == Ok((b >> 4) & 0x0F)
  {
    PokeReads(mh, p, c, row, b & 0x0F);
    PokeIsolated(mh, low, c + 1, row, (b >> 4) & 0x0F, c, row);
    PokeReads(mh, low, c + 1, row, (b >> 4) & 0x0F);
  }

  /** An accepted byte makes exactly the two nibble writes, low nibble first. */
  lemma FeedByteWrites(mh: MemoryHelper, s: Snapshot, b: byte, c: int, row: int)
    requires Accepts(mh, s.regs.window) && c + 1 < mh.width
    requires c == s.regs.window.currentColumn - s.regs.window.columnStart && row == s.regs.window.currentRow
    ensures FeedByte(mh, s, b).panel == Poke(mh, Poke(mh, s.panel, c, row, b & 0x0F), c + 1, row, (b >> 4) & 0x0F)
  {
  }

  /** An accepted byte at the last column of the viewport writes its low nibble only. */
  lemma FeedByteWritesLast(mh: MemoryHelper, s: Snapshot, b: byte, c: int, row: int)
    requires Accepts(mh, s.regs.window) && c + 1 >= mh.width
    requires c == s.regs.window.currentColumn - s.regs.window.columnStart && row == s.regs.window.currentRow
    ensures FeedByte(mh, s, b).panel == Poke(mh, s.panel, c, row, b & 0x0F)
  {
  }

  /**
   * The cursor steps one column per byte although each byte carries two
   * pixels: of two bytes written from column `c`, the second overwrites
   * the high nibble of the first, so pixel c + 1 ends with the low nibble
   * of the second byte.
   */
  lemma FeedTwoBytesOverlap(mh: MemoryHelper, s: Snapshot, b0: byte, b1: byte, c: int, row: int)
    requires Fits(mh, s.panel) && InWindow(s.regs.window) && s.regs.window.currentColumn < s.regs.window.columnEnd
    requires c == s.regs.window.currentColumn - s.regs.window.columnStart && row == s.regs.window.currentRow
    requires c + 2 < mh.width && 0 <= row < mh.height
    ensures var t := FeedByte(mh, FeedByte(mh, s, b0), b1).panel;
            && ReadPixel(mh, t, c, row) == Ok(b0 & 0x0F)
            && ReadPixel(mh, t, c + 1, row) == Ok(b1 & 0x0F)
            && ReadPixel(mh, t, c + 2, row) == Ok((b1 >> 4) & 0x0F)
  {
    var s1 := FeedByte(mh, s, b0);
    FeedByteWrites(mh, s, b0, c, row);
    var w1 := s1.regs.window;
    assert w1 == Advance(s.regs.window);
    FeedByteWrites(mh, s1, b1, c + 1, row);
    var p0 := Poke(mh, s.panel, c, row, b0 & 0x0F);
    var p1 := Poke(mh, p0, c + 1, row, (b0 >> 4) & 0x0F);
    var p2 := Poke(mh, p1, c + 1, row, b1 & 0x0F);
    OverlapPanel(mh, s.panel, p0, p1, p2, Poke(mh, p2, c + 2, row, (b1 >> 4) & 0x0F), c, row,
                 b0 & 0x0F, (b0 >> 4) & 0x0F, b1 & 0x0F, (b1 >> 4) & 0x0F);
    assert (b0 & 0x0F) & 0x0F == b0 & 0x0F && (b1 & 0x0F) & 0x0F == b1 & 0x0F;
    assert ((b1 >> 4) & 0x0F) & 0x0F == (b1 >> 4) & 0x0F;
  }

  /**
   * The panel-level half of FeedTwoBytesOverlap: writes of k0 to column c,
   * k1 then k2 to column c + 1 and k3 to column c + 2 leave k0, k2 and k3.
   */
  lemma OverlapPanel(mh: MemoryHelper, p: Panel, p0: Panel, p1: Panel, p2: Panel, t: Panel, c: int, row: int, k0: byte, k1: byte, k2: byte, k3: byte)
    requires Fits(mh, p) && 0 <= c && c + 2 < mh.width && 0 <= row < mh.height
    requires p0 == Poke(mh, p, c, row, k0) && p1 == Poke(mh, p0, c + 1, row, k1)
    requires p2 == Poke(mh, p1, c + 1, row, k2) && t == Poke(mh, p2, c + 2, row, k3)
    ensures ReadPixel(mh, t, c, row) == Ok(k0 & 0x0F)
    ensures ReadPixel(mh, t, c + 1, row) == Ok(k2 & 0x0F)
    ensures ReadPixel(mh, t, c + 2, row) == Ok(k3 & 0x0F)
  {
    PokeReads(mh, p, c, row, k0);
    KeptThrough(mh, p0, p1, c + 1, row, k1, c, row);
    KeptThrough(mh, p1, p2, c + 1, row, k2, c, row);
    KeptThrough(mh, p2, t, c + 2, row, k3, c, row);
    OverlapSecond(mh, p1, p2, t, c, row, k2, k3);
  }

  /** The last two writes of OverlapPanel: column c + 1 keeps k2 and column c + 2 reads k3. */
  lemma OverlapSecond(mh: MemoryHelper, p1: Panel, p2: Panel, t: Panel, c: int, row: int, k2: byte, k3: byte)
    requires Fits(mh, p1) && 0 <= c && c + 2 < mh.width && 0 <= row < mh.height
    requires p2 == Poke(mh, p1, c + 1, row, k2) && t == Poke(mh, p2, c + 2, row, k3)
    ensures ReadPixel(mh, t, c + 1, row) == Ok(k2 & 0x0F)
    ensures ReadPixel(mh, t, c + 2, row) == Ok(k3 & 0x0F)
  {
    PokeReads(mh, p1, c + 1, row, k2);
    KeptThrough(mh, p2, t, c + 2, row, k3, c + 1, row);
    PokeReads(mh, p2, c + 2, row, k3);
  }

  /** PokeIsolated with the written panel named: `q` is `p` with (x, y) written, and (x', y') keeps its value. */
  lemma KeptThrough(mh: MemoryHelper, p: Panel, q: Panel, x: int, y: int, color: byte, x': int, y': int)
    requires mh.NoWrap() && mh.InPlane(x', y') && Point(x', y') != Point(x, y)
    requires q == Poke(mh, p, x, y, color)
    ensures ReadPixel(mh, q, x', y') == ReadPixel(mh, p, x', y')
  {
    PokeIsolated(mh, p, x, y, color, x', y');
  }

  /** Reset's effect on display RAM: every byte zeroed and the whole viewport marked dirty. */
  function ResetPanel(mh: MemoryHelper, p: Panel): (r: Panel)
    ensures |r.vram| == |p.vram| && forall i :: 0 <= i < |r.vram| ==> r.vram[i] == 0
    ensures r.region == MarkRegion(p.region, mh.width, mh.height, 0, 0, mh.width - 1, mh.height - 1)
  {
    Panel(seq(|p.vram|, _ => 0), MarkRegion(p.region, mh.width, mh.height, 0, 0, mh.width - 1, mh.height - 1))
  }

  /** After a reset every pixel of the viewport reads 0 and is covered by the dirty region. */
  lemma ResetClearsViewport(mh: MemoryHelper, p: Panel, x: int, y: int)
    requires Fits(mh, p) && mh.InPlane(x, y)
    ensures ReadPixel(mh, ResetPanel(mh, p), x, y) == Ok(0)
    ensures Covers(ResetPanel(mh, p).region, x, y)
  {
    mh.NibbleOffsetFits(x, y);
  }

  /** Resetting display RAM twice is resetting it once: the bytes stay zero and the second mark adds nothing. */
  lemma ResetPanelIdempotent(mh: MemoryHelper, p: Panel)
    ensures ResetPanel(mh, ResetPanel(mh, p)) == ResetPanel(mh, p)
  {
    MarkRegionIdempotent(p.region, mh.width, mh.height, 0, 0, mh.width - 1, mh.height - 1);
  }

  /** An emulated SSD1322: a base device, its nibble packing and its registers. */
  class SSD1322 {
    const base: BaseDevice
    const memory: MemoryHelper
    var regs: Registers

    /** Everything the methods of the class may change. */
    ghost function Repr(): set<object> {
      {this, base, base.vram}
    }

    ghost predicate Valid()
      reads this, base
    {
      && base.Valid()
      && base.config.pixelFormat == HorizontalNibble
      && base.config.colorDepth == 4
      && base.config.columnOffset == ColumnOffset
      && memory == MemoryHelper(base.config.width, base.config.height, HorizontalNibble, ColumnOffset)
    }

    ghost function View(): Snapshot
      reads this, base, base.vram
    {
      Snapshot(regs, Panel(base.vram[..], base.Region()))
    }

    /** NewSSD1322: zeroed display RAM for 480 columns, the power-on registers and nothing dirty. */
    constructor (width: int, height: int)
      requires width > 0 && height > 0
      ensures Valid() && fresh(base) && fresh(base.vram)
      ensures base.config.width == width && base.config.height == height
      ensures regs == PowerOnRegisters(width, height)
      ensures base.vram[..] == seq(InternalColumns * height / 2, _ => 0)
      ensures base.Region() == Clean
    {
      var config := Config(width, height, 4, HorizontalNibble, ColumnOffset, []);
      base := new BaseDevice(config);
      memory := MemoryHelper(width, height, HorizontalNibble, ColumnOffset);
      regs := PowerOnRegisters(width, height);
    }

    method ProcessCommand(cmd: byte, data: seq<byte>) returns (e: Outcome)
      requires Valid()
      modifies this
      ensures Valid() && e == Pass
      ensures regs == Dispatch(old(regs), cmd, data)
    {
      regs := Dispatch(regs, cmd, data);
      return Pass;
    }

    /** Unpacks `data` into display RAM at the cursor; refused unless a Write RAM command came first. */
    method WriteData(data: seq<byte>) returns (e: Outcome)
      requires Valid()
      modifies this, base, base.vram
      ensures Valid()
      ensures e == if old(regs.dataMode) then Pass else Fail(NotInDataMode)
      ensures View() == if e.Pass? then Feed(memory, old(View()), data) else old(View())
    {
      if !regs.dataMode {
        return Fail(NotInDataMode);
      }
      var i := 0;
      while i < |data|
        invariant 0 <= i <= |data|
        invariant Valid()
        invariant View() == Feed(memory, old(View()), data[..i])
      {
        assert data[..i + 1][..i] == data[..i];
        WriteByte(data[i]);
        i := i + 1;
      }
      assert data[..i] == data;
      return Pass;
    }

    /** The body of WriteData's loop for one byte. */
    method WriteByte(byteVal: byte)
      requires Valid()
      modifies this, base, base.vram
      ensures Valid()
      ensures View() == FeedByte(memory, old(View()), byteVal)
    {
      var w := regs.window;
      var col := w.currentColumn;
      var row := w.currentRow;
      if col >= w.columnStart && col <= w.columnEnd && row >= w.rowStart && row <= w.rowEnd {
        var displayCol := col - w.columnStart;
        if displayCol < base.Width() {
          ghost var s := View();
          if displayCol + 1 < base.Width() {
            FeedByteWrites(memory, s, byteVal, displayCol, row);
          } else {
            FeedByteWritesLast(memory, s, byteVal, displayCol, row);
          }
          var pixel1, pixel2 := byteVal & 0x0F, (byteVal >> 4) & 0x0F;
          PlotByte(displayCol, row, pixel1, pixel2);
          ghost var panel := View().panel;
          regs := regs.(window := Advance(w));
          assert View() == Snapshot(s.regs.(window := Advance(w)), panel);
        }
      }
    }

    /** The two nibble writes of an accepted byte, the second only when it lies in the viewport. */
    method PlotByte(displayCol: int, row: int, pixel1: byte, pixel2: byte)
      requires Valid() && 0 <= displayCol
      modifies base, base.vram
      ensures Valid() && View().regs == old(View()).regs
      ensures var low := Poke(memory, old(View()).panel, displayCol, row, pixel1);
              View().panel == if displayCol + 1 < memory.width then Poke(memory, low, displayCol + 1, row, pixel2) else low
    {
      ghost var p0 := View().panel;
      assert base.Width() == memory.width;
      PlotPixel(displayCol, row, pixel1);
      ghost var low := View().panel;
      assert low == Poke(memory, p0, displayCol, row, pixel1);
      if displayCol + 1 < base.Width() {
        PlotPixel(displayCol + 1, row, pixel2);
      }
    }

    /** A nibble write followed by a dirty mark when the write succeeded. */
    method PlotPixel(x: int, y: int, color: byte)
      requires Valid() && 0 <= x
      modifies base, base.vram
      ensures Valid() && View().regs == old(View()).regs
      ensures View().panel == Poke(memory, old(View()).panel, x, y, color)
    {
      var err := memory.SetPixelNibble(base.vram, x, y, color);
      if err.Pass? {
        base.MarkDirty(x, y, x, y);
      }
    }

    method SetPixel(x: int, y: int, color: byte) returns (e: Outcome)
      requires Valid()
      modifies base, base.vram
      ensures Valid() && View().regs == old(View()).regs
      ensures match Plot(memory, old(View()).panel, x, y, color)
              case Ok(p) => e == Pass && View().panel == p
              case Err(err) => e == Fail(err) && View() == old(View())
    {
      if x < 0 || x >= base.Width() || y < 0 || y >= base.Height() {
        return Fail(PixelOutOfBounds);
      }
      e := memory.SetPixelNibble(base.vram, x, y, color & 0x0F);
      if e.Fail? {
        return e;
      }
      base.MarkDirty(x, y, x, y);
    }

    function GetPixel(x: int, y: int): (r: Result<byte>)
      requires Valid()
      reads this, base, base.vram
      ensures r == ReadPixel(memory, View().panel, x, y)
    {
      memory.GetPixelNibble(base.vram[..], x, y)
    }

    /** Zeroes display RAM, restores the power-on registers Reset names and marks the viewport dirty. */
    method Reset() returns (e: Outcome)
      requires Valid()
      modifies this, base, base.vram
      ensures Valid() && e == Pass
      ensures View() == Snapshot(ResetRegisters(old(regs), memory.width, memory.height), ResetPanel(memory, old(View()).panel))
    {
      var width, height := base.Width(), base.Height();
      var vram := base.vram;
      var i := 0;
      while i < vram.Length
        invariant 0 <= i <= vram.Length
        invariant forall j :: 0 <= j < i ==> vram[j] == 0
        modifies vram
      {
        vram[i] := 0;
        i := i + 1;
      }
      regs := ResetRegisters(regs, width, height);
      base.MarkDirty(0, 0, width - 1, height - 1);
      assert vram[..] == seq(vram.Length, _ => 0);
      return Pass;
    }

    function GetFrameBuffer(): (b: array<byte>)
      ensures b == base.vram
    {
      base.vram
    }

    function IsDisplayOn(): (on: bool)
      reads this
      ensures on == regs.display.displayOn
    {
      regs.display.displayOn
    }

    function GetContrastLevel(): (level: byte)
      reads this
      ensures level == regs.display.contrastLevel
    {
      regs.display.contrastLevel
    }

    function IsInverted(): (inverted: bool)
      reads this
      ensures inverted == regs.display.invertDisplay
    {
      regs.display.invertDisplay
    }
  }
}
