# SSD1322 OLED emulator core in Dafny

This project models the core of an emulator for SSD1322 OLED displays, and
proves properties of that model. The core has four layers:

- **Display memory** (`device/memory.go`, `device/device.go`). There are three ways
  of packing pixels into VRAM (video RAM, the display's pixel memory):
  - 4-bit pixels, two to a byte, in the controller's 480-column internal RAM;
  - 1-bit pixels, eight to a byte, stacked down a column;
  - 24-bit RGB, three bytes a pixel.

  A device keeps a "dirty rectangle": the clamped bounding box of every pixel
  changed since it was last cleared.
- **The SSD1322 controller** (`device/ssd1322.go`):
  - its register file;
  - the command handlers that change it;
  - the data path. This unpacks each data byte into two 4-bit pixels at a
    cursor that walks the addressing window.
- **The command protocol** (`protocol/commands.go`):
  - the opcode catalogue;
  - a byte builder;
  - the canned command sequences a driver sends (initialisation, one pixel,
    fill screen, contrast, inversion, power).
- **Graphics** (`graphics/*.go`):
  - a framebuffer over the controller, with a dirty flag and a copy of VRAM
    refreshed on Flush;
  - integer rasterisers for lines, rectangles, circles, ellipses and triangle
    outlines;
  - a bitmap font and its glyph decoder;
  - a text layer with line splitting, multi-line layout, measurement and
    alignment.

## How the model is built

- **Modules.** There is one module per source file: `Device`, `Memory`, `Controller`,
  `Commands`, `Framebuffer`, `Primitives`, `Bitmap` and `Text`. Three more
  modules are shared:
  - `Common`: bytes, results and points;
  - `Regions`: row-major scans of rectangles;
  - `Arith`: multiplication facts.
- **Bytes.** A Go `byte` is `bv8`, so `color << 4` and similar expressions wrap around exactly as in
  Go. Every other integer is unbounded.
- **Errors.** A Go `(value, error)` pair is `Result<T>`, and a bare `error` is `Outcome`. The
  formatted error text is reduced to one tag per kind of failure.
- **Classes.** State the source updates in place is a class:
  - `Device.BaseDevice`: VRAM `array<byte>` and dirty fields;
  - `Controller.SSD1322`: its registers;
  - `Framebuffer.FrameBuffer`: its buffer `array<byte>` and dirty flag;
  - `Commands.CommandBuilder`, `Bitmap.BitmapFont`, `Text.TextRenderer` and
    `Text.AlignedTextDrawer`.

  Each method is proved against a pure function of the old state. Those
  specification functions are:
  - `PutPixelNibble`, `WriteRun` and `Extract` for the memory helper;
  - `MarkRegion` for the dirty rectangle;
  - `Dispatch`, `Plot` and `Feed` for the controller;
  - `SetRun` and `PokeAll` for the framebuffer;
  - `StringPixels`, `TextPixels` and `SplitLinesOf` for text.

  The properties the source promises are then lemmas about those functions.
- **Rasterisers.** Each rasteriser takes a `setPixel` callback in Go. Here it is a method that
  returns the sequence of points it would pass to the callback, in order.
  `Framebuffer` then feeds that sequence through the clipping callback.
  - The predicate `Framebuffer.FrameBuffer.Plotted` names the state that
    leaves behind. `Plotted` holds when the screen equals `PokeAll` over the
    visible points, and the dirty flag equals the old flag or-ed with
    `AnyVisible`. `PokeAll` is the device write with errors discarded, and
    `AnyVisible` says whether some point is on screen.
  - `Written` is the same for writes through the framebuffer's own `SetPixel`,
    as drawGlyph makes them.

## Model

| member | source | states |
|---|---|---|
| Memory.WithNibble | device/memory.go:49-58 | the addressed nibble becomes the low four bits of the colour and the other nibble of the byte is kept |
| Memory.WithBit | device/memory.go:104-108 | bit k is set for a non-zero colour and cleared for zero; the other seven bits are kept |
| Memory.MemoryHelper.PixelToByteOffsetNibble | device/memory.go:24-36 | fails (pixel out of bounds) exactly outside the width by height plane; otherwise 2 * byte + nibble == 480 * y + x + column offset, nibble in {0, 1} |
| Memory.MemoryHelper.GetPixelNibble | device/memory.go:64-78 | succeeds exactly when the pixel is in the plane and its byte is inside VRAM; the value is at most 0x0F; the error says which check failed |
| Memory.MemoryHelper.PutPixelNibble | device/memory.go:39-61 | same success condition and errors as the read; on success the VRAM keeps its length and the pixel reads back as color & 0x0F |
| Memory.MemoryHelper.NibbleWriteFrame | device/memory.go:45-58 | a nibble write changes one byte only, and keeps the other nibble of that byte |
| Memory.MemoryHelper.SetPixelNibble | device/memory.go:39-61 | the array afterwards is PutPixelNibble's result, or unchanged and the error returned |
| Memory.MemoryHelper.NibbleOffsetFits | device/memory.go:24-36 | when the viewport plus the column offset fits in 480 columns, every pixel of the plane lies inside the 480 * height / 2 byte VRAM the device allocates |
| Memory.MemoryHelper.NibbleSlotsDistinct | device/memory.go:31-33 | under the same condition, distinct pixels have distinct (byte, nibble) slots |
| Memory.MemoryHelper.NibbleWriteIsolated | device/memory.go:39-78 | writing one pixel leaves every other pixel of the plane reading as before |
| Memory.MemoryHelper.PixelToByteOffsetVertical | device/memory.go:81-91 | fails exactly outside the plane; otherwise the byte divided by the column stride (height + 7) / 8 is x, and (byte mod stride) * 8 + bit is y |
| Memory.MemoryHelper.GetPixelVertical | device/memory.go:114-128 | succeeds exactly when the pixel is in the plane and its byte inside VRAM; the value is 0 or 1 |
| Memory.MemoryHelper.PutPixelVertical | device/memory.go:94-111 | on success the pixel reads back 1 for a non-zero colour and 0 otherwise; no other byte and no other bit of its byte changes |
| Memory.MemoryHelper.SetPixelVertical | device/memory.go:94-111 | the array afterwards is PutPixelVertical's result, or unchanged and the error returned |
| Memory.MemoryHelper.VerticalOffsetFits | device/memory.go:81-91 | every pixel of the plane lies inside the width * ((height + 7) / 8) bytes the device allocates |
| Memory.MemoryHelper.VerticalWriteIsolated | device/memory.go:94-128 | writing one pixel leaves every other pixel of the plane reading as before |
| Memory.MemoryHelper.GetPixelRGB888 | device/memory.go:149-160 | succeeds exactly when the pixel is in the plane and its three bytes are inside VRAM; the error says which check failed |
| Memory.MemoryHelper.PutPixelRGB888 | device/memory.go:131-146 | on success the pixel reads back (r, g, b) and every byte outside its three is kept |
| Memory.MemoryHelper.SetPixelRGB888 | device/memory.go:131-146 | the array afterwards is PutPixelRGB888's result, or unchanged and the error returned |
| Memory.MemoryHelper.RGBOffsetFits | device/memory.go:131-146 | every pixel of the plane lies inside the width * height * 3 bytes the device allocates |
| Memory.MemoryHelper.RGBWriteIsolated | device/memory.go:131-160 | writing one pixel leaves every other pixel of the plane reading as before |
| Memory.MemoryHelper.WriteRunAbsorbs | device/memory.go:166-172 | once a write of a fill has failed, the later points change neither VRAM nor the outcome |
| Memory.MemoryHelper.WriteRunFirstError | device/memory.go:166-172 | a fill returns the error of its first failing pixel, with the pixels before it written |
| Memory.MemoryHelper.WriteRunReadsBack | device/memory.go:163-188 | a fill over points of the plane in a VRAM of the allocated size succeeds, leaves exactly those pixels at the stored value, and keeps every other pixel |
| Memory.MemoryHelper.FillReadsBack | device/memory.go:163-188 | filling a rectangle inside the plane succeeds, sets the rectangle and keeps every pixel outside it |
| Memory.MemoryHelper.FillRegionNibble | device/memory.go:163-175 | VRAM and error afterwards are those of the row-major run of 4-bit writes of color & 0x0F over the inclusive rectangle |
| Memory.MemoryHelper.FillRegionVertical | device/memory.go:178-188 | VRAM and error afterwards are those of the row-major run of 1-bit writes over the inclusive rectangle |
| Memory.MemoryHelper.FillRegion | device/memory.go:166-172 | the nested loops shared by both fills compute the row-major run, stopping at the first error |
| Memory.MemoryHelper.FillRow | device/memory.go:167-171 | the inner loop extends the run by one row from x0 to x1 |
| Memory.MemoryHelper.ExtractRegionNibble | device/memory.go:191-220 | returns the buffer of (w * h) / 2 + 1 bytes built by the as-written slot rule, or the first pixel read error |
| Memory.MemoryHelper.ExtractOk | device/memory.go:198-204 | extraction succeeds exactly when every pixel of the rectangle can be read |
| Memory.MemoryHelper.ExtractReadsBack | device/memory.go:206-216 | under a slot rule that keeps pixels apart, every pixel of a readable rectangle reads back from its slot of the extracted buffer |
| Memory.MemoryHelper.ExtractEvenWidthReadsBack | device/memory.go:206-216 | as written, extraction is faithful for rectangles of even width |
| Memory.SlotRulesAgree | device/memory.go:209-210 | the column-parity rule and the row-major-parity rule agree when the width is even |
| Memory.MemoryHelper.ExtractOddWidthCollides | device/memory.go:209-210 | as written, for an odd width the last pixel of the first row and the first pixel of the second row go to the same nibble |
| Memory.MemoryHelper.ExtractLinearReadsBack | device/memory.go:209-210 | with the nibble chosen by the parity of the row-major index, every pixel of a readable rectangle of any width reads back |
| Device.VramSize | device/device.go:92-113 | the allocation is positive: 480 * height / 2 bytes for 4-bit pixels, width * ((height + 7) / 8) for 1-bit, width * height * 3 for RGB |
| Device.NibbleVramIgnoresWidth | device/device.go:96-101 | the 4-bit allocation does not depend on the viewport width and is at least one row of 240 bytes |
| Device.ClampRect | device/device.go:139-151 | each corner is moved into the viewport only when it lies outside it |
| Device.MarkRegion | device/device.go:138-174 | a clean region becomes the clamped rectangle; the result encloses both the old region and the clamped rectangle, and stays inside the viewport when the old region did |
| Device.MarkRegionIsLeast | device/device.go:153-173 | the marked region is enclosed by every rectangle that encloses the old region and the clamped mark: it is their bounding box |
| Device.MarkRegionIdempotent | device/device.go:138-174 | marking the same rectangle twice is marking it once |
| Device.MarkRegionKeepsCover | device/device.go:153-173 | a pixel covered by the region stays covered after every later mark |
| Device.BaseDevice.constructor | device/device.go:70-89 | a device with a fresh zeroed VRAM of the size its pixel format needs and a clean dirty region |
| Device.BaseDevice.GetFrameBuffer | device/device.go:116-118 | returns the VRAM array itself, not a copy |
| Device.BaseDevice.GetDirtyRegion | device/device.go:121-126 | four -1 exactly when nothing is dirty, else the corners of the dirty box |
| Device.BaseDevice.ClearDirtyRegion | device/device.go:129-135 | the region is clean afterwards |
| Device.BaseDevice.MarkDirty | device/device.go:138-174 | the region afterwards is MarkRegion of the old one |
| Device.BaseDevice.Width | device/device.go:177-179 | the configured width, positive |
| Device.BaseDevice.Height | device/device.go:182-184 | the configured height, positive |
| Device.BaseDevice.ColorDepth | device/device.go:187-189 | the configured colour depth |
| Device.BaseDevice.Format | device/device.go:192-194 | the configured pixel format |
| Controller.HomeWindow | device/ssd1322.go:96-102 | the window covers the viewport, with the cursor at its origin and inside it |
| Controller.PowerOnRegisters | device/ssd1322.go:76-115 | command lock on, display off, command mode, home window |
| Controller.Address | device/ssd1322.go:156-170 | with two parameter bytes the column (row) command sets the window bounds and puts the cursor at the start; the other axis is kept; with fewer bytes nothing changes |
| Controller.DisplayCommand | device/ssd1322.go:132-260 | display on and sleep switch the display; with a parameter byte, contrast stores it, master contrast stores it & 0x0F, invert its low bit, start line it & 0x7F, display offset the byte; 0x2E clears the scroll flag, 0x2F sets it, and 0x26 sets it only with five parameter bytes |
| Controller.DriveCommand | device/ssd1322.go:190-246 | a drive setter without a parameter byte changes nothing; with one, multiplex, remap, clock divider, phase length, precharge, VCOMH and grayscale mode each store the byte |
| Controller.Dispatch | device/ssd1322.go:118-270 | only the lock command touches the lock (0xB1 unlocks, 0xB0 locks, anything else keeps it); Write RAM and Read RAM enter data mode and nothing leaves it; an unlisted opcode changes nothing; only the address commands touch the window; each register group changes only for its own opcodes |
| Controller.LockNotEnforced | device/ssd1322.go:150-153 | every other command acts the same whether the controller is locked or not |
| Controller.ShortPayloadIgnored | device/ssd1322.go:156-260 | a command without the parameter bytes its handler checks for changes nothing |
| Controller.ContinuousScrollIgnored | device/ssd1322.go:266-268 | the continuous-scroll opcode falls to the default case and changes nothing |
| Controller.SettersMask | device/ssd1322.go:172-200 | master contrast stores data & 0x0F (so at most 0x0F), start line data & 0x7F (so between 0 and 0x7F), invert the low bit, contrast the whole byte |
| Controller.DisplaySettersStore | device/ssd1322.go:172-206 | with a parameter byte, each of contrast, master contrast, invert, start line and display offset stores its (masked) byte and leaves every other register as it was |
| Controller.DriveSettersStore | device/ssd1322.go:190-246 | with a parameter byte, each of the seven drive setters stores the byte in its own register and leaves every other register as it was |
| Controller.ScrollCommands | device/ssd1322.go:248-260 | 0x2E clears the scroll flag, 0x2F sets it, 0x26 with at least five parameter bytes sets it; nothing else changes |
| Controller.EmptyHandlers | device/ssd1322.go:226-264 | the display-mode and display-enhancement opcodes change nothing |
| Controller.ColumnAddressPlacesCursor | device/ssd1322.go:156-162 | the column command puts the cursor at the new start; the cursor is in the window exactly when start <= end and the row was already in range |
| Controller.RowAddressPlacesCursor | device/ssd1322.go:164-170 | the same for the row command |
| Controller.DispatchKeepsCursor | device/ssd1322.go:118-270 | every command other than the two address commands keeps the cursor inside the window |
| Controller.ResetRegisters | device/ssd1322.go:349-364 | a reset restores the power-on registers, except that the drive settings (multiplex, clock, phase, precharge, VCOMH, remap, grayscale) are kept |
| Controller.ResetIdempotent | device/ssd1322.go:349-364 | the registers after two resets are those after one |
| Controller.ResetPanelIdempotent | device/ssd1322.go:345-366 | display RAM and the dirty region after two resets are those after one; with ResetIdempotent, a second Reset changes nothing |
| Controller.Advance | device/ssd1322.go:306-313 | moves the cursor one column on, wrapping to the next row at the window's end and back to the top after its last row; nothing else changes, and a cursor in the window stays in it |
| Controller.Plot | device/ssd1322.go:324-335 | SetPixel succeeds exactly when the nibble is addressable; on success the pixel reads color & 0x0F and the dirty region is marked with that pixel; the errors of both checks |
| Controller.Poke | device/ssd1322.go:289-291 | a write whose error is discarded keeps the VRAM length and only grows the dirty region |
| Controller.PokeIsolated | device/ssd1322.go:289-291 | a write leaves every other pixel of the viewport reading as before |
| Controller.PokeReads | device/ssd1322.go:289-291 | on a VRAM that holds the viewport, a written pixel reads back masked |
| Controller.PokeAllAppend | graphics/framebuffer.go:152-159 | writing a then b is writing a + b |
| Controller.PokeAllReadsBack | graphics/framebuffer.go:152-159 | after writes over pts, a pixel of the viewport reads the colour exactly when it is in pts (and is then covered by the dirty region), and reads as before otherwise |
| Controller.FeedByte | device/ssd1322.go:278-318 | a byte is accepted only while the cursor is in the window and left of the viewport's right edge; an accepted byte advances the cursor, a refused one changes nothing; registers other than the cursor are kept |
| Controller.FeedKeepsRegisters | device/ssd1322.go:273-321 | WriteData's loop changes only the cursor, VRAM and dirty region, keeps the cursor in the window and never shrinks the dirty region |
| Controller.FeedStuck | device/ssd1322.go:284-317 | once a byte is refused, the cursor does not move, so every later byte of the payload is dropped too |
| Controller.FeedConfined | device/ssd1322.go:273-321 | pixels right of, above or below what the cursor's window can reach keep their values |
| Controller.FeedByteUnpacks | device/ssd1322.go:290-303 | an accepted byte puts its low nibble at the cursor's column and its high nibble at the next |
| Controller.FeedByteWrites | device/ssd1322.go:290-303 | an accepted byte makes exactly two nibble writes, low nibble first |
| Controller.FeedByteWritesLast | device/ssd1322.go:298-303 | at the last column of the viewport only the low nibble is written |
| Controller.FeedTwoBytesOverlap | device/ssd1322.go:306-307 | two consecutive bytes overlap: the second's low nibble overwrites the first's high nibble, as the column advances once per byte |
| Controller.ResetPanel | device/ssd1322.go:345-366 | a reset zeroes every VRAM byte and marks the whole viewport into the existing dirty region |
| Controller.ResetClearsViewport | device/ssd1322.go:343-368 | after a reset every pixel of the viewport reads 0 and is covered by the dirty region |
| Controller.SSD1322.constructor | device/ssd1322.go:76-115 | zeroed 480-column VRAM, the power-on registers and a clean region |
| Controller.SSD1322.ProcessCommand | device/ssd1322.go:118-270 | the registers afterwards are Dispatch of the old ones; never an error |
| Controller.SSD1322.WriteData | device/ssd1322.go:273-321 | refused with an error unless in data mode; otherwise the state afterwards is the byte-by-byte Feed of the payload |
| Controller.SSD1322.WriteByte | device/ssd1322.go:278-318 | one pass of WriteData's loop is FeedByte |
| Controller.SSD1322.PlotByte | device/ssd1322.go:290-303 | writes the low nibble, then the high nibble only when the next column is in the viewport |
| Controller.SSD1322.PlotPixel | device/ssd1322.go:292-294 | a nibble write marked dirty only when it succeeded |
| Controller.SSD1322.SetPixel | device/ssd1322.go:324-335 | the panel afterwards is Plot's result, or unchanged and the error returned |
| Controller.SSD1322.GetPixel | device/ssd1322.go:338-340 | reads the nibble of the current VRAM |
| Controller.SSD1322.Reset | device/ssd1322.go:343-368 | registers ResetRegisters, panel ResetPanel, never an error |
| Controller.SSD1322.GetFrameBuffer | device/device.go:116-118 | returns the VRAM array itself |
| Controller.SSD1322.IsDisplayOn | device/ssd1322.go:371-373 | the display-on register |
| Controller.SSD1322.GetContrastLevel | device/ssd1322.go:376-378 | the contrast register |
| Controller.SSD1322.IsInverted | device/ssd1322.go:381-383 | the inversion register |
| Commands.GetCommandInfo | protocol/commands.go:63-69 | the catalogue entry for a listed opcode, else the unknown-command error |
| Commands.CatalogueKeyedByCode | protocol/commands.go:16-60 | every entry is filed under its own opcode |
| Commands.CatalogueCoversController | protocol/commands.go:16-60 | every opcode the controller handles is listed; the listed opcodes without a handler are exactly 0xA5, 0xA7, 0xD1 and 0x27 |
| Commands.CatalogueParameterCounts | protocol/commands.go:16-60 | the catalogue's parameter counts match what the handlers read: 1 for each single-byte setter, 2 for the address commands, 5 for the horizontal scroll |
| Commands.GetCommandInfoExamples | protocol/commands.go:55-68 | 0xFD is CommandLock taking one byte; 0xFF is unknown |
| Commands.CommandBuilder.constructor | protocol/commands.go:77-81 | an empty byte list |
| Commands.CommandBuilder.AddCommand | protocol/commands.go:84-87 | appends the opcode |
| Commands.CommandBuilder.AddData | protocol/commands.go:90-93 | appends the data byte |
| Commands.CommandBuilder.AddBytes | protocol/commands.go:96-99 | appends the bytes in order |
| Commands.CommandBuilder.Build | protocol/commands.go:102-106 | a fresh array holding the bytes so far |
| Commands.CommandBuilder.Reset | protocol/commands.go:109-112 | empties the list |
| Commands.PackedPair | protocol/commands.go:186 | the byte (color << 4) \| color carries color & 0x0F in its low nibble; the high nibble also picks up color's own high bits; for a 4-bit colour it is color * 0x11 |
| Commands.InitSequence | protocol/commands.go:115-170 | 33 bytes starting with the unlock pair 0xFD 0xB1 and ending with display on |
| Commands.DrawPixelCommand | protocol/commands.go:173-189 | column window x..x, row window y..y, Write RAM, then the packed colour byte |
| Commands.DrawPixelLandsAtWindowStart | protocol/commands.go:173-189 | sent to the controller, the sequence puts the window and cursor at (x, y) and enters data mode; the data byte is then drawn at viewport columns 0 and 1 of row y, because the data path subtracts the window start |
| Commands.InversionCommand | protocol/commands.go:222-227 | 0xA7 for inverted, 0xA6 otherwise |
| Commands.InversionIgnored | protocol/commands.go:222-227 | neither result changes the controller: 0xA7 has no handler and 0xA6 without its parameter byte is ignored |
| Commands.PowerCommand | protocol/commands.go:230-235 | 0xAF for on, 0xAE for off |
| Commands.PowerCommandSwitches | protocol/commands.go:230-235 | the command switches the display as asked and changes nothing else |
| Commands.ContrastCommand | protocol/commands.go:214-219 | 0xC1 followed by the level |
| Commands.ContrastCommandSets | protocol/commands.go:214-219 | the command sets the contrast register to the level and changes nothing else |
| Commands.FillScreenBytes | protocol/commands.go:192-211 | the seven-byte header, then 7680 packed colour bytes |
| Commands.FillScreenCommand | protocol/commands.go:192-211 | the builder loop produces FillScreenBytes |
| Commands.FillScreenReachesOnlyLeftColumns | protocol/commands.go:196-208 | as the data path works, the fill reaches only viewport columns 0 to 64 (the 64 window columns, plus one high nibble beyond): every pixel right of column 64 keeps its value |
| Framebuffer.SetRun | graphics/framebuffer.go:35-41 | SetPixel at each point in order, returning at the first error; nothing written means nothing changed |
| Framebuffer.SetRunAbsorbs | graphics/framebuffer.go:37-39 | once a write has failed, the later points change nothing |
| Framebuffer.SetRunPokes | graphics/framebuffer.go:31-44 | over points of the viewport on a VRAM that holds it, no write fails and the run equals the error-discarding writes |
| Framebuffer.ClearFills | graphics/framebuffer.go:31-44 | Clear on a VRAM that holds the viewport succeeds and leaves every pixel at the colour and covered by the dirty region |
| Framebuffer.AcceptedIsVisible | graphics/framebuffer.go:65-71 | on a VRAM that holds the viewport, the device accepts a write exactly when the callback's bounds test lets it through |
| Framebuffer.AnyVisibleMeans | graphics/framebuffer.go:65-71 | the callback sets the dirty flag exactly when some point lies in the viewport |
| Framebuffer.InvisibleUntouched | graphics/framebuffer.go:65-71 | points all outside the viewport change nothing |
| Framebuffer.WrittenChain | graphics/bitmap.go:40-62 | writes continued from where earlier writes left the screen and flag compose into the writes of the concatenation |
| Framebuffer.FillRegionReadsBack | graphics/framebuffer.go:145-162 | a fill leaves the visible cells of the w by h rectangle at the colour and every other pixel as it was |
| Framebuffer.CopyBytes | graphics/framebuffer.go:171 | Go's copy between slices of equal length |
| Framebuffer.FrameBuffer.constructor | graphics/framebuffer.go:17-28 | a fresh copy of the device's VRAM, clean flag |
| Framebuffer.FrameBuffer.SetPixel | graphics/framebuffer.go:47-54 | the device's SetPixel; the flag is set only when it succeeded |
| Framebuffer.FrameBuffer.GetPixel | graphics/framebuffer.go:57-59 | the device's pixel |
| Framebuffer.FrameBuffer.Clear | graphics/framebuffer.go:31-44 | the screen and error are SetRun over the viewport in row-major order; the flag is set when a write landed |
| Framebuffer.FrameBuffer.ClearRow | graphics/framebuffer.go:36-40 | the inner loop extends the run by one row |
| Framebuffer.FrameBuffer.PlotVisible | graphics/framebuffer.go:65-71 | the callback for one point: a point in the viewport is written, its error discarded, and sets the flag; any other point changes nothing |
| Framebuffer.FrameBuffer.PlotAll | graphics/framebuffer.go:65-71 | the callback over a primitive's points: visible points are written, errors discarded, and set the flag |
| Framebuffer.FrameBuffer.DrawLine | graphics/framebuffer.go:62-74 | the Bresenham points go through the callback in colour color & 0x0F; never an error |
| Framebuffer.FrameBuffer.DrawRect | graphics/framebuffer.go:77-92 | a negative size is an error with nothing changed; otherwise the rectangle's points go through the callback |
| Framebuffer.FrameBuffer.DrawCircle | graphics/framebuffer.go:95-110 | a negative radius is an error with nothing changed; otherwise the filled or outline points go through the callback |
| Framebuffer.FrameBuffer.DrawEllipse | graphics/framebuffer.go:113-128 | a negative radius is an error with nothing changed; otherwise the ellipse points go through the callback |
| Framebuffer.FrameBuffer.DrawTriangle | graphics/framebuffer.go:131-142 | the outline's points go through the callback; never an error |
| Framebuffer.FrameBuffer.FillRegion | graphics/framebuffer.go:145-162 | a negative size is an error with nothing changed; otherwise the rectangle's cells row by row go through the callback |
| Framebuffer.FrameBuffer.FillRow | graphics/framebuffer.go:153-158 | the inner loop extends the writes by one row |
| Framebuffer.FrameBuffer.Flush | graphics/framebuffer.go:165-175 | copies VRAM into the buffer only when the flag was set, then clears it; the device is untouched |
| Framebuffer.FrameBuffer.IsDirty | graphics/framebuffer.go:178-180 | the flag |
| Framebuffer.FrameBuffer.GetBuffer | graphics/framebuffer.go:183-187 | a fresh copy of the buffer |
| Framebuffer.FrameBuffer.Width | graphics/framebuffer.go:195-197 | the device width, positive |
| Framebuffer.FrameBuffer.Height | graphics/framebuffer.go:200-202 | the device height, positive |
| Primitives.Abs | graphics/primitives.go:257-262 | non-negative, and x or -x |
| Primitives.Sign | graphics/primitives.go:264-272 | -1, 0 or 1, zero exactly for 0, and sign * abs == x |
| Primitives.Min | graphics/primitives.go:274-279 | one of the arguments, at most both |
| Primitives.Max | graphics/primitives.go:281-286 | one of the arguments, at least both |
| Primitives.Clamp | graphics/primitives.go:289-297 | the value inside the range; the lower bound below it and the upper above it; for an empty range the lower-bound test wins |
| Primitives.ClampIdempotent | graphics/primitives.go:289-297 | clamping twice is clamping once |
| Primitives.DrawLineBresenham | graphics/primitives.go:8-35 | emits the walk of the integer error-term loop from (x0, y0) |
| Primitives.LineShape | graphics/primitives.go:8-35 | the line starts at (x0, y0) and ends at (x1, y1), each point is a king move on from the one before toward the end, and all lie in the end points' bounding box |
| Primitives.LineEnds | graphics/primitives.go:8-35 | the ends and the bounding box alone |
| Primitives.DrawHorizontalLine | graphics/primitives.go:106-113 | the run between the two ends |
| Primitives.HSpanShape | graphics/primitives.go:106-113 | one point per column from the smaller end to the larger, left to right |
| Primitives.DrawRect | graphics/primitives.go:116-139 | rows for a filled rectangle; else top, bottom, then both sides row by row |
| Primitives.FilledRectExact | graphics/primitives.go:117-122 | a filled rectangle at least one wide covers exactly its w by h cells, once each |
| Primitives.ZeroWidthRectDrawsTwoColumns | graphics/primitives.go:117-122 | a filled rectangle of width 0 still draws columns x - 1 and x, as drawHorizontalLine orders its ends |
| Primitives.OutlineRectOnEdges | graphics/primitives.go:123-138 | an outline lies on the rectangle's edges and contains its four corners |
| Primitives.CircleOutline | graphics/primitives.go:48-52 | nothing for a radius that is not positive |
| Primitives.FilledCircle | graphics/primitives.go:79-83 | nothing for a radius that is not positive |
| Primitives.DrawCircleOutline | graphics/primitives.go:48-76 | emits the midpoint loop's eight points per step |
| Primitives.DrawFilledCircle | graphics/primitives.go:79-103 | emits the midpoint loop's four runs per step |
| Primitives.DrawCircle | graphics/primitives.go:38-45 | the filled or outline form |
| Primitives.CircleOutlineSymmetric | graphics/primitives.go:48-76 | the outline is closed under the eight symmetries of the square about the centre |
| Primitives.CircleOutlineBounded | graphics/primitives.go:48-76 | every outline point lies within r of the centre each way |
| Primitives.CircleOutlineInsideFilled | graphics/primitives.go:48-103 | every outline point is also drawn by the filled circle |
| Primitives.FilledCircleSymmetric | graphics/primitives.go:79-103 | the filled circle is closed under both axis mirrors |
| Primitives.FilledCircleBounded | graphics/primitives.go:79-103 | every filled point lies within r of the centre each way |
| Primitives.Ellipse | graphics/primitives.go:142-153 | nothing unless both radii are positive |
| Primitives.DrawEllipseOutline | graphics/primitives.go:156-180 | emits the midpoint loop's four points per step |
| Primitives.DrawFilledEllipse | graphics/primitives.go:183-205 | emits the loop's two runs per step |
| Primitives.DrawEllipse | graphics/primitives.go:142-153 | the filled or outline form, or nothing |
| Primitives.EllipseShape | graphics/primitives.go:142-205 | ellipse points are symmetric in both axes and within rx of the centre; outline points lie in the wedge \|dy\| <= \|dx\|, and every one is also drawn by the filled form |
| Primitives.TallEllipseMissesPoles | graphics/primitives.go:163-179 | when rx < ry the ellipse never reaches its top or bottom point |
| Primitives.DrawTriangleOutline | graphics/primitives.go:213-216 | three Bresenham lines around the vertices and back |
| Primitives.TriangleOutlineShape | graphics/primitives.go:213-216 | the outline starts and ends at the first vertex, passes both others, and stays in their bounding box |
| Bitmap.LitMeans | graphics/bitmap.go:94-107 | a cell is drawn exactly when bit 7 - gx mod 8 of byte gy * ceil(w / 8) + gx / 8 is set and its screen point is not negative |
| Bitmap.GlyphPixelsMembers | graphics/bitmap.go:82-126 | the pixels of a non-empty glyph are exactly the screen points of its lit cells |
| Bitmap.GlyphRestDark | graphics/bitmap.go:94-96 | stopping when the byte counter passes the data loses no pixel: every later cell is dark |
| Bitmap.SpaceDrawsNothing | graphics/bitmap.go:153-155 | the default space glyph sets no pixel |
| Bitmap.DecodeGlyph | graphics/bitmap.go:82-126 | the decoder loops emit the glyph's pixels in row-major order |
| Bitmap.DecodeRow | graphics/bitmap.go:92-122 | one row of the decoder, stopping early when the data runs out, ending at the next row's byte |
| Bitmap.DecodeCell | graphics/bitmap.go:98-110 | one cell: its bit is read and its screen point kept when set and not negative |
| Bitmap.CounterStep | graphics/bitmap.go:112-116 | the bit counter wraps at 8 and carries into the byte counter |
| Bitmap.Lookup | graphics/bitmap.go:73-79 | the glyph for a rune in the table, else the glyph-not-found error |
| Bitmap.LookupAfterAdd | graphics/bitmap.go:31-33 | adding a glyph replaces that rune's entry and keeps every other |
| Bitmap.StringPixelsAppend | graphics/bitmap.go:40-62 | drawing a then b, |a| advances further on, is drawing a + b |
| Bitmap.StringStep | graphics/bitmap.go:40-62 | rune i is drawn i advances on from the start |
| Bitmap.RuneLength | graphics/bitmap.go:69 | 1 to 4 bytes, one exactly for ASCII |
| Bitmap.Utf8Length | graphics/bitmap.go:69 | between the rune count and four times it |
| Bitmap.AsciiLength | graphics/bitmap.go:69 | the byte length of ASCII text is its rune count |
| Bitmap.Utf8LengthIsRuneCount | graphics/bitmap.go:69 | and only ASCII text has its byte length equal to its rune count |
| Bitmap.MeasureMatchesDrawOnAscii | graphics/bitmap.go:40-69 | MeasureString's width equals DrawString's exactly on ASCII text |
| Bitmap.BitmapFont.constructor | graphics/bitmap.go:16-23 | an empty table with the given metrics |
| Bitmap.BitmapFont.Height | graphics/bitmap.go:26-28 | the font height |
| Bitmap.BitmapFont.AddGlyph | graphics/bitmap.go:31-33 | the table with that rune's entry set |
| Bitmap.BitmapFont.GetGlyph | graphics/bitmap.go:73-79 | Lookup in the table |
| Bitmap.BitmapFont.MeasureString | graphics/bitmap.go:68-70 | the UTF-8 byte length times the advance, and the font height |
| Bitmap.BitmapFont.DrawGlyph | graphics/bitmap.go:82-126 | the glyph's pixels written through the framebuffer's SetPixel; never an error |
| Bitmap.BitmapFont.DrawString | graphics/bitmap.go:36-65 | each rune drawn with its glyph, else the space glyph for a rune other than space, else nothing, one advance per rune, in colour color & 0x0F; returns the rune count times the advance |
| Bitmap.DefaultBitmapFont | graphics/bitmap.go:129-139 | a 5 by 7 font advancing 6, with exactly the runes 32 to 126, each with its ASCII glyph |
| Bitmap.DefaultGlyphShape | graphics/bitmap.go:142-245 | every default glyph is 5 by 7, with one byte per row and advance 6; space is blank and a rune without a drawing is the block 0x78 |
| Bitmap.BlockGlyphPixels | graphics/bitmap.go:142-245 | a rune without a drawing, drawn at a non-negative position, fills the 4 by 7 block one column in |
| Text.DefaultTextOptions | graphics/text.go:51-58 | left aligned, no spacing, colour 0x0F |
| Text.SplitLinesOf | graphics/text.go:125-147 | never empty |
| Text.SplitLines | graphics/text.go:125-147 | the loop computes SplitLinesOf |
| Text.LinesHaveNoBreaks | graphics/text.go:125-147 | no line holds a newline or a carriage return |
| Text.SplitJoinRoundTrip | graphics/text.go:125-147 | text without carriage returns splits into one more line than it has newlines, and the lines joined with newlines are the text |
| Text.CarriageReturnsIgnored | graphics/text.go:129-135 | carriage returns change nothing unless the text ends with one |
| Text.TrailingCarriageReturn | graphics/text.go:139-141 | "a\n" gives ["a", ""] but "a\n\r" gives ["a"] |
| Text.TextPixelsAppend | graphics/text.go:85-99 | drawing two runs of lines, the second |a| steps lower, is drawing them all |
| Text.AlignedX | graphics/text.go:167-176 | left draws at x, right ends at x, centre puts x at the middle, rounding as Go's truncating width / 2 does; an unknown alignment draws at 0 |
| Text.TextRenderer.constructor | graphics/text.go:67-72 | the font with the default options |
| Text.TextRenderer.SetOptions | graphics/text.go:75-77 | replaces the options |
| Text.TextRenderer.DrawText | graphics/text.go:80-82 | DrawString in the options' colour |
| Text.TextRenderer.DrawMultilineText | graphics/text.go:85-99 | each split line drawn at x, one font height plus the line spacing below the previous; never an error |
| Text.TextRenderer.DrawLines | graphics/text.go:90-96 | the loop over the lines draws TextPixels |
| Text.TextRenderer.DrawLineFrom | graphics/text.go:91 | one line continuing the writes so far |
| Text.TextRenderer.MeasureMultilineText | graphics/text.go:102-122 | the widest line's MeasureString width (0 when every line is empty), and n font heights plus n - 1 line spacings for n lines |
| Text.AlignedTextDrawer.constructor | graphics/text.go:155-159 | a fresh renderer with the default options |
| Text.AlignedTextDrawer.DrawAlignedText | graphics/text.go:162-184 | stores the colour in the renderer's options and draws the string at AlignedX of x and MeasureString's width |
| Text.AlignedTextDrawer.DrawCenteredText | graphics/text.go:187-189 | DrawAlignedText with centre alignment |
| Text.AlignedTextDrawer.DrawRightAlignedText | graphics/text.go:192-194 | DrawAlignedText with right alignment |

## Left out

- The animation, emulator window and rendering, SPI transport, image and TrueType
  files, and the example programs are not part of this model.
- Lerp, Map and Distance (graphics/primitives.go:300-314) compute in floating point, which the model does not cover.
- DrawFilledTriangle (graphics/primitives.go:220-253) interpolates its edges in floating point, so it is left out.
- Framebuffer.FrameBuffer.DrawTriangle: models only the outline branch (`filled` false). The filled branch uses DrawFilledTriangle, which is left out.
- The Device and Font interfaces (device/device.go:28-56, graphics/text.go:8-21)
  are fixed to the one implementation each in the core: the framebuffer holds an
  SSD1322 and the renderers hold a BitmapFont.
- GetDevice (graphics/framebuffer.go:190-192): the model exposes the framebuffer's device field directly.
- NewMemoryHelper (device/memory.go:14-21) is the constructor of the MemoryHelper datatype itself.
- Error messages (fmt.Errorf text and %w wrapping) become one tag per kind of error.
- Go's `int` is 64 bits wide; the model's integers are unbounded, so overflow on huge coordinates is not modelled.
- Go strings are byte sequences, and ranging over one decodes UTF-8. The model's strings are sequences of Unicode scalar values. Invalid UTF-8, which Go decodes to U+FFFD, is not modelled.
- Memory.MemoryHelper.ExtractRegionNibble: Go's `make` panics when the buffer length (w * h) / 2 + 1 is negative, as for x0 = 0, x1 = -6, y0 = y1 = 0. The model excludes those rectangles by a precondition rather than modelling the panic.
- NewBaseDevice panics on a non-positive size (device/device.go:72-74); the model makes a positive size a precondition. The unsupported-format panic of allocateVRAM cannot happen with the three formats.
- Bitmap.BitmapFont.DrawString and Text.TextRenderer.DrawMultilineText: the branches that return a glyph error are not modelled as reachable. drawGlyph never returns an error, so both always return nil, and the contracts say so.
- Text.TextRenderer.MeasureMultilineText: the `len(lines) == 0` branch and the error branch are unreachable. splitLines never returns an empty list, and MeasureString never fails.
- The CharSpacing option is stored but never read by the source, so it affects nothing in the model either.
- Controller.Dispatch: the scroll-enable, start-line and display-offset registers are stored but never read by the emulator. The model stores them too.

## Findings

| source | as written | input that shows it | evidently intended | confidence | as-written member | corrected member |
|---|---|---|---|---|---|---|
| device/memory.go:209 | the nibble of the extracted buffer is chosen by `relX % 2`, while the byte is chosen by the row-major index `(relY * width + relX) / 2` | x0 = 0, x1 = 2, y0 = 0, y1 = 1 (width 3): pixels (2, 0) and (0, 1) both go to byte 1, low nibble, so the second overwrites the first | choose the nibble by the parity of the row-major index, `(relY * width + relX) % 2`, so every pixel gets its own nibble | not executed | Memory.MemoryHelper.ExtractOddWidthCollides | Memory.MemoryHelper.ExtractLinearReadsBack |

`Memory.MemoryHelper.ExtractRegionNibble` itself follows the code as written. `ExtractEvenWidthReadsBack` shows the defect stays hidden whenever the region width is even.

## Notes on the code

Behaviours of the code a reader may not expect:

- **WriteData's column step.** WriteData advances the column by one per data byte, yet each byte
  writes two pixels. Consecutive bytes therefore overlap: `FeedTwoBytesOverlap`
  proves this.
- **WriteData's column origin.** The viewport column written is the cursor column minus the window start, with no
  adjustment for the panel's 28-column offset. So a driver's
  one-pixel command lands at columns 0 and 1 rather than at x
  (`DrawPixelLandsAtWindowStart`). The canned fill-screen sequence likewise
  reaches only columns 0 to 64 (`FillScreenReachesOnlyLeftColumns`).
- **Reset and the dirty region.** Reset marks the whole viewport into the dirty region. It merges with the
  old region instead of replacing it.
- **The command lock.** The lock is recorded but gates nothing (`LockNotEnforced`).
- **Bytes and runes.** MeasureString counts UTF-8 bytes while DrawString advances once per rune.
  The two agree only on ASCII text (`MeasureMatchesDrawOnAscii`).
- **A final carriage return.** A text ending in "\n\r" loses the empty last line that a text ending in "\n"
  keeps (`TrailingCarriageReturn`).
- **Unknown alignment.** An alignment other than left, centre or right draws at x = 0 (`AlignedX`).
- **Flush.** Flush refreshes the buffer only when the framebuffer's own flag is set. Writes
  made to the device directly are not picked up until the next drawing call.
- **Wide viewports.** A viewport wider than 452 columns wraps into the next internal row. On the
  last row it runs past the end of VRAM, so Clear fails there. The lemmas
  about whole-viewport writes assume, by predicates called `NoWrap` and `Fits`, that
  width + 28 <= 480.
- **Zero-width rectangles.** A filled rectangle of width 0 draws two columns (`ZeroWidthRectDrawsTwoColumns`).
- **Tall ellipses.** The ellipse rasteriser runs a single region of the midpoint algorithm. A tall
  ellipse therefore misses its poles (`TallEllipseMissesPoles`).
