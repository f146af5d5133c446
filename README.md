# AX206 picture-frame driver and collectors, modelled in Dafny

This project models the parts of `rust-x206LCD` that compute something
exactly. The program renders a system-status image and pushes it to a small
USB picture frame built on the AX206 controller.

- **The AX206 driver** (`src/client/ax206lcd.rs`). It carries vendor commands
  inside the USB Mass Storage Bulk-Only Transport envelope: a Command Block
  Wrapper (section 5.1 of the USB Mass Storage Class Bulk-Only Transport
  specification, rev 1.0) and a Command Status Wrapper (section 5.2).
  - `Transport` builds the 15-byte CBW header and runs the three phases of
    `wrap_scsi`: the command write, the optional data phase and the 13-byte
    status read.
  - `Usb` stands in for the USB device. The device is a class that records
    every bulk transfer (endpoint, bytes or length, timeout) in a `trace`. It
    answers each transfer with the next reply of a `script`.
  - `Ax206` holds the dimension query of `new`, `set_backlight`, `clear` and
    `draw`. Each method's postcondition says which transfers it made, in
    order, and what it returned.
  - `Rgb565` models the RGBA to RGB565 packing loops.
  - `Letterbox` models the black canvas and the centred overlay of
    `resize_image`. `Raster` holds the image type both use.
- **Configuration** (`src/config/mod.rs`), in `Config`, `IntParse`, `Text` and
  `IndexMaps`: hex-or-decimal `u16` parsing, the defaults, the log-level
  mapping and the INI text `save` builds.
- **System collector** (`src/collectors/system.rs`), in `SystemCollector`: the
  uptime breakdown, syslog line shaping, sensor matching and `ps` line
  selection.
- **hwmon reading** (`src/utils/hwmon.rs`), in `Hwmon`: the `tempN_input`
  filter, the push loop of `from_hwmon` and `get_file_line`.
- **Disk and network collectors** (`src/collectors/disk.rs`,
  `src/collectors/network.rs`), in `Disk`, `Network` and `Counters`: the
  saturating and wrapping sums over allowed devices, and the deltas.

Several things are inputs to the model: what the operating system reports
(uptime, syslog tail, block and network statistics, disk list, folder
listings, file contents, `ps` output) and what the USB device answers.

Points where the code's behaviour is easy to misread, and what the model does:

- The driver's `Drop` reattaches the kernel driver whether or not it was
  detached. No "was detached" flag exists. `Drop` is not modelled.
- `cbw[14]` is `cmd.len() as u8`, not a constant 16. For the driver's 16-byte
  command blocks the two agree (`Transport.FrameIsCbw`).
- The driver looks the device up by its compiled-in VID/PID (0x1908/0x0102).
  The configured `vid`/`pid` are parsed but not used by the driver.
- A 100 x 50 picture on a 480 x 320 display is first scaled to 480 x 240 and
  then placed at (0, 40). The (190, 135) offsets hold only for an unscaled
  picture (`Letterbox.CenterExample`).
- A status read shorter than 13 bytes leaves byte 12 of the zeroed buffer at
  0, so the exchange reports status 0 (`Transport.ShortCswReadsZero`).

## Model

| member | source | states |
|---|---|---|
| `Usb.UsbDevice.WriteBulk` | src/client/ax206lcd.rs:271 | a bulk write is appended to the trace with its endpoint, bytes and timeout, consumes one reply, and returns the byte count or the USB error |
| `Usb.UsbDevice.ReadBulk` | src/client/ax206lcd.rs:306 | a bulk read is appended to the trace, consumes one reply, copies the delivered bytes over the front of the buffer and returns their count, or returns the USB error and leaves the buffer alone |
| `Usb.Answer` | src/client/ax206lcd.rs:288 | an accepted read never delivers more than was asked for; an exhausted device times out |
| `Bytes.LeU16RoundTrip` | src/client/ax206lcd.rs:121-124 | `to_le_bytes` of a u16 decodes back to the same number |
| `Bytes.LeU32RoundTrip` | src/client/ax206lcd.rs:249 | `to_le_bytes` of a u32 decodes back to the same number |
| `Transport.BuildCbw` | src/client/ax206lcd.rs:237-259 | patching the fixed 15-byte array gives "USBC", DE AD BE EF, the little-endian buffer length (0 without a buffer), 0x80 exactly for In, LUN 0 and the command length |
| `Transport.FrameIsCbw` | src/client/ax206lcd.rs:237-264 | for a 16-byte command the frame written is 31 bytes, and it parses as a CBW with signature "USBC", the fixed tag, the buffer length or 0, the In bit exactly for In, LUN 0, length 16 and the command block |
| `Transport.ReadStatus` | src/client/ax206lcd.rs:305-321 | the status phase is one 13-byte read from 0x81 with timeout 5000; it returns byte 12 of the zeroed buffer after the read, whatever the signature, or the USB error |
| `Transport.DataAndStatus` | src/client/ax206lcd.rs:273-321 | the data phase writes the buffer to 0x01 for Out, reads it from 0x81 for In, or is skipped without a buffer; a USB error stops the exchange before the status read |
| `Transport.WrapScsi` | src/client/ax206lcd.rs:225-322 | the device's trace grows by exactly the transfers of the exchange specification, its script shrinks by one reply per transfer, the buffer ends as specified, and the result is the status byte or `UsbError` |
| `Transport.ScsiExchange` | src/client/ax206lcd.rs:225-322 | the exchange always starts with the command write of the CBW and command block; when that write fails it is the only transfer, the buffer is unchanged and the exchange fails |
| `Transport.PhasesInOrder` | src/client/ax206lcd.rs:270-306 | the transfers made are a non-empty prefix of command write, data transfer, status read; all of them when a status is returned; one reply consumed per transfer |
| `Transport.FailureIsLastTransfer` | src/client/ax206lcd.rs:271-306 | the exchange fails exactly when its last transfer was answered with a USB error, and reports that error |
| `Transport.BufferUntouched` | src/client/ax206lcd.rs:274-282 | an Out exchange, one without a buffer, or one whose command write failed leaves the buffer unchanged |
| `Transport.InDataLanded` | src/client/ax206lcd.rs:283-296 | an In data read that delivers `d` leaves `d` over the front of the buffer and the rest as it was, even when the read is short |
| `Transport.StatusIsCswField` | src/client/ax206lcd.rs:312-321 | the returned status is the bCSWStatus field of the 13 bytes received, whatever their signature, tag and residue |
| `Transport.ShortCswReadsZero` | src/client/ax206lcd.rs:305-314 | a status read shorter than 13 bytes yields status 0 |
| `Ax206.QueryRoundTrip` | src/client/ax206lcd.rs:68 | the dimension-query block is CD 00 00 00 00 02 followed by zeros, read as a dimension query |
| `Ax206.BacklightRoundTrip` | src/client/ax206lcd.rs:94-95 | the backlight block carries sub-opcode 06 01 01 and exactly the requested level at byte 9 |
| `Ax206.BuildBacklightCommand` | src/client/ax206lcd.rs:94-95 | patching byte 9 of the template gives the backlight block for the level |
| `Ax206.BacklightCommand` | src/client/ax206lcd.rs:94-95 | the backlight block is 16 bytes with the level at byte 9 |
| `Ax206.BlitCommand` | src/client/ax206lcd.rs:118-133 | the blit block is 16 bytes: the CD 00 00 00 00 06 12 opcode, the little-endian rectangle (0, 0, width - 1, height - 1) with u16 wrap-around, then 00 |
| `Ax206.BlitRoundTrip` | src/client/ax206lcd.rs:118-133 | the blit block is CD 00 00 00 00 06 12, then little-endian (0, 0, width - 1, height - 1) with u16 wrap-around, then 00 |
| `Ax206.BuildBlitCommand` | src/client/ax206lcd.rs:118-133 | patching bytes 7..14 of the template gives that blit block |
| `Ax206.BlitCoversPayload` | src/client/ax206lcd.rs:110-133 | for any width x height frame of pixels, with both sides non-zero, the inclusive rectangle of the blit holds exactly as many pixels as its RGB565 payload of two bytes per pixel |
| `Ax206.DecodeDimensions` | src/client/ax206lcd.rs:76-77 | width and height are the little-endian u16s at bytes 0-1 and 2-3 of the reply |
| `Ax206.DimensionsRoundTrip` | src/client/ax206lcd.rs:76-77 | a reply laid out as two little-endian u16s and a pad byte decodes to that width and height |
| `Ax206.DimensionsExample` | src/client/ax206lcd.rs:76-77 | the reply E0 01 40 01 decodes to 480 x 320 |
| `Ax206.Checked` | src/client/ax206lcd.rs:97-102 | a command passes exactly when its exchange returned status 0; any other status and any USB error fail it |
| `Ax206.OpenReportsDimensions` | src/client/ax206lcd.rs:67-86 | a device that accepts the query, replies with a width and a height and status 0 opens with those dimensions |
| `Ax206.OpenFailsOnStatus` | src/client/ax206lcd.rs:71-74 | a non-zero status to the dimension query is `ScsiCommandFailed(status)` and no handle |
| `Ax206.BacklightRange` | src/client/ax206lcd.rs:89-101 | a level above 7 is `InvalidBrightness(level)` with no transfer; a level in range that succeeds made exactly the command write and the status read |
| `Ax206.Ax206Lcd.constructor` | src/client/ax206lcd.rs:81-86 | the handle keeps the device and the reported width and height |
| `Ax206.Ax206Lcd.Open` | src/client/ax206lcd.rs:67-86 | the query is an In exchange with a zeroed 5-byte buffer; the handle carries the decoded dimensions; a non-zero status or USB error yields no handle |
| `Ax206.Ax206Lcd.SetBacklight` | src/client/ax206lcd.rs:89-103 | a level above 7 fails before any transfer and leaves the device untouched; otherwise one Out exchange without data, whose status decides the outcome |
| `Ax206.Ax206Lcd.SendFrame` | src/client/ax206lcd.rs:166-188 | one Out exchange carrying the blit block for the frame's size and the frame as its data |
| `Ax206.Ax206Lcd.Clear` | src/client/ax206lcd.rs:105-141 | the payload is width x height pixels of the colour's two RGB565 bytes, sent under the full-screen blit block |
| `Ax206.Ax206Lcd.ResizeImage` | src/client/ax206lcd.rs:207-222 | the canvas is the display's size, opaque black, with the resized picture overlaid at the centring offsets |
| `Ax206.Ax206Lcd.Draw` | src/client/ax206lcd.rs:143-189 | the payload is the RGB565 packing of the letterboxed picture, sent under the full-screen blit block |
| `Raster.IndexCoordinates` | src/client/ax206lcd.rs:155 | index `y * width + x` gives back row `y` and column `x` |
| `Rgb565.FieldsAreTopBits` | src/client/ax206lcd.rs:162-163 | the two bytes hold exactly the top 5 bits of red, the top 6 of green and the top 5 of blue |
| `Rgb565.FieldsDetermineBytes` | src/client/ax206lcd.rs:162-163 | the two bytes are determined by the three fields read out of them |
| `Rgb565.SameBytesIffSameTopBits` | src/client/ax206lcd.rs:162-163 | two colours pack to the same bytes if and only if they agree on those top bits; alpha plays no part |
| `Rgb565.ShownColourIsNear` | src/client/ax206lcd.rs:162-163 | widening the packed fields back to 8 bits by bit replication is within 7 of red and blue and within 3 of green |
| `Rgb565.PackAt` | src/client/ax206lcd.rs:154-163 | pixel k of a frame sits at bytes 2k and 2k+1 |
| `Rgb565.PackedPixelAt` | src/client/ax206lcd.rs:154-163 | pixel (x, y) of an image sits at bytes (y * width + x) * 2 and the one after |
| `Rgb565.PackAppend` | src/client/ax206lcd.rs:150-164 | packing keeps pixel order: packing two frames one after the other is packing their concatenation |
| `Rgb565.SolidFrameRepeats` | src/client/ax206lcd.rs:113-116 | a one-colour frame alternates the colour's first and second byte |
| `Rgb565.FillRgb565` | src/client/ax206lcd.rs:106-116 | the buffer `clear` fills two bytes at a time is the packing of a one-colour frame of the pixel count |
| `Rgb565.EncodeFrame` | src/client/ax206lcd.rs:150-164 | the buffer `draw` fills pixel by pixel is the packing of the image's pixels in row-major order |
| `Letterbox.Centered` | src/client/ax206lcd.rs:216-217 | the centred span fits, and the margin after it equals the margin before it or exceeds it by one |
| `Letterbox.CenterExample` | src/client/ax206lcd.rs:216-217 | a 100 x 50 picture on 480 x 320 sits at (190, 135) |
| `Letterbox.Blend` | src/client/ax206lcd.rs:220 | a transparent top pixel keeps the canvas, an opaque one replaces it |
| `Letterbox.OverlayAt` | src/client/ax206lcd.rs:220 | after the overlay a covered pixel is the blend of canvas and picture, any other pixel is unchanged |
| `Letterbox.Canvas` | src/client/ax206lcd.rs:208-213 | the canvas has the display's width and height |
| `Letterbox.Letterboxed` | src/client/ax206lcd.rs:207-222 | the result is always exactly the display's size |
| `Letterbox.LetterboxedAt` | src/client/ax206lcd.rs:207-222 | each pixel is black outside the centred rectangle and the blended picture pixel inside it |
| `Letterbox.CropRecoversPicture` | src/client/ax206lcd.rs:215-220 | every opaque picture pixel appears unchanged at its centred position; transparent ones show black |
| `Letterbox.MarginsAreBlack` | src/client/ax206lcd.rs:208-220 | every pixel outside the centred rectangle is opaque black |
| `Letterbox.FillBlack` | src/client/ax206lcd.rs:210-213 | every pixel of the canvas becomes opaque black |
| `Letterbox.BlendRow` | src/client/ax206lcd.rs:220 | one row of the overlay loop blends that picture row into the canvas |
| `Letterbox.OverlayInPlace` | src/client/ax206lcd.rs:220 | blending the picture into the canvas in place gives the overlay of the old canvas |
| `IntParse.ParseDigits` | src/config/mod.rs:26-29 | the digit loop's result is below the type's limit and is never the empty-input error |
| `IntParse.ParseDigitsValue` | src/config/mod.rs:26-29 | the digit loop succeeds if and only if every character is a digit of the radix and the positional value stays below the limit; it then yields that value, and all-digit text at or above the limit is PosOverflow |
| `IntParse.DigitsValueSnoc` | src/config/mod.rs:26-29 | appending a digit multiplies the value by the radix and adds the digit |
| `IntParse.FromStrRadix` | src/config/mod.rs:26-29 | `from_str_radix` fails with Empty exactly on empty input and otherwise yields a value below the limit or an error |
| `IntParse.FromStrRadixValue` | src/config/mod.rs:26-29 | after one optional '+', `from_str_radix` succeeds if and only if a non-empty run of digits remains whose value is below the limit, and yields that value; too large a value is PosOverflow |
| `IntParse.DecimalValue` | src/config/mod.rs:29 | a number's decimal text is all digits, and its positional value is the number |
| `IntParse.DecimalRoundTrip` | src/config/mod.rs:29 | a number's decimal text parses back to the number |
| `IntParse.Hex06Digits` | src/config/mod.rs:188 | the four hex digits `{:#06x}` writes parse back in base 16 to the value |
| `Config.ParseHexOrInt` | src/config/mod.rs:18-31 | a value starting "0x" or "0X" succeeds only as the base-16 reading of the rest; any other only as the decimal reading |
| `Config.ParseHexOrIntValue` | src/config/mod.rs:18-31 | the text after an optional "0x"/"0X" is read in base 16 or 10: Empty exactly when that text is empty; success exactly when, after one optional '+', it is a non-empty run of digits worth less than 0x10000, yielding that value; PosOverflow when the digits are worth more |
| `Config.BadDigitRejected` | src/config/mod.rs:18-31 | a character that is not a digit of the radix makes the value an error |
| `Config.DecimalOverflowRejected` | src/config/mod.rs:28-30 | the decimal text of any number from 65536 up is PosOverflow |
| `Config.IdOrDefault` | src/config/mod.rs:40-43 | a missing vid or pid takes its default |
| `Config.HexExamples` | src/config/mod.rs:327-338 | "0x1234" and "0x0102" read as 0x1234 and 0x0102 |
| `Config.RejectedExamples` | src/config/mod.rs:18-31 | "", "0x", "65536" and "12a" are errors of the kind Rust reports |
| `Config.SavedIdRoundTrip` | src/config/mod.rs:188 | an id written as `{:#06x}` reads back as the same u16 |
| `Config.DecimalIdRoundTrip` | src/config/mod.rs:28-30 | an id written in decimal reads back as the same u16 |
| `Config.LogLevelOf` | src/config/mod.rs:153-163 | the level chosen is the one whose name is the lower-cased string, or Info when the lower-cased string is no level's name |
| `Config.LevelNameRoundTrip` | src/config/mod.rs:153-163 | each level's name selects that level |
| `Config.LogLevelCaseInsensitive` | src/config/mod.rs:154 | a name and its lower-case form select the same level |
| `Config.UnknownLevelIsInfo` | src/config/mod.rs:161 | a string that is no level's name in any case selects Info |
| `Config.LogLevelExamples` | src/config/mod.rs:153-163 | "DEBUG", "Warn" and "verbose" select Debug, Warn and Info |
| `Config.DefaultSensorsContents` | src/config/mod.rs:83-98 | the default sensor map lists its five sensors in insertion order with their labels |
| `Config.DefaultConfig` | src/config/mod.rs:83-146 | the defaults are backlight 2, 420 x 250, "current.png", polling 3, vid 0x1908, pid 0x0102, "dashboard.png" disabled and not saved, level "info", disks nvme0n1 and sda1, networks enp13s0 and enx0024278838ca, mount point "/" and the default sensor map |
| `Config.DefaultLogLevel` | src/config/mod.rs:59-69 | the default log level selects Info |
| `Config.SaveText` | src/config/mod.rs:180-243 | the saved text opens with the `[LCD]` header line and ends with a newline |
| `Config.SectionsInOrder` | src/config/mod.rs:186-213 | the DASHBOARD, LOGGING and RESOURCES headers start right after the LCD, DASHBOARD and LOGGING sections, in that order |
| `Config.OneLinePerItem` | src/config/mod.rs:216-234 | a list of one-line entries is written as exactly one line per entry |
| `Config.ListLinesAppend` | src/config/mod.rs:217-219 | the lines keep list order |
| `Config.SensorsHeaderIffSensors` | src/config/mod.rs:236-242 | the `[RESOURCES.sensors]` header and the sensor lines close the text when there are sensors, and are absent otherwise |
| `Config.Save` | src/config/mod.rs:180-243 | the string built is the specified save text |
| `Config.PushResources` | src/config/mod.rs:212-242 | the RESOURCES part appended is the header, the three lists and the sensors when there are any |
| `Config.PushList` | src/config/mod.rs:216-220 | the loop appends one `key = "value"` line per item in order |
| `Config.PushSensors` | src/config/mod.rs:237-242 | the loop appends one line per sensor in map order |
| `IndexMaps.IndexMap.Insert` | src/collectors/system.rs:104 | insert keeps keys unique, sets the key's value, leaves other keys alone, and appends a new key at the end or keeps an old key in place |
| `IndexMaps.InsertAllFresh` | src/config/mod.rs:85-90 | inserting distinct new keys lists them after the existing ones with their values |
| `Text.TrimEnd` | src/utils/hwmon.rs:76 | the result is a prefix, ends in a non-whitespace character, and only whitespace was dropped |
| `Text.TrimEndIdempotent` | src/utils/hwmon.rs:76 | trimming the end twice is trimming it once |
| `Text.Lower` | src/collectors/system.rs:96 | the length is kept; no ASCII capital is left; each capital becomes the letter 32 code points above it and every other character is unchanged |
| `Text.Trim` | src/collectors/system.rs:95 | the result is the input with exactly its leading and trailing whitespace dropped: it sits at some offset with only whitespace before and after it, and starts and ends with non-whitespace or is empty; an input already so is kept whole |
| `Text.ReplaceAbsent` | src/collectors/system.rs:94 | replacing a pattern that does not occur leaves the text unchanged |
| `Text.ReplaceCollapsesDoubleSpace` | src/collectors/system.rs:94 | `.replace("  ", " ")` turns a leading double space into one space and carries on after it |
| `Text.ReplaceKeepsChar` | src/collectors/system.rs:94 | a character that does not start a double space is kept as it is, and the replacement carries on after it |
| `Text.ReplaceNotLonger` | src/collectors/system.rs:94 | replacing with a text no longer than the pattern, as " " for "  ", never lengthens the text |
| `Text.ReplaceSameLength` | src/utils/hwmon.rs:55 | replacing with a text of the pattern's length, as "_label" for "_input", keeps the length |
| `Text.UpperNeverInLower` | src/collectors/system.rs:96-99 | a string with an ASCII capital never occurs in a lower-cased string |
| `Text.StripPrefix` | src/utils/hwmon.rs:42 | succeeds exactly when the prefix is there, and gives what follows it |
| `Text.SplitOnce` | src/utils/hwmon.rs:43 | splits at the first separator exactly when there is one |
| `Text.SplitOnceUnique` | src/utils/hwmon.rs:43 | the split is at the first separator |
| `Text.Hex06` | src/config/mod.rs:188 | `{:#06x}` is "0x" and four digits |
| `Counters.SaturatingSumIsCappedSum` | src/collectors/disk.rs:15-22 | adding with `saturating_add` one counter at a time is the exact sum capped at 2^64 - 1 |
| `Counters.WrappingSumIsReducedSum` | src/collectors/disk.rs:74-75 | adding with wrap-around one term at a time is the exact sum modulo 2^64; `Disk.CollectBlockInfo` uses it to state its result as reduced sums |
| `Disk.ReadSectors` | src/collectors/disk.rs:15-22 | the read total is the exact sum over allowed blocks capped at 2^64 - 1 |
| `Disk.ReadSectorsStep` | src/collectors/disk.rs:15-22 | a block outside `allowed` adds nothing; an allowed one is added with saturation |
| `Disk.WriteSectors` | src/collectors/disk.rs:33-40 | the write total is the exact sum over allowed blocks capped at 2^64 - 1 |
| `Disk.WriteSectorsStep` | src/collectors/disk.rs:33-40 | a block outside `allowed` adds nothing; an allowed one is added with saturation |
| `Disk.SectorTotals` | src/collectors/disk.rs:12-22 | the accumulator loop computes both saturating totals |
| `Disk.IoDelta` | src/collectors/disk.rs:42-47 | the byte delta is 0 when the counter went backwards or stood still, 512 times the sector delta when that fits, and 2^64 - 1 otherwise |
| `Disk.CollectIo` | src/collectors/disk.rs:6-64 | the result is `[read, write]` byte deltas of the allowed totals, or `[0, 0]` when either statistics call fails |
| `Disk.CollectBlockInfo` | src/collectors/disk.rs:66-86 | the result is `[used, total]` over non-removable disks with an allowed UTF-8 mount point, each the exact sum reduced modulo 2^64 |
| `Disk.AccumulateStep` | src/collectors/disk.rs:74-75 | one disk added to the wrapping accumulators keeps them equal to the reduced sums |
| `Disk.BlockInfoExact` | src/collectors/disk.rs:71-80 | without underflow or overflow the used figure is the exact used space and never exceeds the total |
| `Disk.CountedOnly` | src/collectors/disk.rs:72-73 | those exactness conditions only concern the counted disks |
| `Disk.CountedDisksPass` | src/collectors/disk.rs:72-73 | every counted disk is in the list and passes the filter |
| `Network.RxTotal` | src/collectors/network.rs:53-59 | the received total is the exact byte count of the contributing interfaces capped at 2^64 - 1 |
| `Network.TxTotal` | src/collectors/network.rs:53-60 | the sent total is the exact byte count of the contributing interfaces capped at 2^64 - 1 |
| `Network.TotalsStep` | src/collectors/network.rs:54-55 | an interface not allowed, or whose statistics fail, adds nothing; any other adds with saturation |
| `Network.AggregatedStats` | src/collectors/network.rs:44-65 | the loop returns `[rx, tx]` totals |
| `Network.CollectIo` | src/collectors/network.rs:7-42 | the result is `[rx, tx]` saturating deltas, never above the later total, or `[0, 0]` when either `networks()` call fails |
| `SystemCollector.Decompose` | src/collectors/system.rs:35-39 | hours are below 24, minutes and seconds below 60 |
| `SystemCollector.DecomposeReassembles` | src/collectors/system.rs:35-39 | days * 86400 + hours * 3600 + minutes * 60 + seconds is the uptime |
| `SystemCollector.DecomposeUnique` | src/collectors/system.rs:35-39 | any breakdown within those bounds is the one computed for its total |
| `SystemCollector.UptimeEntries` | src/collectors/system.rs:41-58 | at most four parts are shown, and none exactly when every part is zero |
| `SystemCollector.UptimeEntriesWeight` | src/collectors/system.rs:41-58 | the displayed parts stand for the breakdown's total |
| `SystemCollector.UptimeEntriesReassemble` | src/collectors/system.rs:41-58 | dropping the zero parts loses nothing: the displayed parts add up to the uptime |
| `SystemCollector.UptimeEntriesOrdered` | src/collectors/system.rs:41-58 | only non-zero parts are shown, in d, h, m, s order, and nothing is shown only for a zero total |
| `SystemCollector.UptimeEntriesShape` | src/collectors/system.rs:41-58 | an uptime of 0 shows nothing, and any other shows its non-zero parts in order |
| `SystemCollector.CollectUptime` | src/collectors/system.rs:28-63 | the number list and the text list have one entry per shown part, each text the number plus its suffix; an unreadable uptime counts as 0 |
| `SystemCollector.SplitN` | src/collectors/system.rs:323 | `splitn` yields between 1 and n pieces |
| `SystemCollector.SplitNJoin` | src/collectors/system.rs:323 | joining the pieces with the separator gives the line back |
| `SystemCollector.SplitNPieces` | src/collectors/system.rs:323 | every piece but the last is free of the separator |
| `SystemCollector.SplitNTwoSeparators` | src/collectors/system.rs:323 | "a b rest" splits into a, b and the untouched rest |
| `SystemCollector.Message` | src/collectors/system.rs:323-328 | the message occurs in the line, and is the line itself or a trimmed piece that is empty or starts and ends with non-whitespace |
| `SystemCollector.MessageAfterSecondSpace` | src/collectors/system.rs:323-328 | a line with two spaces yields the trimmed text after the second |
| `SystemCollector.MessageOfShortLine` | src/collectors/system.rs:324-328 | a line with fewer than two spaces is its own message |
| `SystemCollector.CharsWithinFits` | src/collectors/system.rs:330-331 | the kept prefix is the longest whose UTF-8 form fits in the limit |
| `SystemCollector.BoundaryPrefix` | src/collectors/system.rs:331 | on a character boundary the byte slice is exactly that prefix |
| `SystemCollector.TruncatePanicsInsideCharacter` | src/collectors/system.rs:331 | slicing "aé" at byte 2 falls inside a character, so the code as written panics |
| `SystemCollector.TruncateAsWritten` | src/collectors/system.rs:330-334 | the code as written panics exactly when the message is over the limit and the limit falls inside a character |
| `SystemCollector.Truncate` | src/collectors/system.rs:330-334 | a message within the limit is kept; a longer one becomes its longest prefix of whole characters that fits, plus "...", never over limit + 3 bytes |
| `SystemCollector.TruncateAgrees` | src/collectors/system.rs:330-334 | where the code as written does not panic it gives the same text, and on ASCII it never panics |
| `SystemCollector.Tail` | src/utils/file.rs:8-21 | `simple_tail` reads the file backwards: at most n lines, the newest first |
| `SystemCollector.SyslogLines` | src/collectors/system.rs:315-347 | one shaped line per tail line; an unreadable log yields ["Error reading syslog"] |
| `SystemCollector.SyslogNewestLast` | src/collectors/system.rs:319-322 | `.rev()` puts the newest line, which the tail holds first, last; the older ones come before it in the same shape |
| `SystemCollector.TailInFileOrder` | src/collectors/system.rs:315-320 | the reversed tail is the last n lines of the file in file order |
| `SystemCollector.SyslogShowsLastLines` | src/collectors/system.rs:315-347 | the syslog lines shown are the last n lines of the file, shaped, in file order |
| `SystemCollector.SyslogLinesBounded` | src/collectors/system.rs:315-347 | every shaped line is at most the character length plus 3 bytes |
| `SystemCollector.Readings` | src/collectors/system.rs:86-107 | the readings specified by sensor order and hint order form an index map with unique keys |
| `SystemCollector.CapitalHintNeverMatches` | src/collectors/system.rs:90-99 | hints are not lower-cased, so a hint with a capital letter never matches |
| `SystemCollector.MatchSensor` | src/collectors/system.rs:89-106 | the inner loop stores the reading under `rename_to` for every hint the reference contains, in order |
| `SystemCollector.CollectReadings` | src/collectors/system.rs:86-107 | the nested loops give the readings specified by sensor order and hint order |
| `SystemCollector.MatchHintsLabelled` | src/collectors/system.rs:100-104 | every stored reading is labelled with its key |
| `SystemCollector.ReadingsLabelled` | src/collectors/system.rs:88-107 | the same over all sensors |
| `SystemCollector.MatchHintsKeeps` | src/collectors/system.rs:89-105 | once a sensor matched a hint, the rest of its hints keep its reading under that key |
| `SystemCollector.LastMatchWins` | src/collectors/system.rs:88-106 | a later matching sensor overwrites the reading under the key |
| `SystemCollector.UnmatchedSensorChangesNothing` | src/collectors/system.rs:99-105 | a sensor that matches no hint leaves the readings unchanged |
| `SystemCollector.SortKey` | src/collectors/system.rs:242-246 | "cpu" sorts by pcpu and every other value by pmem |
| `SystemCollector.DataLines` | src/collectors/system.rs:269-270 | the header is skipped and at most `count` following lines are kept in order; a failed command or a header alone gives none |
| `Hwmon.TempInputId` | src/utils/hwmon.rs:35-51 | a kept entry is a non-directory named "temp" + id + "_input" |
| `Hwmon.TempInputIdComplete` | src/utils/hwmon.rs:35-51 | every such entry is kept with that id |
| `Hwmon.TempInputIdIff` | src/utils/hwmon.rs:35-51 | an entry is kept with id N if and only if it is a non-directory named `tempN_input` with N a u32 |
| `Hwmon.TempInputRoundTrip` | src/utils/hwmon.rs:41-51 | `temp<N>_input` is kept with id N for every u32 N |
| `Hwmon.OtherItemsSkipped` | src/utils/hwmon.rs:49-51 | `tempN_label`, `tempN_max` and a name with no id are skipped |
| `Hwmon.LabelOfTempInput` | src/utils/hwmon.rs:55 | the label file of `tempN_input` is `tempN_label` |
| `Hwmon.FileLine` | src/utils/hwmon.rs:72-78 | a missing file reads as empty; a present one gives a prefix of its text without trailing whitespace, having dropped only whitespace |
| `Hwmon.GetFileLine` | src/utils/hwmon.rs:72-78 | an unreadable file gives none; a readable one gives its text without trailing whitespace |
| `Hwmon.GetFileLineIdempotent` | src/utils/hwmon.rs:72-78 | applying it twice equals applying it once |
| `Hwmon.AcceptedAppend` | src/utils/hwmon.rs:34-66 | a longer listing only appends sensors |
| `Hwmon.AcceptedFromEntries` | src/utils/hwmon.rs:57-65 | every sensor carries the id, path and labels of one kept entry |
| `Hwmon.SensorList.Push` | src/utils/hwmon.rs:65 | push appends one sensor |
| `Hwmon.SensorFor` | src/utils/hwmon.rs:35-64 | the loop body builds a sensor exactly for a kept entry |
| `Hwmon.FromHwmon` | src/utils/hwmon.rs:32-69 | an unreadable folder gives None and leaves the vector alone; otherwise one sensor per kept entry is appended in listing order after the existing ones |

## Findings

| source | as written | input that shows it | evidently intended | confidence | as-written member | corrected member |
|---|---|---|---|---|---|---|
| src/collectors/system.rs:331 | `&message[..character_length]` slices at a byte offset | a message "aé" with `character_length` 2: byte 2 falls inside 'é', and the slice panics | keep the whole characters that fit in `character_length` bytes, then "..." | high; not executed | `SystemCollector.TruncatePanicsInsideCharacter` | `SystemCollector.Truncate` |

## Left out

- USB discovery and lifecycle: context creation, enumeration by VID/PID, `open`, kernel-driver detach, `set_active_configuration` and the `Drop` impl. These are foreign rusb calls. `Ax206.Ax206Lcd.Open` starts from an opened device.
- Timeouts are recorded in the trace but not enforced. Debug and error logging is not modelled beyond "only logged".
- The `f32` scale ratios and `resize_exact` of `resize_image`. These are floating point and a library. `Draw` and `ResizeImage` take the already resized picture, with its size at most the display's.
- `Letterbox.Blend`: translucent pixels are blended by a caller-supplied `mix`. The float blend of `image::imageops::overlay` is not modelled; transparent and opaque pixels are exact.
- `Ax206.BlitCommand`: `width - 1` wraps as in a release build. A debug build panics for a zero width.
- `Rgb565.EncodeFrame`: the byte offset `(y * width + x) * 2` is unbounded here. The source computes it in u32, which overflows once `y * width + x` reaches 2^31. A u16 x u16 display of 2^31 pixels or more (65535 x 32769, say) would make the source wrap in a release build and panic in a debug build; the model does not capture that.
- `Disk.CollectBlockInfo`: `+=` and `-` on u64 wrap as in a release build. A debug build panics on overflow or underflow.
- `Text.Lower`: `to_lowercase` is modelled for ASCII letters only.
- `SystemCollector.SyslogLines`: the lines are shaped with the corrected `Truncate`, so the model never panics where `&message[..character_length]` does (see Findings; `TruncateAsWritten` keeps the code as written). The `expect` in `simple_tail` on a line that is not valid UTF-8 (src/utils/file.rs:16) is not modelled: the tail is given as text lines.
- `Hwmon.SensorFor`: the temperature of a `tempN_input` file is an input already in Celsius. `read_number_from_file` and `convert_temp_celsius` are file I/O and float conversion.
- `AppConfig::from_file` goes through the `config` crate, and `save` ends with a file write. The model parses single values and builds the saved text.
- The regex capture and float parses of `ps` lines, `get_hostname`, and the `/sys/class/hwmon` directory walk. These are a regex library, floats and file I/O. `SystemCollector.DataLines` hands the selected lines on.
- The tokio main loop, reconnect policy, metric fan-out, float percentage formatting, the NVIDIA, CPU and memory collectors, rendering and the dashboard. These are async orchestration, floating point and UI.
