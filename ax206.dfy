/** The AX206 picture-frame driver (`AX206LCD`): the vendor command blocks it
    sends through the Bulk-Only Transport envelope, the dimension query made
    when the display is opened, the backlight setting, and full-screen blits
    of a solid colour or a letterboxed picture. */
module Ax206 {
  import opened Wrappers
  import opened Bytes
  import opened Usb
  import opened Transport
  import opened Raster
  import opened Rgb565
  import opened Letterbox

  /** Highest backlight level the display accepts. */
  const MAX_BRIGHTNESS: byte := 7

  /** The dimension query sent by `new`. */
  const DimensionQueryCommand: seq<byte> :=
    [0xCD, 0x00, 0x00, 0x00, 0x00, 0x02, 0x00, 0x00, 0x00, 0x00, 0x00, 0x00, 0x00, 0x00, 0x00, 0x00]

  /** The backlight command block with the level at byte 9. */
  function BacklightCommand(level: byte): (cmd: seq<byte>)
    ensures |cmd| == 16 && cmd[9] == level
  {
    [0xCD, 0x00, 0x00, 0x00, 0x00, 0x06, 0x01, 0x01, 0x00, level, 0x00, 0x00, 0x00, 0x00, 0x00, 0x00]
  }

  /** The blit command block for the rectangle (0, 0)-(width - 1, height - 1),
      each coordinate a little-endian u16. `width - 1` is u16 arithmetic: it
      wraps to 0xFFFF for a width of 0 in a release build. */
  function BlitCommand(width: u16, height: u16): (cmd: seq<byte>)
    ensures |cmd| == 16
  {
    [0xCD, 0x00, 0x00, 0x00, 0x00, 0x06, 0x12]
    + LeU16(0) + LeU16(0) + LeU16(WrapU16(width - 1)) + LeU16(WrapU16(height - 1))
    + [0x00]
  }

  /** What the display reads from a command block. */
  datatype Command =
    | QueryDimensions
    | SetBacklight(level: byte)
    | Blit(x1: nat, y1: nat, x2: nat, y2: nat)

  function ParseCommand(cmd: seq<byte>): Option<Command>
  {
    if |cmd| != 16 || cmd[..5] != [0xCD, 0x00, 0x00, 0x00, 0x00] then None
    else if cmd[5] == 0x02 then Some(QueryDimensions)
    else if cmd[5] == 0x06 && cmd[6] == 0x01 && cmd[7] == 0x01 then Some(SetBacklight(cmd[9]))
    else if cmd[5] == 0x06 && cmd[6] == 0x12 then
      Some(Blit(FromLe(cmd[7..9]), FromLe(cmd[9..11]), FromLe(cmd[11..13]), FromLe(cmd[13..15])))
    else None
  }

  lemma QueryRoundTrip()
    ensures ParseCommand(DimensionQueryCommand) == Some(QueryDimensions)
  {
  }

  /** The backlight block carries exactly the level asked for. */
  lemma BacklightRoundTrip(level: byte)
    ensures ParseCommand(BacklightCommand(level)) == Some(SetBacklight(level))
  {
    assert BacklightCommand(level)[..5] == [0xCD, 0x00, 0x00, 0x00, 0x00];
  }

  /** The blit block names the rectangle from the origin to (width - 1, height - 1). */
  lemma {:induction false} BlitRoundTrip(width: u16, height: u16)
    ensures ParseCommand(BlitCommand(width, height)) ==
      Some(Blit(0, 0, WrapU16(width - 1), WrapU16(height - 1)))
  {
    var cmd := BlitCommand(width, height);
    assert cmd[..5] == [0xCD, 0x00, 0x00, 0x00, 0x00];
    assert cmd[7..9] == LeU16(0);
    assert cmd[9..11] == LeU16(0);
    assert cmd[11..13] == LeU16(WrapU16(width - 1));
    assert cmd[13..15] == LeU16(WrapU16(height - 1));
    LeU16RoundTrip(0);
    LeU16RoundTrip(WrapU16(width - 1));
    LeU16RoundTrip(WrapU16(height - 1));
  }

  /** For a non-empty frame the inclusive rectangle of the blit holds exactly
      as many pixels as the payload of any width x height frame, at two bytes
      per pixel, carries. */
  lemma BlitCoversPayload(width: u16, height: u16, pixels: seq<Rgba>)
    requires width >= 1 && height >= 1 && |pixels| == width * height
    ensures var c := ParseCommand(BlitCommand(width, height));
      && c.Some? && c.value.Blit?
      && (c.value.x2 - c.value.x1 + 1) * (c.value.y2 - c.value.y1 + 1) * 2 == |Pack(pixels)|
  {
    BlitRoundTrip(width, height);
  }

  /** The width and height the dimension query reports: little-endian u16s in
      the first four bytes of the 5-byte reply. */
  function DecodeDimensions(buf: seq<byte>): (d: (u16, u16))
    requires |buf| == 5
    ensures d.0 == FromLe(buf[..2]) && d.1 == FromLe(buf[2..4])
  {
    FromLe2(buf[..2]);
    FromLe2(buf[2..4]);
    (buf[0] as int + 0x100 * buf[1] as int, buf[2] as int + 0x100 * buf[3] as int)
  }

  /** A reply laid out as two little-endian u16s decodes to those values. */
  lemma DimensionsRoundTrip(width: u16, height: u16, pad: byte)
    ensures DecodeDimensions(LeU16(width) + LeU16(height) + [pad]) == (width, height)
  {
  }

  lemma DimensionsExample()
    ensures DecodeDimensions([0xE0, 0x01, 0x40, 0x01, 0x00]) == (480, 320)
  {
  }

  /** The outcome of a command that reports no data: a USB error, or the status
      byte, where anything but 0 is a failed command. */
  function Checked(status: Result<byte, UsbError>): (o: Outcome<Ax206Error>)
    ensures o == Pass <==> status == Success(0)
  {
    match status
    case Failure(e) => Fail(UsbError(e))
    case Success(s) => if s == 0 then Pass else Fail(ScsiCommandFailed(s))
  }

  /** What opening the display yields when the device answers with `script`. */
  function OpenOutcome(script: seq<Reply>): Result<(u16, u16), Ax206Error>
  {
    var x := ScsiExchange(DimensionQueryCommand, In, Some(Zeros(5)), script);
    match x.status
    case Failure(e) => Failure(UsbError(e))
    case Success(s) =>
      if s != 0 then Failure(ScsiCommandFailed(s)) else Success(DecodeDimensions(x.buffer.value))
  }

  /** A device that accepts the query, reports `width` x `height` and a good
      status opens with those dimensions. */
  lemma OpenReportsDimensions(width: u16, height: u16, pad: byte, csw: seq<byte>, rest: seq<Reply>)
    requires |csw| == 13 && csw[12] == 0
    ensures OpenOutcome([Deliver([]), Deliver(LeU16(width) + LeU16(height) + [pad]), Deliver(csw)] + rest)
      == Success((width, height))
  {
    var script := [Deliver([]), Deliver(LeU16(width) + LeU16(height) + [pad]), Deliver(csw)] + rest;
    assert Rest(script) == [Deliver(LeU16(width) + LeU16(height) + [pad]), Deliver(csw)] + rest;
    assert Rest(Rest(script)) == [Deliver(csw)] + rest;
    assert CswBytes(csw) == csw;
  }

  /** A non-zero status from the query is `ScsiCommandFailed` with that status. */
  lemma OpenFailsOnStatus(reply: seq<byte>, csw: seq<byte>, rest: seq<Reply>)
    requires |reply| <= 5 && |csw| == 13 && csw[12] != 0
    ensures OpenOutcome([Deliver([]), Deliver(reply), Deliver(csw)] + rest) == Failure(ScsiCommandFailed(csw[12]))
  {
    var script := [Deliver([]), Deliver(reply), Deliver(csw)] + rest;
    assert Rest(script) == [Deliver(reply), Deliver(csw)] + rest;
    assert Rest(Rest(script)) == [Deliver(csw)] + rest;
    assert CswBytes(csw) == csw;
  }

  /** What `set_backlight(level)` yields and which transfers it makes. */
  function BacklightOutcome(level: byte, script: seq<Reply>): (Outcome<Ax206Error>, seq<Transfer>)
  {
    if level > MAX_BRIGHTNESS then (Fail(InvalidBrightness(level)), [])
    else
      var x := ScsiExchange(BacklightCommand(level), Out, None, script);
      (Checked(x.status), x.transfers)
  }

  /** A level above 7 is refused before anything is sent; a level in range is
      sent as the command phase and the status phase of one exchange. */
  lemma BacklightRange(level: byte, script: seq<Reply>)
    ensures level > 7 ==> BacklightOutcome(level, script) == (Fail(InvalidBrightness(level)), [])
    ensures level <= 7 && BacklightOutcome(level, script).0 == Pass ==>
      BacklightOutcome(level, script).1 ==
        [BulkWrite(EP_OUT, Frame(BacklightCommand(level), Out, None), COMMAND_TIMEOUT_MS), StatusTransfer]
  {
    if level <= 7 {
      PhasesInOrder(BacklightCommand(level), Out, None, script);
    }
  }

  /** The driver handle: the opened device and the dimensions it reported. */
  class Ax206Lcd {
    const device: UsbDevice
    const width: u16
    const height: u16

    constructor (device: UsbDevice, width: u16, height: u16)
      ensures this.device == device && this.width == width && this.height == height
    {
      this.device := device;
      this.width := width;
      this.height := height;
    }

    /** The dimension query of `AX206LCD::new`, once the device has been found,
        opened and configured: an In exchange with a zeroed 5-byte buffer. */
    static method Open(device: UsbDevice) returns (r: Result<Ax206Lcd, Ax206Error>)
      modifies device
      ensures var x := ScsiExchange(DimensionQueryCommand, In, Some(Zeros(5)), old(device.script));
        && device.trace == old(device.trace) + x.transfers
        && device.script == x.remaining
      ensures match OpenOutcome(old(device.script))
              case Failure(e) => r == Failure(e)
              case Success(d) => r.Success? && fresh(r.value) && r.value.device == device
                                 && (r.value.width, r.value.height) == d
    {
      var buf := new byte[5](_ => 0);
      assert buf[..] == Zeros(5);
      ghost var x := ScsiExchange(DimensionQueryCommand, In, Some(Zeros(5)), device.script);
      var status := WrapScsi(device, DimensionQueryCommand, In, Some(buf));
      if status.Failure? {
        return Failure(status.error);
      }
      if status.value != 0 {
        return Failure(ScsiCommandFailed(status.value));
      }
      assert x.buffer == Some(buf[..]);
      var width := buf[0] as int + 0x100 * buf[1] as int;
      var height := buf[2] as int + 0x100 * buf[3] as int;
      assert OpenOutcome(old(device.script)) == Success((width, height));
      var lcd := new Ax206Lcd(device, width, height);
      r := Success(lcd);
    }

    /** `set_backlight`: refuses a level above 7, otherwise sends the
        backlight block with no data phase. */
    method SetBacklight(level: byte) returns (r: Outcome<Ax206Error>)
      modifies device
      ensures device.trace == old(device.trace) + BacklightOutcome(level, old(device.script)).1
      ensures r == BacklightOutcome(level, old(device.script)).0
      ensures device.script == if level > MAX_BRIGHTNESS then old(device.script)
        else ScsiExchange(BacklightCommand(level), Out, None, old(device.script)).remaining
    {
      if level > MAX_BRIGHTNESS {
        return Fail(InvalidBrightness(level));
      }
      var cmd := BuildBacklightCommand(level);
      var status := WrapScsi(device, cmd, Out, None);
      if status.Failure? {
        return Fail(status.error);
      }
      if status.value != 0 {
        return Fail(ScsiCommandFailed(status.value));
      }
      r := Pass;
    }

    /** The tail shared by `clear` and `draw`: the blit block for the frame's
        size, then an Out exchange carrying the frame. */
    method SendFrame(frame: seq<byte>, w: u16, h: u16) returns (r: Outcome<Ax206Error>)
      modifies device
      ensures var x := ScsiExchange(BlitCommand(w, h), Out, Some(frame), old(device.script));
        && device.trace == old(device.trace) + x.transfers
        && device.script == x.remaining
        && r == Checked(x.status)
    {
      var cmd := BuildBlitCommand(w, h);
      var outImg := new byte[|frame|](i requires 0 <= i < |frame| => frame[i]);
      assert outImg[..] == frame;
      var status := WrapScsi(device, cmd, Out, Some(outImg));
      if status.Failure? {
        return Fail(status.error);
      }
      if status.value != 0 {
        return Fail(ScsiCommandFailed(status.value));
      }
      r := Pass;
    }

    /** `clear`: fills a frame of the display's size with one colour and blits it. */
    method Clear(red: byte, green: byte, blue: byte) returns (r: Outcome<Ax206Error>)
      modifies device
      ensures var x := ScsiExchange(BlitCommand(width, height), Out,
                                    Some(Pack(Solid(red, green, blue, width * height))), old(device.script));
        && device.trace == old(device.trace) + x.transfers
        && device.script == x.remaining
        && r == Checked(x.status)
    {
      var frame := FillRgb565(red, green, blue, width * height);
      r := SendFrame(frame, width, height);
    }

    /** `resize_image` for a picture already scaled to fit: an opaque black
        canvas of the display's size with the picture overlaid at the centre. */
    method ResizeImage(resized: Image, mix: (Rgba, Rgba) -> Rgba) returns (img: Image)
      requires resized.Valid() && resized.width <= width && resized.height <= height
      ensures img == Letterboxed(width, height, resized, mix)
    {
      var canvas := new Rgba[width * height](_ => Rgba(0, 0, 0, 0));
      FillBlack(canvas);
      var x := (width - resized.width) / 2;
      var y := (height - resized.height) / 2;
      ghost var black := Canvas(width, height);
      assert canvas[..] == black.pixels;
      OverlayInPlace(canvas, width, height, resized, x, y, mix);
      img := Image(width, height, canvas[..]);
    }

    /** `draw`: letterboxes the picture, packs it as RGB565 and blits it. */
    method Draw(resized: Image, mix: (Rgba, Rgba) -> Rgba) returns (r: Outcome<Ax206Error>)
      requires resized.Valid() && resized.width <= width && resized.height <= height
      modifies device
      ensures var x := ScsiExchange(BlitCommand(width, height), Out,
                                    Some(Pack(Letterboxed(width, height, resized, mix).pixels)), old(device.script));
        && device.trace == old(device.trace) + x.transfers
        && device.script == x.remaining
        && r == Checked(x.status)
    {
      var image := ResizeImage(resized, mix);
      var w: u16 := image.width;
      var h: u16 := image.height;
      var frame := EncodeFrame(image.pixels, w, h);
      r := SendFrame(frame, w, h);
    }
  }

  /** `set_backlight`'s command block: the template with byte 9 patched. */
  method BuildBacklightCommand(level: byte) returns (cmd: seq<byte>)
    ensures cmd == BacklightCommand(level)
  {
    var a := new byte[16] [0xCD, 0x00, 0x00, 0x00, 0x00, 0x06, 0x01, 0x01, 0x00, 0xFF, 0x00, 0x00, 0x00, 0x00, 0x00, 0x00];
    a[9] := level;
    cmd := a[..];
  }

  /** The blit block of `clear` and `draw`: the template with bytes 7..14
      patched with the little-endian corners. */
  method BuildBlitCommand(width: u16, height: u16) returns (cmd: seq<byte>)
    ensures cmd == BlitCommand(width, height)
  {
    var a := new byte[16] [0xCD, 0x00, 0x00, 0x00, 0x00, 0x06, 0x12, 0xFF, 0xFF, 0xFF, 0xFF, 0xFF, 0xFF, 0xFF, 0xFF, 0x00];
    var x1 := LeU16(0);
    var y1 := LeU16(0);
    var x2 := LeU16(WrapU16(width - 1));
    var y2 := LeU16(WrapU16(height - 1));
    a[7] := x1[0];
    a[8] := x1[1];
    a[9] := y1[0];
    a[10] := y1[1];
    a[11] := x2[0];
    a[12] := x2[1];
    a[13] := y2[0];
    a[14] := y2[1];
    cmd := a[..];
  }
}
