/** The Bulk-Only Transport envelope the AX206 driver wraps its vendor commands
    in (`wrap_scsi`): the Command Block Wrapper of section 5.1 and the Command
    Status Wrapper of section 5.2 of the USB Mass Storage Class Bulk-Only
    Transport specification (rev 1.0), and the three-phase exchange. */
module Transport {
  import opened Wrappers
  import opened Bytes
  import opened Usb

  /** `rusb::Direction` of the data phase. */
  datatype Direction = In | Out

  /** `AX206Error` */
  datatype Ax206Error =
    | UsbError(cause: UsbError)
    | DeviceNotFound
    | DimensionError
    | InvalidBrightness(value: byte)
    | ScsiCommandFailed(status: byte)
    | ImageError(message: string)

  /** "USBC" */
  const CBW_SIGNATURE: seq<byte> := [0x55, 0x53, 0x42, 0x43]
  /** "USBS" */
  const CSW_SIGNATURE: seq<byte> := [0x55, 0x53, 0x42, 0x53]
  /** The fixed tag bytes DE AD BE EF. */
  const CBW_TAG: seq<byte> := [0xDE, 0xAD, 0xBE, 0xEF]
  const CSW_LENGTH: nat := 13
  /** The header array `wrap_scsi` starts from, before patching. */
  const CBW_TEMPLATE: seq<byte> := CBW_SIGNATURE + CBW_TAG + [0x00, 0x00, 0x00, 0x00, 0x00, 0x00, 0x10]

  const COMMAND_TIMEOUT_MS: nat := 1000
  const DATA_OUT_TIMEOUT_MS: nat := 3000
  const DATA_IN_TIMEOUT_MS: nat := 4000
  const STATUS_TIMEOUT_MS: nat := 5000

  /** The 15 header bytes of the CBW that `wrap_scsi` writes before the command
      block: signature, tag, data-transfer length (`buf.len() as u32`, or 0
      without a buffer), flags, LUN 0 and `cmd.len() as u8`. */
  function CbwHeader(dir: Direction, bufLen: Option<nat>, cmdLen: nat): (h: seq<byte>)
    ensures |h| == 15
  {
    CBW_SIGNATURE + CBW_TAG
    + (if bufLen.Some? then LeU32(WrapU32(bufLen.value)) else [0, 0, 0, 0])
    + [if dir == In then 0x80 else 0x00, 0x00, cmdLen % 0x100]
  }

  function LengthOf(buf: Option<seq<byte>>): Option<nat>
  {
    if buf.Some? then Some(|buf.value|) else None
  }

  /** The single bulk OUT write of the command phase: header then command. */
  function Frame(cmd: seq<byte>, dir: Direction, buf: Option<seq<byte>>): seq<byte>
  {
    CbwHeader(dir, LengthOf(buf), |cmd|) + cmd
  }

  /** The template with the length field and the flag patched in. */
  ghost function Patched(dir: Direction, bufLen: Option<nat>, cmdLen: nat): seq<byte>
  {
    var s := CBW_TEMPLATE[14 := cmdLen % 0x100];
    var s' := if bufLen.Some? then
        var l := LeU32(WrapU32(bufLen.value));
        s[8 := l[0]][9 := l[1]][10 := l[2]][11 := l[3]]
      else s;
    if dir == In then s'[12 := 0x80] else s'
  }

  /** Patching the template gives the header. */
  lemma PatchedIsHeader(dir: Direction, bufLen: Option<nat>, cmdLen: nat)
    ensures Patched(dir, bufLen, cmdLen) == CbwHeader(dir, bufLen, cmdLen)
  {
    var a := Patched(dir, bufLen, cmdLen);
    assert a[..8] == CBW_SIGNATURE + CBW_TAG;
    if bufLen.Some? {
      assert a[8..12] == LeU32(WrapU32(bufLen.value));
    } else {
      assert a[8..12] == [0, 0, 0, 0];
    }
    HeaderOfFields(a, dir, bufLen, cmdLen);
  }

  /** `wrap_scsi`'s header construction: a fixed 15-byte array patched at
      bytes 14, 8..11 and 12. */
  method BuildCbw(dir: Direction, bufLen: Option<nat>, cmdLen: nat) returns (cbw: seq<byte>)
    ensures cbw == CbwHeader(dir, bufLen, cmdLen)
  {
    var a := new byte[15](i requires 0 <= i < 15 => CBW_TEMPLATE[i]);
    ghost var s := CBW_TEMPLATE;
    assert a[..] == s;
    a[14] := cmdLen % 0x100;
    s := s[14 := cmdLen % 0x100];
    assert a[..] == s;
    if bufLen.Some? {
      var lenBytes := LeU32(WrapU32(bufLen.value));
      a[8] := lenBytes[0];
      a[9] := lenBytes[1];
      a[10] := lenBytes[2];
      a[11] := lenBytes[3];
      s := s[8 := lenBytes[0]][9 := lenBytes[1]][10 := lenBytes[2]][11 := lenBytes[3]];
      assert a[..] == s;
    }
    if dir == In {
      a[12] := 0x80;
      s := s[12 := 0x80];
      assert a[..] == s;
    }
    assert s == Patched(dir, bufLen, cmdLen);
    cbw := a[..];
    PatchedIsHeader(dir, bufLen, cmdLen);
  }

  /** Fifteen bytes holding the header's fields one by one are the header. */
  lemma HeaderOfFields(a: seq<byte>, dir: Direction, bufLen: Option<nat>, cmdLen: nat)
    requires |a| == 15 && a[..8] == CBW_SIGNATURE + CBW_TAG
    requires a[8..12] == if bufLen.Some? then LeU32(WrapU32(bufLen.value)) else [0, 0, 0, 0]
    requires a[12] == (if dir == In then 0x80 else 0x00) && a[13] == 0x00 && a[14] == cmdLen % 0x100
    ensures a == CbwHeader(dir, bufLen, cmdLen)
  {
    assert a == a[..8] + a[8..12] + a[12..];
  }

  /** A Command Block Wrapper as read by a device (section 5.1): the
      little-endian dCBWSignature, dCBWTag and dCBWDataTransferLength,
      bmCBWFlags (bit 7 set means data-in), bCBWLUN (low four bits),
      bCBWCBLength (low five bits) and CBWCB. */
  datatype Cbw = Cbw(signature: nat, tag: nat, dataTransferLength: nat, dataIn: bool,
                     lun: nat, cbLength: nat, cb: seq<byte>)

  function ParseCbw(frame: seq<byte>): Option<Cbw>
  {
    if |frame| < 15 then None
    else Some(Cbw(FromLe(frame[0..4]), FromLe(frame[4..8]), FromLe(frame[8..12]),
                  frame[12] >= 0x80, frame[13] % 0x10, frame[14] % 0x20, frame[15..]))
  }

  /** For the driver's 16-byte command blocks the frame is a standard 31-byte
      CBW: signature "USBC", tag 0xEFBEADDE, the buffer length (0 without a
      buffer), the direction bit set exactly for In, LUN 0, and the command
      block whole. */
  lemma {:induction false} FrameIsCbw(cmd: seq<byte>, dir: Direction, buf: Option<seq<byte>>)
    requires |cmd| == 16
    ensures |Frame(cmd, dir, buf)| == 31
    ensures ParseCbw(Frame(cmd, dir, buf)) ==
      Some(Cbw(0x43425355, 0xEFBEADDE, if buf.Some? then WrapU32(|buf.value|) else 0,
               dir == In, 0, 16, cmd))
  {
    var h := CbwHeader(dir, LengthOf(buf), |cmd|);
    var f := h + cmd;
    HeaderFields(dir, LengthOf(buf), |cmd|);
    assert f[0..4] == h[0..4] && f[4..8] == h[4..8] && f[8..12] == h[8..12];
    assert f[12] == h[12] && f[13] == h[13] && f[14] == h[14];
    assert f[15..] == cmd;
  }

  /** The fields a device reads out of the 15 header bytes. */
  lemma HeaderFields(dir: Direction, bufLen: Option<nat>, cmdLen: nat)
    ensures var h := CbwHeader(dir, bufLen, cmdLen);
      && FromLe(h[0..4]) == 0x43425355
      && FromLe(h[4..8]) == 0xEFBEADDE
      && FromLe(h[8..12]) == (if bufLen.Some? then WrapU32(bufLen.value) else 0)
      && (h[12] >= 0x80 <==> dir == In)
      && h[13] == 0 && h[14] == cmdLen % 0x100
  {
    var h := CbwHeader(dir, bufLen, cmdLen);
    var lenBytes: seq<byte> := if bufLen.Some? then LeU32(WrapU32(bufLen.value)) else [0, 0, 0, 0];
    assert h[0..4] == CBW_SIGNATURE;
    assert h[4..8] == CBW_TAG;
    assert h[8..12] == lenBytes;
    FromLe4(CBW_SIGNATURE);
    FromLe4(CBW_TAG);
    FromLe4(lenBytes);
    if bufLen.Some? {
      LeU32RoundTrip(WrapU32(bufLen.value));
    }
  }

  /** A Command Status Wrapper (section 5.2): dCSWSignature, dCSWTag,
      dCSWDataResidue and bCSWStatus. */
  datatype Csw = Csw(signatureOk: bool, tag: nat, residue: nat, status: byte)

  function ParseCsw(csw: seq<byte>): Csw
    requires |csw| == CSW_LENGTH
  {
    Csw(csw[0..4] == CSW_SIGNATURE, FromLe(csw[4..8]), FromLe(csw[8..12]), csw[12])
  }

  function Zeros(n: nat): (z: seq<byte>)
    ensures |z| == n && forall i :: 0 <= i < n ==> z[i] == 0
  {
    seq(n, _ => 0)
  }

  /** The transfers of a complete exchange, in order. */
  function CommandTransfer(cmd: seq<byte>, dir: Direction, buf: Option<seq<byte>>): Transfer
  {
    BulkWrite(EP_OUT, Frame(cmd, dir, buf), COMMAND_TIMEOUT_MS)
  }

  function DataTransfers(dir: Direction, buf: Option<seq<byte>>): (ts: seq<Transfer>)
    ensures |ts| <= 1
  {
    match buf
    case None => []
    case Some(b) =>
      if dir == Out then [BulkWrite(EP_OUT, b, DATA_OUT_TIMEOUT_MS)]
      else [BulkRead(EP_IN, |b|, DATA_IN_TIMEOUT_MS)]
  }

  const StatusTransfer: Transfer := BulkRead(EP_IN, CSW_LENGTH, STATUS_TIMEOUT_MS)

  function Phases(cmd: seq<byte>, dir: Direction, buf: Option<seq<byte>>): seq<Transfer>
  {
    [CommandTransfer(cmd, dir, buf)] + DataTransfers(dir, buf) + [StatusTransfer]
  }

  /** The observable effect of one `wrap_scsi` call: the transfers made, the
      replies left, the buffer afterwards and the status byte or USB error. */
  datatype Exchange = Exchange(transfers: seq<Transfer>, remaining: seq<Reply>,
                               buffer: Option<seq<byte>>, status: Result<byte, UsbError>)

  /** The 13 CSW bytes after the status read delivered `d`: the zeroed array
      with `d` over its front. */
  function CswBytes(d: seq<byte>): (csw: seq<byte>)
    requires |d| <= CSW_LENGTH
    ensures |csw| == CSW_LENGTH
  {
    Overlaid(Zeros(CSW_LENGTH), d)
  }

  /** The status phase: byte 12 of the CSW, or the USB error of the read. */
  function StatusOf(script: seq<Reply>): Result<byte, UsbError>
  {
    match Answer(script, StatusTransfer)
    case Failure(e) => Failure(e)
    case Success(d) => Success(CswBytes(d)[12])
  }

  /** The data and status phases, once the command phase has succeeded. */
  function AfterCommand(dir: Direction, buf: Option<seq<byte>>, script: seq<Reply>): Exchange
  {
    var ds := DataTransfers(dir, buf);
    if ds == [] then Exchange([StatusTransfer], Rest(script), buf, StatusOf(script))
    else
      match Answer(script, ds[0])
      case Failure(e) => Exchange(ds, Rest(script), buf, Failure(e))
      case Success(d) =>
        var buf' := if dir == In then Some(Overlaid(buf.value, d)) else buf;
        Exchange(ds + [StatusTransfer], Rest(Rest(script)), buf', StatusOf(Rest(script)))
  }

  /** The whole exchange: a failed command phase ends it with the buffer untouched. */
  function ScsiExchange(cmd: seq<byte>, dir: Direction, buf: Option<seq<byte>>, script: seq<Reply>): (x: Exchange)
    ensures |x.transfers| >= 1 && x.transfers[0] == CommandTransfer(cmd, dir, buf)
    ensures Answer(script, CommandTransfer(cmd, dir, buf)).Failure? ==>
      |x.transfers| == 1 && x.buffer == buf && x.status.Failure?
  {
    var c := CommandTransfer(cmd, dir, buf);
    match Answer(script, c)
    case Failure(e) => Exchange([c], Rest(script), buf, Failure(e))
    case Success(_) =>
      var x := AfterCommand(dir, buf, Rest(script));
      x.(transfers := [c] + x.transfers)
  }

  /** The exchange runs the phases in order and stops at the first failure:
      its transfers are a non-empty prefix of the three phases, all of them
      when it reports a status, and each transfer consumed one reply. */
  lemma PhasesInOrder(cmd: seq<byte>, dir: Direction, buf: Option<seq<byte>>, script: seq<Reply>)
    ensures var x := ScsiExchange(cmd, dir, buf, script);
      && 1 <= |x.transfers| <= |Phases(cmd, dir, buf)|
      && x.transfers == Phases(cmd, dir, buf)[..|x.transfers|]
      && (x.status.Success? ==> x.transfers == Phases(cmd, dir, buf))
      && (|script| >= |x.transfers| ==> x.remaining == script[|x.transfers|..])
  {
    var x := ScsiExchange(cmd, dir, buf, script);
    var ps := Phases(cmd, dir, buf);
    if Answer(script, CommandTransfer(cmd, dir, buf)).Success? {
      var ds := DataTransfers(dir, buf);
      if ds != [] && Answer(Rest(script), ds[0]).Success? {
        assert x.transfers == ps;
      }
    }
  }

  /** A USB error in any phase is reported as that error, and the exchange made
      no transfer after the one that failed. */
  lemma FailureIsLastTransfer(cmd: seq<byte>, dir: Direction, buf: Option<seq<byte>>, script: seq<Reply>)
    requires |script| >= 3
    ensures var x := ScsiExchange(cmd, dir, buf, script);
      var k := |x.transfers| - 1;
      && 0 <= k < |script|
      && (x.status.Failure? <==> Answer(script[k..], x.transfers[k]).Failure?)
      && (x.status.Failure? ==> x.status.error == Answer(script[k..], x.transfers[k]).error)
  {
    var x := ScsiExchange(cmd, dir, buf, script);
    var c := CommandTransfer(cmd, dir, buf);
    var ds := DataTransfers(dir, buf);
    var s1 := Rest(script);
    assert s1 == script[1..];
    if Answer(script, c).Failure? {
      assert x.transfers == [c] && x.status == Failure(Answer(script, c).error);
      assert script[0..] == script;
    } else if ds == [] {
      assert x.transfers == [c, StatusTransfer] && x.status == StatusOf(s1);
    } else if Answer(s1, ds[0]).Failure? {
      assert x.transfers == [c, ds[0]] && x.status == Failure(Answer(s1, ds[0]).error);
    } else {
      assert x.transfers == [c, ds[0], StatusTransfer] && x.status == StatusOf(Rest(s1));
      assert Rest(s1) == script[2..];
    }
  }

  /** An Out exchange, or one without a buffer, leaves the buffer as it was;
      so does any exchange whose command phase failed. */
  lemma BufferUntouched(cmd: seq<byte>, dir: Direction, buf: Option<seq<byte>>, script: seq<Reply>)
    requires dir == Out || buf.None? || Answer(script, CommandTransfer(cmd, dir, buf)).Failure?
    ensures ScsiExchange(cmd, dir, buf, script).buffer == buf
  {
  }

  /** When the command write is accepted and the data read delivers `d`, an In
      exchange leaves `d` over the front of the buffer and the rest as it was. */
  lemma InDataLanded(cmd: seq<byte>, buf: seq<byte>, d: seq<byte>, rest: seq<Reply>)
    requires |d| <= |buf|
    ensures ScsiExchange(cmd, In, Some(buf), [Deliver([]), Deliver(d)] + rest).buffer == Some(d + buf[|d|..])
  {
    var script := [Deliver([]), Deliver(d)] + rest;
    assert Rest(script) == [Deliver(d)] + rest;
  }

  /** The status returned is the bCSWStatus field of the CSW the device sent,
      whatever its signature, tag and residue. */
  lemma StatusIsCswField(script: seq<Reply>, csw: seq<byte>)
    requires |csw| == CSW_LENGTH && script != [] && script[0] == Deliver(csw)
    ensures StatusOf(script) == Success(ParseCsw(csw).status)
  {
    assert CswBytes(csw) == csw;
  }

  /** A CSW shorter than 13 bytes leaves byte 12 at its initial zero, so the
      exchange reports success status 0. */
  lemma ShortCswReadsZero(script: seq<Reply>, d: seq<byte>)
    requires |d| < CSW_LENGTH && script != [] && script[0] == Deliver(d)
    ensures StatusOf(script) == Success(0)
  {
  }

  function Contents(buf: Option<array<byte>>): Option<seq<byte>>
    reads if buf.Some? then {buf.value} else {}
  {
    if buf.Some? then Some(buf.value[..]) else None
  }

  /** The status phase of `wrap_scsi`: a zeroed 13-byte array read from 0x81. */
  method ReadStatus(device: UsbDevice) returns (r: Result<byte, UsbError>)
    modifies device
    ensures device.trace == old(device.trace) + [StatusTransfer]
    ensures device.script == Rest(old(device.script))
    ensures r == StatusOf(old(device.script))
  {
    var csw := new byte[CSW_LENGTH](_ => 0);
    assert csw[..] == Zeros(CSW_LENGTH);
    var rs := device.ReadBulk(EP_IN, csw, STATUS_TIMEOUT_MS);
    if rs.Failure? {
      return Failure(rs.error);
    }
    // a short read and a signature other than "USBS" are only logged
    r := Success(csw[12]);
  }

  /** The data phase of `wrap_scsi` followed by its status phase. */
  method DataAndStatus(device: UsbDevice, dir: Direction, buf: Option<array<byte>>)
    returns (r: Result<byte, UsbError>)
    modifies device, if buf.Some? then {buf.value} else {}
    ensures var x := AfterCommand(dir, old(Contents(buf)), old(device.script));
      && device.trace == old(device.trace) + x.transfers
      && device.script == x.remaining
      && Contents(buf) == x.buffer
      && r == x.status
  {
    match dir {
      case Out =>
        if buf.Some? {
          var wd := device.WriteBulk(EP_OUT, buf.value[..], DATA_OUT_TIMEOUT_MS);
          if wd.Failure? {
            return Failure(wd.error);
          }
        }
      case In =>
        if buf.Some? {
          var rd := device.ReadBulk(EP_IN, buf.value, DATA_IN_TIMEOUT_MS);
          if rd.Failure? {
            return Failure(rd.error);
          }
          // a short read is only logged
        }
    }
    r := ReadStatus(device);
  }

  /** `wrap_scsi`: writes the CBW and command to endpoint 0x01, then writes the
      buffer to 0x01 (Out) or reads it from 0x81 (In) when there is one, then
      reads the 13-byte CSW from 0x81 and returns its status byte. A USB error
      ends the exchange at that phase; a short read and a CSW whose signature
      is not "USBS" are only logged. */
  method WrapScsi(device: UsbDevice, cmd: seq<byte>, dir: Direction, buf: Option<array<byte>>)
    returns (r: Result<byte, Ax206Error>)
    modifies device, if buf.Some? then {buf.value} else {}
    ensures var x := ScsiExchange(cmd, dir, old(Contents(buf)), old(device.script));
      && device.trace == old(device.trace) + x.transfers
      && device.script == x.remaining
      && Contents(buf) == x.buffer
      && r == match x.status
              case Success(s) => Success(s)
              case Failure(e) => Failure(UsbError(e))
  {
    var cbw := BuildCbw(dir, if buf.Some? then Some(buf.value.Length) else None, |cmd|);
    var w := device.WriteBulk(EP_OUT, cbw + cmd, COMMAND_TIMEOUT_MS);
    if w.Failure? {
      return Failure(UsbError(w.error));
    }
    var s := DataAndStatus(device, dir, buf);
    r := if s.Success? then Success(s.value) else Failure(UsbError(s.error));
  }
}
