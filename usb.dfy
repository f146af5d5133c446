/** The USB device handle as the driver sees it: bulk writes to and bulk reads
    from an endpoint. The device is a stub that records every transfer in
    `trace` and answers each one with the next reply of its `script`. */
module Usb {
  import opened Wrappers
  import opened Bytes

  /** The `rusb::Error` values a bulk transfer can end with. */
  datatype UsbError = Timeout | Pipe | NoDevice | Io | Overflow

  /** Bulk OUT endpoint for commands and payloads. */
  const EP_OUT: byte := 0x01
  /** Bulk IN endpoint for responses and status. */
  const EP_IN: byte := 0x81

  datatype Transfer =
    | BulkWrite(endpoint: byte, data: seq<byte>, timeoutMs: nat)
    | BulkRead(endpoint: byte, length: nat, timeoutMs: nat)

  /** The device's answer to one transfer: accept it (a read receives `data`)
      or fail it with a USB error. */
  datatype Reply = Deliver(data: seq<byte>) | Reject(error: UsbError)

  /** The script after one transfer has consumed its reply. */
  function Rest(script: seq<Reply>): seq<Reply>
  {
    if script == [] then [] else script[1..]
  }

  /** What transfer `t` yields when `script` is what the device has left to
      say: a silent device times out, a rejection is its error, an accepted
      write yields no data, and an accepted read yields the delivered bytes
      unless they exceed the requested length (libusb reports an overflow). */
  function Answer(script: seq<Reply>, t: Transfer): (r: Result<seq<byte>, UsbError>)
    ensures t.BulkWrite? && r.Success? ==> r.value == []
    ensures t.BulkRead? && r.Success? ==> |r.value| <= t.length
    ensures script == [] ==> r == Failure(Timeout)
  {
    if script == [] then Failure(Timeout)
    else
      match script[0]
      case Reject(e) => Failure(e)
      case Deliver(d) =>
        match t
        case BulkWrite(_, _, _) => Success([])
        case BulkRead(_, n, _) => if |d| <= n then Success(d) else Failure(Overflow)
  }

  /** A buffer after `d` has been read into its first bytes. */
  function Overlaid(buf: seq<byte>, d: seq<byte>): (r: seq<byte>)
    requires |d| <= |buf|
    ensures |r| == |buf| && r[..|d|] == d && r[|d|..] == buf[|d|..]
  {
    d + buf[|d|..]
  }

  class UsbDevice {
    var trace: seq<Transfer>
    var script: seq<Reply>

    constructor (script: seq<Reply>)
      ensures trace == [] && this.script == script
    {
      trace := [];
      this.script := script;
    }

    /** `DeviceHandle::write_bulk`: returns the number of bytes written. */
    method WriteBulk(endpoint: byte, data: seq<byte>, timeoutMs: nat) returns (r: Result<nat, UsbError>)
      modifies this
      ensures trace == old(trace) + [BulkWrite(endpoint, data, timeoutMs)]
      ensures script == Rest(old(script))
      ensures r == match Answer(old(script), BulkWrite(endpoint, data, timeoutMs))
                   case Success(_) => Success(|data|)
                   case Failure(e) => Failure(e)
    {
      var t := BulkWrite(endpoint, data, timeoutMs);
      var a := Answer(script, t);
      trace := trace + [t];
      script := Rest(script);
      r := if a.Success? then Success(|data|) else Failure(a.error);
    }

    /** `DeviceHandle::read_bulk`: fills the front of `buf` and returns the
        number of bytes read. */
    method ReadBulk(endpoint: byte, buf: array<byte>, timeoutMs: nat) returns (r: Result<nat, UsbError>)
      modifies this, buf
      ensures trace == old(trace) + [BulkRead(endpoint, buf.Length, timeoutMs)]
      ensures script == Rest(old(script))
      ensures match Answer(old(script), BulkRead(endpoint, buf.Length, timeoutMs))
              case Success(d) => r == Success(|d|) && buf[..] == Overlaid(old(buf[..]), d)
              case Failure(e) => r == Failure(e) && buf[..] == old(buf[..])
    {
      var t := BulkRead(endpoint, buf.Length, timeoutMs);
      var a := Answer(script, t);
      trace := trace + [t];
      script := Rest(script);
      match a
      case Failure(e) =>
        r := Failure(e);
      case Success(d) =>
        forall i | 0 <= i < |d| {
          buf[i] := d[i];
        }
        r := Success(|d|);
    }
  }
}
