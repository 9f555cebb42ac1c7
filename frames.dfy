/** Bytes and the fixed 32-byte frames the daemon exchanges with a keyboard
    over its hidraw node, and the outcome of one read into a frame buffer. */
module Frames {

  datatype Option<+T> = None | Some(value: T)

  /** One byte, as the source's `unsigned char`. */
  newtype byte = x: int | 0 <= x < 256

  /** Every read and write on a hidraw node moves one 32-byte frame. */
  const FrameSize: nat := 32

  type Frame = s: seq<byte> | |s| == FrameSize witness seq(FrameSize, _ => 0)

  /** The sentinel 'L' that opens a request, a capability answer and a layer report. */
  const Marker: byte := 'L' as int as byte

  /** The probe request: the marker followed by 31 zero bytes. */
  function RequestFrame(): (f: Frame)
    ensures f[0] == Marker
    ensures forall i :: 1 <= i < FrameSize ==> f[i] == 0
  {
    [Marker] + seq(FrameSize - 1, _ => 0)
  }

  /** What a `read(fd, buf, 32)` call returned: -1, or the bytes the device
      delivered (the kernel copies at most 32 of them). */
  datatype ReadOutcome = ReadFailed | Received(bytes: seq<byte>)

  /** The return value of the read call: -1 on failure, else the count copied. */
  function ReadCount(r: ReadOutcome): (n: int)
    ensures r.ReadFailed? <==> n == -1
    ensures r.Received? ==> 0 <= n <= FrameSize && n <= |r.bytes|
    ensures r.Received? && n < FrameSize ==> n == |r.bytes|
  {
    match r
    case ReadFailed => -1
    case Received(bytes) => if |bytes| < FrameSize then |bytes| else FrameSize
  }

  /** The buffer after a successful read into `buf`: the delivered bytes
      replace its first bytes, the rest of `buf` keeps its old contents. */
  function Overlay(buf: Frame, bytes: seq<byte>): (r: Frame)
    ensures forall i :: 0 <= i < FrameSize ==> r[i] == if i < |bytes| then bytes[i] else buf[i]
    ensures |bytes| == 0 ==> r == buf
  {
    var n := ReadCount(Received(bytes));
    bytes[..n] + buf[n..]
  }
}
