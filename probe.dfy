/** `probe_device`: the capability test run on one hidraw node.  Each system
    call is replaced by the outcome it had, so the probe is a decision over
    those outcomes and the bytes the keyboard sent back. */
module Probe {
  import opened Frames
  import opened Text

  /** `struct LayeredKeyboard`: an open hidraw node and its last layer.
      `path` is `None` where the source holds NULL. */
  datatype Keyboard = Keyboard(fd: int, path: Option<string>, layer: byte)

  /** `struct MaybeLKB`: a probe's result code beside the keyboard it probed. */
  datatype MaybeLkb = MaybeLkb(result: int, kb: Keyboard)

  datatype OpenOutcome = OpenFailed | Opened(fd: nat)
  datatype WriteOutcome = WriteFailed | Written
  /** `select` with a one-second timeout: -1, 0 (timed out) or readable. */
  datatype SelectOutcome = SelectFailed | SelectTimedOut | SelectReady

  /** How each call of one probe turned out. */
  datatype ProbeIo = ProbeIo(open: OpenOutcome, write: WriteOutcome, select: SelectOutcome, read: ReadOutcome)

  /** A probe's result, the frames it wrote to the node and the signal
      payloads it handed to D-Bus. */
  datatype ProbeReport = ProbeReport(probed: MaybeLkb, sent: seq<Frame>, published: seq<string>)

  /** The classification of `probe_device`.  The response is read
      into the buffer that held the request, so bytes the keyboard did not
      send keep their request values (zero after the marker). */
  function ProbeDevice(kb: Keyboard, io: ProbeIo): (r: ProbeReport)
    // a NULL path is refused before anything is opened
    ensures kb.path.None? <==> r.probed.result == -2
    ensures kb.path.None? ==> r.probed.kb == kb && r.published == []
    // the request is written exactly once, to every node that opened
    ensures r.sent == if kb.path.Some? && io.open.Opened? then [RequestFrame()] else []
    // the path is kept; the descriptor is what open returned
    ensures kb.path.Some? ==> r.probed.kb.path == kb.path
    ensures kb.path.Some? ==> r.probed.kb.fd == if io.open.Opened? then io.open.fd else -1
    // open, write and select failures are errors
    ensures r.probed.result == -1 <==>
      kb.path.Some? && (io.open.OpenFailed? || io.write.WriteFailed? || io.select.SelectFailed?)
    // capable exactly when every call succeeded and the answer starts 'L', 1
    ensures r.probed.result == 1 <==>
      kb.path.Some? && io.open.Opened? && io.write.Written? && io.select.SelectReady? &&
      io.read.Received? && |io.read.bytes| >= 2 &&
      io.read.bytes[0] == Marker && io.read.bytes[1] == 1
    // a timeout, a failed or short read, or another answer is "not capable"
    ensures r.probed.result == 0 <==>
      kb.path.Some? && io.open.Opened? && io.write.Written? &&
      (io.select.SelectTimedOut? ||
       (io.select.SelectReady? &&
        !(io.read.Received? && |io.read.bytes| >= 2 && io.read.bytes[0] == Marker && io.read.bytes[1] == 1)))
    // a capable answer carries the layer in its last byte (zero if it was short)
    ensures r.probed.result == 1 ==>
      r.probed.kb.layer == (if |io.read.bytes| >= FrameSize then io.read.bytes[FrameSize - 1] else 0)
    ensures r.probed.result == 1 ==> r.published == [Payload(r.probed.kb.layer)]
    ensures r.probed.result != 1 ==> r.probed.kb.layer == kb.layer && r.published == []
  {
    if kb.path.None? then
      ProbeReport(MaybeLkb(-2, kb), [], [])
    else
      var request := RequestFrame();
      match io.open
      case OpenFailed => ProbeReport(MaybeLkb(-1, kb.(fd := -1)), [], [])
      case Opened(fd) =>
        var probed := kb.(fd := fd);
        if io.write.WriteFailed? then ProbeReport(MaybeLkb(-1, probed), [request], [])
        else if io.select.SelectFailed? then ProbeReport(MaybeLkb(-1, probed), [request], [])
        else if io.select.SelectTimedOut? then ProbeReport(MaybeLkb(0, probed), [request], [])
        else
          var n := ReadCount(io.read);
          var data := if io.read.Received? then Overlay(request, io.read.bytes) else request;
          if n > 0 && data[0] == Marker && data[1] == 1 then
            var capable := probed.(layer := data[FrameSize - 1]);
            ProbeReport(MaybeLkb(1, capable), [request], [Payload(capable.layer)])
          else
            ProbeReport(MaybeLkb(0, probed), [request], [])
  }
}
