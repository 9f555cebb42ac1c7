/** The query server (`unix_socket`): each client that sends a request
    whose first byte is 'L' gets a header line and one `path\tlayer` line
    per registry entry, in registry order. */
module Query {
  import opened Frames
  import opened Numerals
  import opened Text
  import opened Probe
  import opened Discovery
  import opened Poll

  /** The rows of the response, one per registry entry, in registry order. */
  function Rows(kbs: seq<Keyboard>): (r: seq<string>)
    requires AllNamed(kbs)
    ensures |r| == |kbs|
    ensures forall i :: 0 <= i < |kbs| ==> r[i] == Row(kbs[i].path.value, kbs[i].layer)
  {
    seq(|kbs|, i requires 0 <= i < |kbs| => Row(kbs[i].path.value, kbs[i].layer))
  }

  /** The writes the server issues for a request held in `request`, when
      the writes numbered in `failing` fail (0 is the header, `1 + i` the row
      of entry `i`): nothing unless byte 0 is 'L'; only the header if its
      write fails; otherwise every row, whichever row writes fail. */
  function Reply(request: Frame, kbs: seq<Keyboard>, failing: set<nat>): (w: seq<string>)
    requires AllNamed(kbs)
    ensures request[0] != Marker <==> w == []
    ensures w != [] ==> w[0] == Header
    ensures w != [] && 0 in failing ==> |w| == 1
    ensures w != [] && 0 !in failing ==> w[1..] == Rows(kbs)
  {
    if request[0] != Marker then []
    else if 0 in failing then [Header]
    else [Header] + Rows(kbs)
  }

  /** The first position of `c` in `s`, or `|s|`. */
  function IndexOf(s: string, c: char): (k: nat)
    ensures k <= |s| && (k < |s| ==> s[k] == c)
    ensures forall j :: 0 <= j < k ==> s[j] != c
  {
    if s == [] then 0 else if s[0] == c then 0 else 1 + IndexOf(s[1..], c)
  }

  lemma {:induction false} IndexOfAfter(p: string, c: char, rest: string)
    requires c !in p
    ensures IndexOf(p + [c] + rest, c) == |p|
    decreases |p|
  {
    if p != [] {
      assert (p + [c] + rest)[1..] == p[1..] + [c] + rest;
      IndexOfAfter(p[1..], c, rest);
    }
  }

  /** How a client reads one response row back: the path up to the first
      tab, then a decimal layer, then a newline. */
  function ParseRow(line: string): Option<(string, nat)> {
    var t := IndexOf(line, '\t');
    if t + 2 <= |line| && line[|line| - 1] == '\n' && AllDigits(line[t + 1..|line| - 1]) then
      Some((line[..t], ParseDecimal(line[t + 1..|line| - 1])))
    else
      None
  }

  /** A row reads back as its path and layer, for any path without a tab. */
  lemma {:induction false} ParseRowOfRow(path: string, layer: byte)
    requires '\t' !in path
    ensures ParseRow(Row(path, layer)) == Some((path, layer as nat))
  {
    var line := Row(path, layer);
    assert line == path + ['\t'] + line[|path| + 1..];
    IndexOfAfter(path, '\t', line[|path| + 1..]);
  }

  /** A full response reads back as the registry, entry by entry, when the
      header write succeeded and no path holds a tab. */
  lemma {:induction false} ReplyReadsBack(request: Frame, kbs: seq<Keyboard>, failing: set<nat>, i: nat)
    requires AllNamed(kbs) && request[0] == Marker && 0 !in failing
    requires i < |kbs| && '\t' !in kbs[i].path.value
    ensures |Reply(request, kbs, failing)| == 1 + |kbs|
    ensures ParseRow(Reply(request, kbs, failing)[1 + i]) == Some((kbs[i].path.value, kbs[i].layer as nat))
  {
    ParseRowOfRow(kbs[i].path.value, kbs[i].layer);
  }

  datatype AcceptOutcome = AcceptFailed | Accepted(read: ReadOutcome)

  /** One return of the listener's `poll`: -1, or its `revents`, whether
      re-creating the socket after POLLERR succeeded, and the accepted client. */
  datatype ListenWake = ListenPollFailed | ListenReady(revents: bv16, relisten: bool, accept: AcceptOutcome)

  /** `exit(1)`, or the loop continues after serving (or not serving) a client. */
  datatype ServeStep = Exited | Continued(relistened: bool, writes: seq<string>)

  /** The server's state that outlives one client: the 32-byte request
      buffer, which is never cleared between clients. */
  class QueryServer {
    var data: array<byte>

    ghost predicate Valid()
      reads this
    {
      data.Length == FrameSize
    }

    constructor ()
      ensures Valid() && fresh(data)
      ensures data[..] == seq(FrameSize, _ => 0)
    {
      data := new byte[FrameSize](_ => 0);
    }

    /** Read one client's request into the buffer and answer it; a failed
        read is answered with nothing. */
    method HandleClient(read: ReadOutcome, kbs: array<Keyboard>, failing: set<nat>) returns (writes: seq<string>)
      requires Valid() && AllNamed(kbs[..])
      modifies data
      ensures Valid()
      ensures read.ReadFailed? ==> data[..] == old(data[..]) && writes == []
      ensures read.Received? ==> data[..] == Overlay(old(data[..]), read.bytes)
      ensures read.Received? ==> writes == Reply(data[..], kbs[..], failing)
    {
      writes := [];
      if read.ReadFailed? {
        return;
      }
      var n := ReadCount(read);
      forall i | 0 <= i < n {
        data[i] := read.bytes[i];
      }
      ghost var request: Frame := data[..];
      assert request == Overlay(old(data[..]), read.bytes);
      if data[0] == Marker {
        writes := [Header];
        if 0 !in failing {
          for i := 0 to kbs.Length
            invariant writes == [Header] + Rows(kbs[..i])
          {
            // a failed row write is reported and the next row is still written
            writes := writes + [Row(kbs[i].path.value, kbs[i].layer)];
          }
          assert kbs[..kbs.Length] == kbs[..];
        }
      }
    }

    /** One pass of the server loop: a failed `poll` exits; POLLERR closes
        the listener and opens it again (exiting if that fails); POLLIN
        accepts a client, skipping it if `accept` fails. */
    method ServeWake(w: ListenWake, kbs: array<Keyboard>, failing: set<nat>) returns (step: ServeStep)
      requires Valid() && AllNamed(kbs[..])
      modifies data
      ensures Valid()
      ensures step.Exited? <==> w.ListenPollFailed? || (w.revents & POLLERR != 0 && !w.relisten)
      ensures step.Continued? ==> step.relistened == (w.revents & POLLERR != 0)
      ensures step.Continued? && (w.revents & POLLIN == 0 || w.accept.AcceptFailed?) ==>
        step.writes == [] && data[..] == old(data[..])
      ensures step.Continued? && w.revents & POLLIN != 0 && w.accept.Accepted? && w.accept.read.Received? ==>
        data[..] == Overlay(old(data[..]), w.accept.read.bytes) && step.writes == Reply(data[..], kbs[..], failing)
      ensures step.Continued? && w.revents & POLLIN != 0 && w.accept.Accepted? && w.accept.read.ReadFailed? ==>
        step.writes == [] && data[..] == old(data[..])
    {
      if w.ListenPollFailed? {
        return Exited;
      }
      var relistened := false;
      if w.revents & POLLERR != 0 {
        if !w.relisten {
          return Exited;
        }
        relistened := true;
      }
      var writes := [];
      if w.revents & POLLIN != 0 && w.accept.Accepted? {
        writes := HandleClient(w.accept.read, kbs, failing);
      }
      step := Continued(relistened, writes);
    }
  }

  /** The buffer is not cleared between clients: after an 'L' request, a
      client whose read delivers no bytes still gets the whole table. */
  lemma StaleRequestIsAnswered(previous: Frame, kbs: seq<Keyboard>)
    requires previous[0] == Marker && AllNamed(kbs)
    ensures Reply(Overlay(previous, []), kbs, {}) == [Header] + Rows(kbs)
  {
  }
}
