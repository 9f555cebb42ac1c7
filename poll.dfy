/** The polling half of the daemon: `read_hid`, one wake of `poll_kbs`
    (the scan over the registry), `poll_kbs` itself, and the discovery and
    polling cycle of `main`.  `poll` is replaced by a script of wakes. */
module Poll {
  import opened Frames
  import opened Text
  import opened Probe
  import opened Discovery

  const POLLIN: bv16 := 0x001
  const POLLERR: bv16 := 0x008

  /** The seconds `main` passes to `poll_kbs` and sleeps after an empty discovery. */
  const Timeout: nat := 30

  /** What `read` left in `read_hid`'s buffer.  The buffer is not initialised
      and the read may be short, so the model takes all 32 bytes as given. */
  datatype HidRead = HidReadFailed | HidBuffer(data: Frame)

  datatype HidResult = HidResult(code: int, kb: Keyboard, published: seq<string>)

  /** `read_hid`: -1 on a failed read; 1 and a new layer (byte 31) for a
      frame that starts with the marker, which is also published; 0 and no
      change for any other frame. */
  function ReadHid(kb: Keyboard, r: HidRead): (h: HidResult)
    ensures h.kb.fd == kb.fd && h.kb.path == kb.path
    ensures h.code == -1 <==> r.HidReadFailed?
    ensures h.code == 1 <==> r.HidBuffer? && r.data[0] == Marker
    ensures h.code == 0 <==> r.HidBuffer? && r.data[0] != Marker
    ensures h.code == 1 ==> h.kb.layer == r.data[FrameSize - 1] && h.published == [Payload(r.data[FrameSize - 1])]
    ensures h.code != 1 ==> h.kb == kb && h.published == []
  {
    match r
    case HidReadFailed => HidResult(-1, kb, [])
    case HidBuffer(data) =>
      if data[0] == Marker then
        var updated := kb.(layer := data[FrameSize - 1]);
        HidResult(1, updated, [Payload(updated.layer)])
      else
        HidResult(0, kb, [])
  }

  /** What `poll` reported for one registry entry, and what a read of it returns. */
  datatype EntryEvent = EntryEvent(revents: bv16, read: HidRead)

  /** One return of `poll`: -1, 0 (timed out), or a positive count with the
      `revents` of every entry. */
  datatype Wake = PollFailed | PollTimedOut | PollReady(events: seq<EntryEvent>)

  /** Every ready wake reports one event per registry entry. */
  predicate Fits(wakes: seq<Wake>, n: nat) {
    forall k :: 0 <= k < |wakes| && wakes[k].PollReady? ==> |wakes[k].events| == n
  }

  predicate HasErr(e: EntryEvent) {
    e.revents & POLLERR != 0
  }

  predicate HasIn(e: EntryEvent) {
    e.revents & POLLIN != 0
  }

  /** An entry event that makes the scan give up with -2. */
  predicate Fatal(e: EntryEvent) {
    HasErr(e) || (HasIn(e) && e.read.HidReadFailed?)
  }

  /** Some entry's event in a wake is fatal. */
  predicate HasFatal(evs: seq<EntryEvent>) {
    exists i :: 0 <= i < |evs| && Fatal(evs[i])
  }

  /** An entry event that sets the entry's layer. */
  predicate Updates(e: EntryEvent) {
    !HasErr(e) && HasIn(e) && e.read.HidBuffer? && e.read.data[0] == Marker
  }

  /** The entry as a scan that reaches it leaves it. */
  function Updated(kb: Keyboard, e: EntryEvent): Keyboard {
    if Updates(e) then kb.(layer := e.read.data[FrameSize - 1]) else kb
  }

  /** The payloads a scan that meets no fatal event publishes, in order. */
  function Announcements(evs: seq<EntryEvent>): seq<string>
    decreases |evs|
  {
    if evs == [] then []
    else (if Updates(evs[0]) then [Payload(evs[0].read.data[FrameSize - 1])] else []) + Announcements(evs[1..])
  }

  datatype Dispatched = Dispatched(lost: bool, kbs: seq<Keyboard>, published: seq<string>)

  /** The registry scan of one ready wake, in index order: POLLERR is
      checked before POLLIN, and the first POLLERR or failed read ends the
      scan as lost.  Only layers change. */
  function Dispatch(kbs: seq<Keyboard>, evs: seq<EntryEvent>): (d: Dispatched)
    requires |kbs| == |evs|
    ensures |d.kbs| == |kbs|
    ensures forall i :: 0 <= i < |kbs| ==> d.kbs[i].fd == kbs[i].fd && d.kbs[i].path == kbs[i].path
    decreases |kbs|
  {
    if kbs == [] then Dispatched(false, [], [])
    else
      var e := evs[0];
      if e.revents & POLLERR != 0 then Dispatched(true, kbs, [])
      else
        var h := if e.revents & POLLIN != 0 then ReadHid(kbs[0], e.read) else HidResult(0, kbs[0], []);
        if h.code == -1 then Dispatched(true, kbs, [])
        else
          var rest := Dispatch(kbs[1..], evs[1..]);
          Dispatched(rest.lost, [h.kb] + rest.kbs, h.published + rest.published)
  }

  /** A scan is lost exactly when some entry's event is fatal. */
  lemma {:induction false} DispatchLostIff(kbs: seq<Keyboard>, evs: seq<EntryEvent>)
    requires |kbs| == |evs|
    ensures Dispatch(kbs, evs).lost <==> HasFatal(evs)
    decreases |kbs|
  {
    if kbs != [] && !Fatal(evs[0]) {
      DispatchLostIff(kbs[1..], evs[1..]);
      if HasFatal(evs) {
        var i :| 0 <= i < |evs| && Fatal(evs[i]);
        assert evs[1..][i - 1] == evs[i];
      }
      if HasFatal(evs[1..]) {
        var i :| 0 <= i < |evs[1..]| && Fatal(evs[1..][i]);
        assert evs[i + 1] == evs[1..][i];
      }
    } else if kbs != [] {
      assert Fatal(evs[0]);
    }
  }

  /** A fatal event at `i` leaves entry `i` and every later entry unchanged. */
  lemma {:induction false} DispatchStopsAtFatal(kbs: seq<Keyboard>, evs: seq<EntryEvent>, i: nat)
    requires |kbs| == |evs| && i < |evs| && Fatal(evs[i])
    ensures forall j :: i <= j < |kbs| ==> Dispatch(kbs, evs).kbs[j] == kbs[j]
    decreases |kbs|
  {
    if !Fatal(evs[0]) {
      var rest := Dispatch(kbs[1..], evs[1..]);
      DispatchStopsAtFatal(kbs[1..], evs[1..], i - 1);
      assert Dispatch(kbs, evs).kbs[1..] == rest.kbs;
      forall j | i <= j < |kbs| ensures Dispatch(kbs, evs).kbs[j] == kbs[j] {
        assert Dispatch(kbs, evs).kbs[j] == rest.kbs[j - 1] && kbs[1..][j - 1] == kbs[j];
      }
    }
  }

  /** An entry the scan reaches, with no fatal event up to and including
      its own, gets its layer from a marker frame and is otherwise unchanged. */
  lemma {:induction false} DispatchUpdates(kbs: seq<Keyboard>, evs: seq<EntryEvent>, j: nat)
    requires |kbs| == |evs| && j < |kbs|
    requires forall i :: 0 <= i <= j ==> !Fatal(evs[i])
    ensures Dispatch(kbs, evs).kbs[j] == Updated(kbs[j], evs[j])
    decreases |kbs|
  {
    assert !Fatal(evs[0]);
    if j > 0 {
      forall i | 0 <= i <= j - 1 ensures !Fatal(evs[1..][i]) {
        assert evs[1..][i] == evs[i + 1];
      }
      DispatchUpdates(kbs[1..], evs[1..], j - 1);
    }
  }

  /** A scan that is not lost publishes one payload per marker frame, in order. */
  lemma {:induction false} DispatchPublishes(kbs: seq<Keyboard>, evs: seq<EntryEvent>)
    requires |kbs| == |evs|
    requires !Dispatch(kbs, evs).lost
    ensures Dispatch(kbs, evs).published == Announcements(evs)
    decreases |kbs|
  {
    if kbs != [] {
      DispatchPublishes(kbs[1..], evs[1..]);
    }
  }

  /** A lost scan has published the payloads of the entries before the
      first fatal one, in order. */
  lemma {:induction false} DispatchPublishesUntilFatal(kbs: seq<Keyboard>, evs: seq<EntryEvent>, i: nat)
    requires |kbs| == |evs| && i < |evs| && Fatal(evs[i])
    requires forall j :: 0 <= j < i ==> !Fatal(evs[j])
    ensures Dispatch(kbs, evs).published == Announcements(evs[..i])
    decreases i
  {
    if i > 0 {
      assert !Fatal(evs[0]);
      forall j | 0 <= j < i - 1 ensures !Fatal(evs[1..][j]) {
        assert evs[1..][j] == evs[j + 1];
      }
      assert evs[1..][i - 1] == evs[i];
      DispatchPublishesUntilFatal(kbs[1..], evs[1..], i - 1);
      assert evs[..i][0] == evs[0] && evs[..i][1..] == evs[1..][..i - 1];
    }
  }

  /** The scan result reached through a finished prefix. */
  function Join(prefix: seq<Keyboard>, published: seq<string>, d: Dispatched): Dispatched {
    Dispatched(d.lost, prefix + d.kbs, published + d.published)
  }

  /** The scan of the entries from `i` on, one step unfolded. */
  lemma {:induction false} DispatchFrom(kbs: seq<Keyboard>, evs: seq<EntryEvent>, i: nat)
    requires |kbs| == |evs| && i < |kbs|
    ensures HasErr(evs[i]) ==> Dispatch(kbs[i..], evs[i..]) == Dispatched(true, kbs[i..], [])
    ensures !HasErr(evs[i]) && HasIn(evs[i]) && evs[i].read.HidReadFailed? ==>
      Dispatch(kbs[i..], evs[i..]) == Dispatched(true, kbs[i..], [])
    ensures !HasErr(evs[i]) && HasIn(evs[i]) && evs[i].read.HidBuffer? ==>
      var h := ReadHid(kbs[i], evs[i].read);
      Dispatch(kbs[i..], evs[i..]) == Join([h.kb], h.published, Dispatch(kbs[i + 1..], evs[i + 1..]))
    ensures !HasErr(evs[i]) && !HasIn(evs[i]) ==>
      Dispatch(kbs[i..], evs[i..]) == Join([kbs[i]], [], Dispatch(kbs[i + 1..], evs[i + 1..]))
  {
    assert kbs[i..][1..] == kbs[i + 1..] && evs[i..][1..] == evs[i + 1..];
  }

  /** A fatal event at `i`, with the entries before it finished, ends the
      scan as lost with entry `i` and the rest untouched. */
  lemma {:induction false} ScanLost(start: seq<Keyboard>, evs: seq<EntryEvent>, i: nat, done: seq<Keyboard>, published: seq<string>)
    requires |start| == |evs| && |done| == i < |start|
    requires Dispatch(start, evs) == Join(done, published, Dispatch(start[i..], evs[i..]))
    requires HasErr(evs[i]) || (HasIn(evs[i]) && ReadHid(start[i], evs[i].read).code == -1)
    ensures Dispatch(start, evs) == Dispatched(true, done + start[i..], published)
  {
    DispatchFrom(start, evs, i);
    assert published + [] == published;
  }

  /** A non-fatal event at `i` moves entry `i`, as the read left it, into
      the finished prefix. */
  lemma {:induction false} ScanStep(start: seq<Keyboard>, evs: seq<EntryEvent>, i: nat, done: seq<Keyboard>, published: seq<string>, h: HidResult)
    requires |start| == |evs| && |done| == i < |start|
    requires Dispatch(start, evs) == Join(done, published, Dispatch(start[i..], evs[i..]))
    requires !HasErr(evs[i])
    requires h == if HasIn(evs[i]) then ReadHid(start[i], evs[i].read) else HidResult(0, start[i], [])
    requires h.code != -1
    ensures Dispatch(start, evs) == Join(done + [h.kb], published + h.published, Dispatch(start[i + 1..], evs[i + 1..]))
    ensures (done + start[i..])[i := h.kb] == (done + [h.kb]) + start[i + 1..]
    ensures h.kb == start[i] ==> done + start[i..] == (done + [h.kb]) + start[i + 1..]
  {
    DispatchFrom(start, evs, i);
    JoinJoin(done, published, [h.kb], h.published, Dispatch(start[i + 1..], evs[i + 1..]));
    SpliceStep(done, h.kb, start, i);
  }

  /** The first untouched entry is still the one the scan started with. */
  lemma {:induction false} ScanAt(cur: seq<Keyboard>, done: seq<Keyboard>, start: seq<Keyboard>, i: nat)
    requires |done| == i < |start| && cur == done + start[i..]
    ensures i < |cur| && cur[i] == start[i]
  {
    assert cur[i] == start[i..][0];
  }

  /** Replacing the first untouched entry moves it into the finished prefix. */
  lemma {:induction false} SpliceStep(done: seq<Keyboard>, x: Keyboard, start: seq<Keyboard>, i: nat)
    requires |done| == i < |start|
    ensures (done + start[i..])[i := x] == (done + [x]) + start[i + 1..]
  {
    assert start[i..] == [start[i]] + start[i + 1..];
  }

  lemma {:induction false} JoinJoin(a: seq<Keyboard>, p: seq<string>, b: seq<Keyboard>, q: seq<string>, d: Dispatched)
    ensures Join(a, p, Join(b, q, d)) == Join(a + b, p + q, d)
  {
    assert a + (b + d.kbs) == (a + b) + d.kbs;
    assert p + (q + d.published) == (p + q) + d.published;
  }

  /** `poll_kbs`'s result: `Returned` with its return code, or `Blocked`
      when the script ends while the loop would call `poll` again. */
  datatype PollStatus = Blocked | Returned(code: int)

  datatype Run = Run(status: PollStatus, used: nat, kbs: seq<Keyboard>, published: seq<string>)

  /** A run continued after `used` wakes that published `published`. */
  function Shift(used: nat, published: seq<string>, r: Run): Run {
    Run(r.status, used + r.used, r.kbs, published + r.published)
  }

  /** `poll_kbs` over a script of wakes: a timeout returns 0, a failed poll
      -1, a lost scan -2; after a clean scan it polls again. */
  function PollRun(kbs: seq<Keyboard>, wakes: seq<Wake>): (r: Run)
    requires Fits(wakes, |kbs|)
    ensures r.used <= |wakes| && (r.status.Returned? ==> r.used >= 1)
    ensures |r.kbs| == |kbs|
    ensures forall i :: 0 <= i < |kbs| ==> r.kbs[i].fd == kbs[i].fd && r.kbs[i].path == kbs[i].path
    decreases |wakes|
  {
    if wakes == [] then Run(Blocked, 0, kbs, [])
    else
      match wakes[0]
      case PollTimedOut => Run(Returned(0), 1, kbs, [])
      case PollFailed => Run(Returned(-1), 1, kbs, [])
      case PollReady(evs) =>
        var d := Dispatch(kbs, evs);
        if d.lost then Run(Returned(-2), 1, d.kbs, d.published)
        else Shift(1, d.published, PollRun(d.kbs, wakes[1..]))
  }

  /** One turn of `poll_kbs`'s loop after `used` wakes: a timeout or a
      failed poll returns, a ready wake is scanned and either returns -2 or
      leaves the rest of the script to the next turn. */
  lemma {:induction false} PollRunStep(start: seq<Keyboard>, wakes: seq<Wake>, used: nat, published: seq<string>, cur: seq<Keyboard>)
    requires used < |wakes| && Fits(wakes, |start|) && |cur| == |start| && Fits(wakes[used..], |cur|)
    requires PollRun(start, wakes) == Shift(used, published, PollRun(cur, wakes[used..]))
    ensures wakes[used] == PollTimedOut ==> PollRun(start, wakes) == Run(Returned(0), used + 1, cur, published)
    ensures wakes[used] == PollFailed ==> PollRun(start, wakes) == Run(Returned(-1), used + 1, cur, published)
    ensures wakes[used].PollReady? ==>
      |wakes[used].events| == |cur| &&
      var d := Dispatch(cur, wakes[used].events);
      (d.lost ==> PollRun(start, wakes) == Run(Returned(-2), used + 1, d.kbs, published + d.published)) &&
      (!d.lost ==>
         Fits(wakes[used + 1..], |d.kbs|) &&
         PollRun(start, wakes) == Shift(used + 1, published + d.published, PollRun(d.kbs, wakes[used + 1..])))
  {
    var rest := wakes[used..];
    assert rest[0] == wakes[used] && rest[1..] == wakes[used + 1..];
    assert published + [] == published;
    if wakes[used].PollReady? {
      var d := Dispatch(cur, wakes[used].events);
      if !d.lost {
        FitsSuffix(wakes, |start|, used + 1);
        ShiftShift(used, published, 1, d.published, PollRun(d.kbs, wakes[used + 1..]));
      }
    }
  }

  /** `poll_kbs` returns only 0 on a timeout, -1 on a failed poll and -2
      on a wake with a fatal event, and every wake before the one it
      returned on was a ready one. */
  lemma {:induction false} PollRunOutcome(kbs: seq<Keyboard>, wakes: seq<Wake>)
    requires Fits(wakes, |kbs|)
    ensures var r := PollRun(kbs, wakes);
      (forall k :: 0 <= k < r.used - 1 ==> wakes[k].PollReady?) &&
      (r.status.Returned? ==> r.status.code in {0, -1, -2}) &&
      (r.status == Returned(0) ==> wakes[r.used - 1] == PollTimedOut) &&
      (r.status == Returned(-1) ==> wakes[r.used - 1] == PollFailed) &&
      (r.status == Returned(-2) ==> wakes[r.used - 1].PollReady? && HasFatal(wakes[r.used - 1].events))
    decreases |wakes|
  {
    if wakes != [] && wakes[0].PollReady? {
      var evs := wakes[0].events;
      var d := Dispatch(kbs, evs);
      DispatchLostIff(kbs, evs);
      if !d.lost {
        var rest := wakes[1..];
        PollRunOutcome(d.kbs, rest);
        PollRunAfterCleanWake(kbs, wakes);
        var r' := PollRun(d.kbs, rest);
        forall k | 0 <= k < r'.used ensures wakes[k].PollReady? {
          if k > 0 {
            assert wakes[k] == rest[k - 1];
          }
        }
        if r'.status.Returned? {
          assert wakes[r'.used] == rest[r'.used - 1];
        }
      }
    }
  }

  /** `poll_kbs` keeps polling while every wake is a ready one with no
      fatal event: it blocks only once every wake was ready, and when every
      wake is ready it can end only with -2. */
  lemma {:induction false} PollRunBlocksOnlyWhenReady(kbs: seq<Keyboard>, wakes: seq<Wake>)
    requires Fits(wakes, |kbs|)
    ensures var r := PollRun(kbs, wakes);
      (r.status == Blocked ==> r.used == |wakes| && forall k :: 0 <= k < |wakes| ==> wakes[k].PollReady?) &&
      ((forall k :: 0 <= k < |wakes| ==> wakes[k].PollReady?) ==> r.status == Blocked || r.status == Returned(-2))
    decreases |wakes|
  {
    if wakes != [] && wakes[0].PollReady? {
      var d := Dispatch(kbs, wakes[0].events);
      if !d.lost {
        var rest := wakes[1..];
        PollRunBlocksOnlyWhenReady(d.kbs, rest);
        PollRunAfterCleanWake(kbs, wakes);
        if PollRun(d.kbs, rest).status == Blocked {
          forall k | 0 <= k < |wakes| ensures wakes[k].PollReady? {
            if k > 0 {
              assert wakes[k] == rest[k - 1];
            }
          }
        }
        if forall k :: 0 <= k < |wakes| ==> wakes[k].PollReady? {
          assert forall k :: 0 <= k < |rest| ==> rest[k] == wakes[k + 1];
        }
      }
    }
  }

  /** `main`'s `while (1) if (poll_kbs(fds, timeout) == -2) break;`:
      polling is left only on -2 (or blocks when the script ends). */
  function PollPhase(kbs: seq<Keyboard>, wakes: seq<Wake>): (r: Run)
    requires Fits(wakes, |kbs|)
    ensures r.status == Blocked || r.status == Returned(-2)
    ensures r.used <= |wakes|
    ensures |r.kbs| == |kbs|
    ensures forall i :: 0 <= i < |kbs| ==> r.kbs[i].fd == kbs[i].fd && r.kbs[i].path == kbs[i].path
    decreases |wakes|
  {
    var r := PollRun(kbs, wakes);
    if r.status == Blocked || r.status == Returned(-2) then r
    else Shift(r.used, r.published, PollPhase(r.kbs, wakes[r.used..]))
  }

  /** A reference for the polling phase: timeouts and failed polls are
      skipped, ready wakes are scanned until the first lost scan. */
  function Stream(kbs: seq<Keyboard>, wakes: seq<Wake>): Run
    requires Fits(wakes, |kbs|)
    decreases |wakes|
  {
    if wakes == [] then Run(Blocked, 0, kbs, [])
    else
      match wakes[0]
      case PollReady(evs) =>
        var d := Dispatch(kbs, evs);
        if d.lost then Run(Returned(-2), 1, d.kbs, d.published)
        else Shift(1, d.published, Stream(d.kbs, wakes[1..]))
      case _ => Shift(1, [], Stream(kbs, wakes[1..]))
  }

  /** After a clean ready wake `poll_kbs` polls on from the next wake. */
  lemma {:induction false} PollRunAfterCleanWake(kbs: seq<Keyboard>, wakes: seq<Wake>)
    requires Fits(wakes, |kbs|) && wakes != [] && wakes[0].PollReady?
    requires !Dispatch(kbs, wakes[0].events).lost
    ensures var d := Dispatch(kbs, wakes[0].events);
      PollRun(kbs, wakes) == Shift(1, d.published, PollRun(d.kbs, wakes[1..]))
  {
  }

  lemma {:induction false} ShiftShift(u: nat, p: seq<string>, v: nat, q: seq<string>, r: Run)
    ensures Shift(u, p, Shift(v, q, r)) == Shift(u + v, p + q, r)
  {
    assert p + (q + r.published) == (p + q) + r.published;
  }

  /** A suffix of a script fits whenever the script does. */
  lemma {:induction false} FitsSuffix(wakes: seq<Wake>, n: nat, k: nat)
    requires Fits(wakes, n) && k <= |wakes|
    ensures Fits(wakes[k..], n)
  {
    forall j | 0 <= j < |wakes[k..]| && wakes[k..][j].PollReady?
      ensures |wakes[k..][j].events| == n
    {
      assert wakes[k..][j] == wakes[k + j];
    }
  }

  /** A `poll_kbs` call inside the polling phase that returned -2 or
      blocked after `u` wakes ends the phase there. */
  lemma {:induction false} PollPhaseEnds(start: seq<Keyboard>, wakes: seq<Wake>, used: nat, published: seq<string>,
                                         cur: seq<Keyboard>, s: PollStatus, u: nat, after: seq<Keyboard>, p: seq<string>)
    requires used <= |wakes| && Fits(wakes, |start|) && Fits(wakes[used..], |cur|)
    requires PollPhase(start, wakes) == Shift(used, published, PollPhase(cur, wakes[used..]))
    requires PollRun(cur, wakes[used..]) == Run(s, u, after, p)
    requires s == Blocked || s == Returned(-2)
    ensures PollPhase(start, wakes) == Run(s, used + u, after, published + p)
  {
    ShiftShift(used, published, u, p, Run(s, u, after, p));
  }

  /** A `poll_kbs` call inside the polling phase that returned any other
      code after `u` wakes hands the rest of the script to the next call. */
  lemma {:induction false} PollPhaseContinues(start: seq<Keyboard>, wakes: seq<Wake>, used: nat, published: seq<string>,
                                              cur: seq<Keyboard>, s: PollStatus, u: nat, after: seq<Keyboard>, p: seq<string>)
    requires used <= |wakes| && |cur| == |start| && Fits(wakes, |start|) && Fits(wakes[used..], |cur|)
    requires PollPhase(start, wakes) == Shift(used, published, PollPhase(cur, wakes[used..]))
    requires PollRun(cur, wakes[used..]) == Run(s, u, after, p)
    requires s != Blocked && s != Returned(-2)
    ensures 1 <= u && used + u <= |wakes| && |after| == |start|
    ensures Fits(wakes[used + u..], |after|)
    ensures PollPhase(start, wakes) == Shift(used + u, published + p, PollPhase(after, wakes[used + u..]))
  {
    assert wakes[used..][u..] == wakes[used + u..];
    FitsSuffix(wakes, |start|, used + u);
    ShiftShift(used, published, u, p, PollPhase(after, wakes[used + u..]));
  }

  /** When `poll_kbs`'s run over a script is one wake followed by its run
      over the rest, so is the polling phase's. */
  lemma {:induction false} PollPhaseShiftOne(kbs: seq<Keyboard>, wakes: seq<Wake>, p: seq<string>, next: seq<Keyboard>)
    requires Fits(wakes, |kbs|) && wakes != [] && Fits(wakes[1..], |next|)
    requires PollRun(kbs, wakes) == Shift(1, p, PollRun(next, wakes[1..]))
    ensures PollPhase(kbs, wakes) == Shift(1, p, PollPhase(next, wakes[1..]))
  {
    var rest := wakes[1..];
    var r' := PollRun(next, rest);
    if r'.status.Returned? && r'.status.code != -2 {
      assert rest[r'.used..] == wakes[1 + r'.used..];
      ShiftShift(1, p, r'.used, r'.published, PollPhase(r'.kbs, rest[r'.used..]));
    }
  }

  /** After a clean ready wake the phase continues as from the next wake. */
  lemma {:induction false} PollPhaseAfterCleanWake(kbs: seq<Keyboard>, wakes: seq<Wake>)
    requires Fits(wakes, |kbs|) && wakes != [] && wakes[0].PollReady?
    requires !Dispatch(kbs, wakes[0].events).lost
    ensures var d := Dispatch(kbs, wakes[0].events);
      PollPhase(kbs, wakes) == Shift(1, d.published, PollPhase(d.kbs, wakes[1..]))
  {
    var d := Dispatch(kbs, wakes[0].events);
    PollRunAfterCleanWake(kbs, wakes);
    FitsSuffix(wakes, |kbs|, 1);
    PollPhaseShiftOne(kbs, wakes, d.published, d.kbs);
  }

  /** Re-entering `poll_kbs` after timeouts and failed polls is the same as
      ignoring those wakes: the phase is the reference stream. */
  lemma {:induction false} PollPhaseIsStream(kbs: seq<Keyboard>, wakes: seq<Wake>)
    requires Fits(wakes, |kbs|)
    ensures PollPhase(kbs, wakes) == Stream(kbs, wakes)
    decreases |wakes|
  {
    if wakes != [] {
      match wakes[0]
      case PollReady(evs) =>
        var d := Dispatch(kbs, evs);
        if !d.lost {
          PollPhaseAfterCleanWake(kbs, wakes);
          PollPhaseIsStream(d.kbs, wakes[1..]);
        }
      case _ =>
        PollPhaseIsStream(kbs, wakes[1..]);
    }
  }

  /** `struct pollfd` as `main` fills it (`revents` comes with each wake). */
  datatype PollFd = PollFd(fd: int, events: bv16)

  /** The discovery and polling cycle's result: slept after finding nothing,
      or the polling phase's run. */
  datatype CycleOutcome = Slept(seconds: nat) | Polled(run: Run)

  function CycleResult(dir: Option<seq<string>>, device: string -> ProbeIo, wakes: seq<Wake>): CycleOutcome
    requires Fits(wakes, |Discover(dir, device)|)
  {
    var registry := Discover(dir, device);
    if registry == [] then Slept(Timeout) else Polled(PollPhase(registry, wakes))
  }

  /** `fds[i]` polls the descriptor of registry entry `i` for input. */
  predicate Mirrors(registry: seq<Keyboard>, polled: seq<PollFd>) {
    |polled| == |registry| && forall i :: 0 <= i < |registry| ==> polled[i] == PollFd(registry[i].fd, POLLIN)
  }

  /** A registry whose entries kept their descriptors is still mirrored. */
  lemma {:induction false} MirrorsKept(before: seq<Keyboard>, after: seq<Keyboard>, polled: seq<PollFd>)
    requires Mirrors(before, polled) && |after| == |before|
    requires forall i :: 0 <= i < |before| ==> after[i].fd == before[i].fd
    ensures Mirrors(after, polled)
  {
  }

  /** The daemon's process-wide state: the registry `kbs` (its length is
      `kbs.len`) and the polling set `fds` (an empty array for NULL). */
  class Daemon {
    var kbs: array<Keyboard>
    var fds: array<PollFd>

    /** The polling set mirrors the registry entry by entry. */
    ghost predicate Mirrored()
      reads this, kbs, fds
    {
      Mirrors(kbs[..], fds[..])
    }

    constructor ()
      ensures kbs.Length == 0 && fds.Length == 0
    {
      kbs := new Keyboard[0];
      fds := new PollFd[0];
    }

    /** `fds[i].fd = kbs.kbs[i].fd; fds[i].events = POLLIN;` for every entry. */
    method BuildPollSet()
      modifies this
      ensures kbs == old(kbs) && fresh(fds)
      ensures Mirrored()
    {
      var registry := kbs;
      var polled := new PollFd[registry.Length];
      for i := 0 to registry.Length
        modifies polled
        invariant forall j :: 0 <= j < i ==> polled[j] == PollFd(registry[j].fd, POLLIN)
      {
        polled[i] := PollFd(registry[i].fd, POLLIN);
      }
      fds := polled;
    }

    /** The scan of one ready wake (the loop with `break` in `poll_kbs`),
        overwriting layers in place. */
    method Scan(evs: seq<EntryEvent>) returns (lost: bool, published: seq<string>)
      requires |evs| == kbs.Length
      modifies kbs
      ensures Dispatch(old(kbs[..]), evs) == Dispatched(lost, kbs[..], published)
    {
      ghost var start := kbs[..];
      ghost var done: seq<Keyboard> := [];
      lost, published := false, [];
      var i := 0;
      while i < kbs.Length
        invariant 0 <= i <= kbs.Length && |done| == i
        invariant kbs[..] == done + start[i..]
        invariant Dispatch(start, evs) == Join(done, published, Dispatch(start[i..], evs[i..]))
      {
        ScanAt(kbs[..], done, start, i);
        var e := evs[i];
        if e.revents & POLLERR != 0 {
          ScanLost(start, evs, i, done, published);
          lost := true;
          break;
        }
        ghost var h := HidResult(0, kbs[i], []);
        var pubs := [];
        if e.revents & POLLIN != 0 {
          h := ReadHid(kbs[i], e.read);
          var code;
          code, pubs := ReadEntry(i, e.read);
          if code == -1 {
            ScanLost(start, evs, i, done, published);
            lost := true;
            break;
          }
        }
        ScanStep(start, evs, i, done, published, h);
        done, published, i := done + [h.kb], published + pubs, i + 1;
      }
      if !lost {
        assert start[i..] == [] && evs[i..] == [];
        assert done + [] == done;
      }
    }

    /** `read_hid(&kbs.kbs[i])`: read one frame from entry `i`'s device and
        update its layer in place. */
    method ReadEntry(i: nat, r: HidRead) returns (code: int, published: seq<string>)
      requires i < kbs.Length
      modifies kbs
      ensures var h := ReadHid(old(kbs[i]), r);
        code == h.code && published == h.published && kbs[..] == old(kbs[..])[i := h.kb]
    {
      var h := ReadHid(kbs[i], r);
      kbs[i] := h.kb;
      code, published := h.code, h.published;
    }

    /** `poll_kbs`: poll until a wake ends the loop. */
    method PollKbs(wakes: seq<Wake>) returns (status: PollStatus, used: nat, published: seq<string>)
      requires Mirrored() && Fits(wakes, kbs.Length)
      modifies kbs
      ensures Mirrored()
      ensures PollRun(old(kbs[..]), wakes) == Run(status, used, kbs[..], published)
    {
      ghost var start := kbs[..];
      var res := 1;
      used, published := 0, [];
      assert wakes[0..] == wakes && published + [] == published;
      while res > 0
        invariant used <= |wakes| && kbs.Length == |start|
        invariant Mirrored()
        invariant res > 0 ==> Fits(wakes[used..], kbs.Length)
        invariant res > 0 ==> PollRun(start, wakes) == Shift(used, published, PollRun(kbs[..], wakes[used..]))
        invariant res <= 0 ==> PollRun(start, wakes) == Run(Returned(res), used, kbs[..], published)
        decreases |wakes| - used
      {
        if used == |wakes| {
          status := Blocked;
          assert wakes[used..] == [];
          return;
        }
        ghost var cur := kbs[..];
        PollRunStep(start, wakes, used, published, cur);
        var w := wakes[used];
        used := used + 1;
        match w {
          case PollTimedOut =>
            res := 0;
          case PollFailed =>
            res := -1;
          case PollReady(evs) =>
            var lost, pubs := Scan(evs);
            MirrorsKept(cur, kbs[..], fds[..]);
            ghost var rest := wakes[used..];
            assert Dispatch(cur, evs) == Dispatched(lost, kbs[..], pubs);
            published := published + pubs;
            res := if lost then -2 else 1;
            assert lost ==> PollRun(start, wakes) == Run(Returned(-2), used, kbs[..], published);
            assert !lost ==> PollRun(start, wakes) == Shift(used, published, PollRun(kbs[..], rest));
        }
      }
      // `res == 1 ? 0 : res` maps nothing here: the loop only ends with res <= 0
      status := Returned(res);
    }

    /** `main`'s polling phase: re-enter `poll_kbs` until it returns -2. */
    method PollUntilLost(wakes: seq<Wake>) returns (status: PollStatus, used: nat, published: seq<string>)
      requires Mirrored() && Fits(wakes, kbs.Length)
      modifies kbs
      ensures Mirrored()
      ensures PollPhase(old(kbs[..]), wakes) == Run(status, used, kbs[..], published)
    {
      ghost var start := kbs[..];
      ghost var now := start;
      used, published := 0, [];
      assert wakes[0..] == wakes;
      while true
        invariant used <= |wakes| && |now| == |start| && now == kbs[..]
        invariant Mirrored()
        invariant Fits(wakes[used..], |now|)
        invariant PollPhase(start, wakes) == Shift(used, published, PollPhase(now, wakes[used..]))
        decreases |wakes| - used
      {
        var s, u, p := PollKbs(wakes[used..]);
        ghost var after := kbs[..];
        if s == Blocked || s == Returned(-2) {
          PollPhaseEnds(start, wakes, used, published, now, s, u, after, p);
          status, used, published := s, used + u, published + p;
          return;
        }
        PollPhaseContinues(start, wakes, used, published, now, s, u, after, p);
        ghost var rest := wakes[used + u..];
        ghost var total := PollPhase(start, wakes);
        assert total == Shift(used + u, published + p, PollPhase(after, rest));
        used, published, now := used + u, published + p, after;
        assert rest == wakes[used..];
      }
    }

    /** One pass of `main`'s loop: drop the polling set, install a fresh
        registry from discovery, sleep if it is empty, otherwise build the
        polling set and poll until a device is lost. */
    method Cycle(dir: Option<seq<string>>, device: string -> ProbeIo, wakes: seq<Wake>) returns (outcome: CycleOutcome)
      requires Fits(wakes, |Discover(dir, device)|)
      modifies this
      ensures fresh(kbs)
      ensures outcome == CycleResult(dir, device, wakes)
      ensures Mirrored()
      ensures outcome.Slept? ==> kbs[..] == [] && fds[..] == []
      ensures outcome.Polled? ==> kbs[..] == outcome.run.kbs
    {
      fds := new PollFd[0];
      kbs := ProbeDevices(dir, device);
      if kbs.Length == 0 {
        outcome := Slept(Timeout);
        return;
      }
      BuildPollSet();
      var status, used, published := PollUntilLost(wakes);
      outcome := Polled(Run(status, used, kbs[..], published));
    }
  }

  /** Polling never changes which devices the registry holds: after a cycle
      every entry is still the discovered device at its index, which passed
      its probe. */
  lemma {:induction false} CycleKeepsProbedDevices(dir: Option<seq<string>>, device: string -> ProbeIo, wakes: seq<Wake>, i: nat)
    requires Fits(wakes, |Discover(dir, device)|)
    requires CycleResult(dir, device, wakes).Polled?
    requires i < |CycleResult(dir, device, wakes).run.kbs|
    ensures var kb := CycleResult(dir, device, wakes).run.kbs[i];
      kb.path.Some? && Passes(kb.path.value, device) &&
      kb.fd == ProbeAt(kb.path.value, device).kb.fd
  {
    var registry := Discover(dir, device);
    DiscoverSound(dir, device, registry[i]);
  }
}
