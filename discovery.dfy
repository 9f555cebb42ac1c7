/** `probe_devices`: collect the `/dev/hidraw*` candidates into a growing
    array of paths, probe each one, and compact the capable ones, in order,
    into a fresh keyboard array. */
module Discovery {
  import opened Frames
  import opened Probe

  /** `strncmp(name, "hidraw", 6) == 0`. */
  predicate IsHidraw(name: string) {
    |name| >= 6 && name[..6] == "hidraw"
  }

  /** `snprintf("%s/%s", HIDRAW_DIR, name)` with HIDRAW_DIR "/dev". */
  function DevPath(name: string): (p: string)
    ensures |p| == |name| + 5 && p[..5] == "/dev/" && p[5..] == name
  {
    "/dev" + "/" + name
  }

  /** The candidate paths for a directory listing, in listing order. */
  function CandidatePaths(names: seq<string>): seq<string>
    decreases |names|
  {
    if names == [] then []
    else
      var last := names[|names| - 1];
      CandidatePaths(names[..|names| - 1]) + (if IsHidraw(last) then [DevPath(last)] else [])
  }

  /** Collection distributes over a split listing, so it keeps listing order. */
  lemma {:induction false} CandidatePathsAppend(a: seq<string>, b: seq<string>)
    ensures CandidatePaths(a + b) == CandidatePaths(a) + CandidatePaths(b)
    decreases |b|
  {
    if b == [] {
      assert a + b == a;
    } else {
      var b' := b[..|b| - 1];
      assert (a + b)[..|a + b| - 1] == a + b';
      assert (a + b)[|a + b| - 1] == b[|b| - 1];
      CandidatePathsAppend(a, b');
    }
  }

  /** A path is collected exactly when some entry named `hidraw...` yields it. */
  lemma {:induction false} CandidatePathsMembers(names: seq<string>, p: string)
    ensures p in CandidatePaths(names) <==>
      exists i :: 0 <= i < |names| && IsHidraw(names[i]) && p == DevPath(names[i])
    decreases |names|
  {
    if names != [] {
      var init := names[..|names| - 1];
      CandidatePathsMembers(init, p);
      if exists i :: 0 <= i < |init| && IsHidraw(init[i]) && p == DevPath(init[i]) {
        var i :| 0 <= i < |init| && IsHidraw(init[i]) && p == DevPath(init[i]);
        assert names[i] == init[i];
      }
    }
  }

  /** The capacity of `device_paths` after `n` insertions starting from `cap`:
      it doubles when an insertion finds it full. */
  function Grown(cap: nat, n: nat): nat
    requires cap > 0
    decreases n - cap
  {
    if n <= cap then cap else Grown(2 * cap, n)
  }

  const InitialCapacity: nat := 20

  function Capacity(n: nat): nat {
    Grown(InitialCapacity, n)
  }

  /** One insertion doubles the capacity exactly when the array was full. */
  lemma {:induction false} GrownStep(cap: nat, n: nat)
    requires cap > 0 && n <= Grown(cap, n)
    ensures Grown(cap, n + 1) == if n == Grown(cap, n) then 2 * Grown(cap, n) else Grown(cap, n)
    decreases n - cap
  {
    if n > cap {
      GrownStep(2 * cap, n);
    } else if n == cap {
      assert Grown(2 * cap, n + 1) == 2 * cap;
    }
  }

  function Pow2(k: nat): nat
  {
    if k == 0 then 1 else 2 * Pow2(k - 1)
  }

  /** How many times the capacity doubled on the way to `n` insertions. */
  function Doublings(cap: nat, n: nat): nat
    requires cap > 0
    decreases n - cap
  {
    if n <= cap then 0 else 1 + Doublings(2 * cap, n)
  }

  /** The capacity is the initial one doubled some number of times, holds
      every path, and is the smallest such: once it has grown it is less than
      twice the count. */
  lemma {:induction false} GrownBounds(cap: nat, n: nat)
    requires cap > 0
    ensures n <= Grown(cap, n)
    ensures Grown(cap, n) == cap * Pow2(Doublings(cap, n))
    ensures Grown(cap, n) == cap || Grown(cap, n) < 2 * n
    decreases n - cap
  {
    if n > cap {
      GrownBounds(2 * cap, n);
      var k := Doublings(2 * cap, n);
      calc {
        Grown(cap, n);
        (2 * cap) * Pow2(k);
        { MulAssoc(2, cap, Pow2(k)); }
        cap * (2 * Pow2(k));
        cap * Pow2(k + 1);
      }
    }
  }

  lemma MulAssoc(a: nat, b: nat, c: nat)
    ensures (a * b) * c == b * (a * c)
  {
  }

  /** `realloc` to twice the size: the old contents are kept. */
  method Grow(paths: array<string>) returns (grown: array<string>)
    ensures fresh(grown)
    ensures grown.Length == 2 * paths.Length
    ensures grown[..paths.Length] == paths[..]
  {
    grown := new string[2 * paths.Length];
    for i := 0 to paths.Length
      invariant grown[..i] == paths[..i]
    {
      grown[i] := paths[i];
    }
  }

  /** The `readdir` loop: the paths of the `hidraw` entries, in order, in an
      array of capacity 20 that doubles whenever it is full. */
  method CollectCandidates(names: seq<string>) returns (paths: array<string>, count: nat)
    ensures fresh(paths)
    ensures count <= paths.Length && paths.Length == Capacity(count)
    ensures paths[..count] == CandidatePaths(names)
  {
    paths := new string[InitialCapacity];
    count := 0;
    var k := 0;
    while k < |names|
      invariant 0 <= k <= |names|
      invariant fresh(paths)
      invariant count <= paths.Length && paths.Length == Capacity(count)
      invariant paths[..count] == CandidatePaths(names[..k])
    {
      var name := names[k];
      assert names[..k + 1][..k] == names[..k];
      if IsHidraw(name) {
        GrownStep(InitialCapacity, count);
        if count == paths.Length {
          paths := Grow(paths);
        }
        paths[count] := DevPath(name);
        count := count + 1;
      }
      k := k + 1;
    }
    assert names[..k] == names;
  }

  /** A `layered[i]` slot before its probe: only the path is set (the other
      fields are uninitialised stack memory, here -1 and 0). */
  function Unprobed(path: string): Keyboard {
    Keyboard(-1, Some(path), 0)
  }

  /** The probe of the node at `p`; `device` says how the node at a path answers. */
  function ProbeAt(p: string, device: string -> ProbeIo): MaybeLkb {
    ProbeDevice(Unprobed(p), device(p)).probed
  }

  /** The probe result for each candidate path. */
  function ProbeAll(paths: seq<string>, device: string -> ProbeIo): (r: seq<MaybeLkb>)
    ensures |r| == |paths|
    ensures forall i :: 0 <= i < |paths| ==> r[i] == ProbeAt(paths[i], device)
  {
    seq(|paths|, i requires 0 <= i < |paths| => ProbeAt(paths[i], device))
  }

  /** The number of capable results (`layerd_devices`). */
  function CountCapable(s: seq<MaybeLkb>): nat
    decreases |s|
  {
    if s == [] then 0 else CountCapable(s[..|s| - 1]) + (if s[|s| - 1].result == 1 then 1 else 0)
  }

  /** The keyboards of the capable results, in order. */
  function CapableOnly(s: seq<MaybeLkb>): seq<Keyboard>
    decreases |s|
  {
    if s == [] then [] else CapableOnly(s[..|s| - 1]) + (if s[|s| - 1].result == 1 then [s[|s| - 1].kb] else [])
  }

  /** The compacted array is exactly as long as the capable count. */
  lemma {:induction false} CapableOnlyLength(s: seq<MaybeLkb>)
    ensures |CapableOnly(s)| == CountCapable(s)
    decreases |s|
  {
    if s != [] {
      CapableOnlyLength(s[..|s| - 1]);
    }
  }

  /** Compaction distributes over a split result array, so it keeps the
      probes' order. */
  lemma {:induction false} CapableOnlyAppend(a: seq<MaybeLkb>, b: seq<MaybeLkb>)
    ensures CapableOnly(a + b) == CapableOnly(a) + CapableOnly(b)
    decreases |b|
  {
    if b == [] {
      assert a + b == a;
    } else {
      var b' := b[..|b| - 1];
      assert (a + b)[..|a + b| - 1] == a + b';
      assert (a + b)[|a + b| - 1] == b[|b| - 1];
      CapableOnlyAppend(a, b');
    }
  }

  /** A keyboard is kept exactly when some capable result carries it. */
  lemma {:induction false} CapableOnlyMembers(s: seq<MaybeLkb>, kb: Keyboard)
    ensures kb in CapableOnly(s) <==> exists i :: 0 <= i < |s| && s[i].result == 1 && s[i].kb == kb
    decreases |s|
  {
    if s != [] {
      var init := s[..|s| - 1];
      CapableOnlyMembers(init, kb);
      if exists i :: 0 <= i < |init| && init[i].result == 1 && init[i].kb == kb {
        var i :| 0 <= i < |init| && init[i].result == 1 && init[i].kb == kb;
        assert s[i] == init[i];
      }
    }
  }

  lemma {:induction false} CountCapablePrefix(s: seq<MaybeLkb>, i: nat)
    requires i <= |s|
    ensures CountCapable(s[..i]) <= CountCapable(s)
    decreases |s|
  {
    if i < |s| {
      var init := s[..|s| - 1];
      CountCapablePrefix(init, i);
      assert init[..i] == s[..i];
    } else {
      assert s[..i] == s;
    }
  }

  /** The fan-in: count the capable results, then copy their keyboards, in
      order, into an array of exactly that length (running index `ri`). */
  method FanIn(layered: array<MaybeLkb>) returns (kbs: array<Keyboard>)
    ensures fresh(kbs)
    ensures kbs[..] == CapableOnly(layered[..])
  {
    var count := 0;
    for i := 0 to layered.Length
      invariant count == CountCapable(layered[..i])
    {
      assert layered[..i + 1][..i] == layered[..i];
      if layered[i].result == 1 {
        count := count + 1;
      }
    }
    assert layered[..layered.Length] == layered[..];
    kbs := new Keyboard[count];
    var ri := 0;
    for i := 0 to layered.Length
      invariant ri == CountCapable(layered[..i]) <= count
      invariant kbs[..ri] == CapableOnly(layered[..i])
    {
      assert layered[..i + 1][..i] == layered[..i];
      CapableOnlyLength(layered[..i]);
      CountCapablePrefix(layered[..], i + 1);
      if layered[i].result == 1 {
        kbs[ri] := layered[i].kb;
        ri := ri + 1;
      }
    }
    assert layered[..layered.Length] == layered[..];
  }

  /** The registry a discovery cycle installs: `dir` is the `/dev` listing,
      `None` when `opendir` fails. */
  function Discover(dir: Option<seq<string>>, device: string -> ProbeIo): seq<Keyboard> {
    match dir
    case None => []
    case Some(names) => CapableOnly(ProbeAll(CandidatePaths(names), device))
  }

  /** Whether the node at `p` passes the probe. */
  predicate Passes(p: string, device: string -> ProbeIo) {
    ProbeAt(p, device).result == 1
  }

  /** Every registry entry is a `/dev/hidraw*` candidate that passed its probe,
      with the descriptor and layer that probe produced. */
  lemma {:induction false} DiscoverSound(dir: Option<seq<string>>, device: string -> ProbeIo, kb: Keyboard)
    requires kb in Discover(dir, device)
    ensures dir.Some? && kb.path.Some?
    ensures kb.path.value in CandidatePaths(dir.value)
    ensures Passes(kb.path.value, device)
    ensures kb == ProbeAt(kb.path.value, device).kb
  {
    var probed := ProbeAll(CandidatePaths(dir.value), device);
    CapableOnlyMembers(probed, kb);
    var i :| 0 <= i < |probed| && probed[i].result == 1 && probed[i].kb == kb;
  }

  /** Every candidate that passes its probe is in the registry. */
  lemma {:induction false} DiscoverComplete(names: seq<string>, device: string -> ProbeIo, p: string)
    requires p in CandidatePaths(names) && Passes(p, device)
    ensures exists kb :: kb in Discover(Some(names), device) && kb.path == Some(p)
  {
    var paths := CandidatePaths(names);
    var probed := ProbeAll(paths, device);
    var i :| 0 <= i < |paths| && paths[i] == p;
    CapableOnlyMembers(probed, probed[i].kb);
  }

  /** Every entry carries a path (what the query server prints). */
  predicate AllNamed(kbs: seq<Keyboard>) {
    forall i :: 0 <= i < |kbs| ==> kbs[i].path.Some?
  }

  /** A discovered registry has a path for every entry. */
  lemma {:induction false} DiscoverNamed(dir: Option<seq<string>>, device: string -> ProbeIo)
    ensures AllNamed(Discover(dir, device))
  {
    var registry := Discover(dir, device);
    forall i | 0 <= i < |registry| ensures registry[i].path.Some? {
      DiscoverSound(dir, device, registry[i]);
    }
  }

  /** The registry holds exactly as many keyboards as probes returned 1. */
  lemma {:induction false} DiscoverCount(names: seq<string>, device: string -> ProbeIo)
    ensures |Discover(Some(names), device)| == CountCapable(ProbeAll(CandidatePaths(names), device))
  {
    CapableOnlyLength(ProbeAll(CandidatePaths(names), device));
  }

  /** No two entries share a path. */
  predicate DistinctPaths(kbs: seq<Keyboard>) {
    forall i, j :: 0 <= i < j < |kbs| ==> kbs[i].path != kbs[j].path
  }

  predicate DistinctNames(names: seq<string>) {
    forall i, j :: 0 <= i < j < |names| ==> names[i] != names[j]
  }

  /** Distinct directory entries give distinct candidate paths. */
  lemma {:induction false} CandidatePathsDistinct(names: seq<string>)
    requires DistinctNames(names)
    ensures DistinctNames(CandidatePaths(names))
    decreases |names|
  {
    if names != [] {
      var init := names[..|names| - 1];
      var last := names[|names| - 1];
      CandidatePathsDistinct(init);
      if IsHidraw(last) {
        var before := CandidatePaths(init);
        forall i | 0 <= i < |before| ensures before[i] != DevPath(last) {
          var p := before[i];
          CandidatePathsMembers(init, p);
          var k :| 0 <= k < |init| && IsHidraw(init[k]) && p == DevPath(init[k]);
          assert names[k] == init[k] && init[k] != last;
          assert DevPath(init[k])[5..] == init[k] && DevPath(last)[5..] == last;
        }
        assert CandidatePaths(names) == before + [DevPath(last)];
      }
    }
  }

  /** Compaction keeps distinct paths distinct. */
  lemma {:induction false} CapableOnlyDistinct(s: seq<MaybeLkb>)
    requires forall i, j :: 0 <= i < j < |s| ==> s[i].kb.path != s[j].kb.path
    ensures DistinctPaths(CapableOnly(s))
    decreases |s|
  {
    if s != [] {
      var init := s[..|s| - 1];
      CapableOnlyDistinct(init);
      var last := s[|s| - 1];
      if last.result == 1 {
        var kept := CapableOnly(init);
        forall i | 0 <= i < |kept| ensures kept[i].path != last.kb.path {
          CapableOnlyMembers(init, kept[i]);
          var k :| 0 <= k < |init| && init[k].result == 1 && init[k].kb == kept[i];
          assert s[k] == init[k];
        }
      }
    }
  }

  /** Distinct directory entries give a registry in which no two entries
      share a path. */
  lemma {:induction false} DiscoverDistinct(names: seq<string>, device: string -> ProbeIo)
    requires DistinctNames(names)
    ensures DistinctPaths(Discover(Some(names), device))
  {
    var paths := CandidatePaths(names);
    CandidatePathsDistinct(names);
    var probed := ProbeAll(paths, device);
    forall i, j | 0 <= i < j < |probed| ensures probed[i].kb.path != probed[j].kb.path {
      assert probed[i].kb.path == Some(paths[i]) && probed[j].kb.path == Some(paths[j]);
    }
    CapableOnlyDistinct(probed);
  }

  /** `probe_devices`: an unreadable `/dev` gives an empty registry; otherwise
      every candidate is probed (the source runs the probes on parallel
      threads; they share nothing, so their order does not matter) and the
      capable ones are compacted in order. */
  method ProbeDevices(dir: Option<seq<string>>, device: string -> ProbeIo) returns (kbs: array<Keyboard>)
    ensures fresh(kbs)
    ensures kbs[..] == Discover(dir, device)
  {
    if dir.None? {
      kbs := new Keyboard[0];
      assert kbs[..] == [];
      return;
    }
    var paths, devices := CollectCandidates(dir.value);
    ghost var probes := ProbeAll(paths[..devices], device);
    var layered := new MaybeLkb[devices];
    for i := 0 to devices
      modifies layered
      invariant layered[..i] == probes[..i]
    {
      assert paths[i] == paths[..devices][i];
      layered[i] := ProbeAt(paths[i], device);
      assert layered[..i + 1] == layered[..i] + [probes[i]];
    }
    assert layered[..] == layered[..devices];
    kbs := FanIn(layered);
    assert layered[..] == ProbeAll(CandidatePaths(dir.value), device);
  }
}
