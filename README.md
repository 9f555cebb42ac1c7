# lkbd core in Dafny

A model of the decision rules inside `lkbd`, the daemon in `lkb/daemon.c`. The daemon
finds QMK keyboards behind Linux `hidraw` nodes that report their active layer,
keeps a registry of them with each one's last layer, announces layer changes
as the D-Bus payload `L: <layer>`, and answers queries on a Unix socket at
`<XDG_RUNTIME_DIR>/lkbd.sock` with a `device\tlayer` table.

Every system call is replaced by the outcome it had: a datatype of
success, failure, timeout, or the bytes delivered. A `poll` loop is driven by
a script of wakes. A C string is a Dafny `string` with one `char` per byte,
so every length the model states about text (the 16-byte payload buffer, the
1024-byte answer buffer, the 255-byte `NAME_MAX` of a directory entry, the
socket-path buffer) is a count of bytes. The model is:

- `frames.dfy` (`Frames`): bytes, the 32-byte frame, the `'L'` marker, the
  probe request frame, and what a `read` leaves in a buffer.
- `numerals.dfy` (`Numerals`): `%u` decimal rendering, its parser, and the
  round trip and digit-count bounds between them.
- `text.dfy` (`Text`): the layer text, the D-Bus payload, the response header
  and rows, the socket path, and the signed-`char` misprint.
- `probe.dfy` (`Probe`): `probe_device` as a function of its calls' outcomes.
- `discovery.dfy` (`Discovery`): `probe_devices`. This covers the `readdir`
  loop into a path array that starts at 20 and doubles when full, the probe
  of every candidate, and the in-order compaction of the capable ones into a
  fresh array. It is a specification `Discover` plus the methods that
  implement it over arrays.
- `poll.dfy` (`Poll`): `read_hid`, the scan of one `poll` wake, `poll_kbs`,
  and `main`'s cycle. The cycle is discovery, then sleeping on an empty
  registry, or building the polling set and re-entering `poll_kbs` until
  it returns -2. Class `Daemon` holds the registry array `kbs`, which the
  scan updates in place, and the polling set `fds`.
- `query.dfy` (`Query`): the body of `unix_socket`, which is one wake of the
  listener and the answer to one client. Class `QueryServer` holds the
  32-byte request buffer, which persists between clients.

The layer is an unsigned byte, and the model prints its unsigned value.
On a platform where `char` is signed, the source prints layers of 128 and
above differently; see "Findings". Layers below 128 print the same either
way (`Text.PayloadAsWritten`).

After a device is lost, `main` frees the entries and the entry array but
leaves `kbs.len` unchanged (lkb/daemon.c:432-439), so the registry is not
emptied until the next discovery replaces it.
`Poll.Daemon.Cycle` ends with the registry the polling phase left; the
release step is not modelled (see "Left out").

## Model

| member | source | states |
|---|---|---|
| Frames.RequestFrame | lkb/daemon.c:102-103 | the probe request is the marker `'L'` followed by 31 zero bytes |
| Frames.ReadCount | lkb/daemon.c:133 | a read returns -1 exactly on failure, otherwise the number of bytes copied, at most 32 and at most what the device delivered |
| Frames.Overlay | lkb/daemon.c:133 | after a read, byte `i` of the buffer is the `i`-th delivered byte if there is one, else its old value; an empty read leaves the buffer unchanged |
| Numerals.Decimal | lkb/daemon.c:71 | `%u` text is non-empty, all digits, and has no leading zero unless the value is 0 |
| Numerals.ParseDecimalOfDecimal | lkb/daemon.c:71 | reading the `%u` text of `n` as a decimal gives back `n` |
| Numerals.DecimalInjective | lkb/daemon.c:71 | distinct values print differently |
| Numerals.DecimalLength | lkb/daemon.c:71 | a value below 10^k prints in at most k digits |
| Numerals.DecimalLengthU32 | lkb/daemon.c:71 | a 32-bit unsigned value prints in at most 10 digits |
| Numerals.DecimalLengthByte | lkb/daemon.c:71 | a byte prints in at most 3 digits |
| Text.PrintedValueAsWritten | lkb/daemon.c:68-71 | the value `%u` reads from a plain `char` layer: the layer itself when `char` is unsigned or the layer is below 128, otherwise a value of at least 0xFFFFFF80, always below 2^32 |
| Text.LayerTextAsWritten | lkb/daemon.c:68-71 | the layer text as the source prints it is 1 to 10 digits |
| Text.SignedCharMisprintsLayer | lkb/daemon.c:68-71 | with a signed `char`, every layer of 128 or more prints as that byte plus 4294967040, never as the layer itself |
| Text.LayerText | lkb/daemon.c:333-334 | the intended layer text is 1 to 3 digits and reads back as the layer |
| Text.Payload | lkb/daemon.c:68-71 | the D-Bus payload is `L: ` then the layer text, reads back as the layer, and fits the 16-byte buffer with its NUL |
| Text.PayloadAsWritten | lkb/daemon.c:68-71 | the payload as written also fits 16 bytes and starts `L: `; for an unsigned `char`, or a layer below 128, it is the intended payload |
| Text.Row | lkb/daemon.c:333-334 | a response row is the path, a tab, the layer text and a newline, and its layer field reads back as the layer |
| Text.RowFitsAnswerBuffer | lkb/daemon.c:331-334 | a row for `/dev/` plus a directory entry name (at most 255 bytes) fits the 1024-byte answer buffer with its NUL |
| Text.RowAsWrittenFitsAnswerBuffer | lkb/daemon.c:331-334 | the row as the source prints it, with a layer of up to ten digits, takes at most 273 bytes with its NUL, so `snprintf` never truncates it |
| Text.SocketPath | lkb/daemon.c:381-390 | no path exactly when `XDG_RUNTIME_DIR` is unset; otherwise the path is the directory followed by `/lkbd.sock`, and with its NUL it exactly fills the buffer `main` sizes for it |
| Probe.ProbeDevice | lkb/daemon.c:99-144 | a NULL path gives -2 and nothing is opened; an open, write or select failure gives -1; the result is 1 exactly when every call succeeds and the answer has at least two bytes, starting `'L', 1`; a timeout, a failed or short read, or any other answer gives 0; the path is kept and fd is what open returned; the request frame is written exactly once, to every node that opened; a capable probe takes its layer from byte 31 of the buffer (0 after a short answer) and publishes its payload; nothing else changes |
| Discovery.DevPath | lkb/daemon.c:181-185 | a candidate path is `/dev/` followed by the entry name |
| Discovery.CandidatePathsAppend | lkb/daemon.c:174-188 | collecting from a split listing is collecting from each part, in order, so listing order is kept |
| Discovery.CandidatePathsMembers | lkb/daemon.c:175-186 | a path is collected exactly when some entry whose name starts with `hidraw` yields it |
| Discovery.CandidatePathsDistinct | lkb/daemon.c:174-188 | distinct entry names give distinct candidate paths |
| Discovery.GrownStep | lkb/daemon.c:176-179 | an insertion doubles the capacity exactly when the array is full |
| Discovery.GrownBounds | lkb/daemon.c:163-179 | the capacity always holds the count, is the initial capacity times a power of two, and once it has grown is less than twice the count |
| Discovery.Grow | lkb/daemon.c:176-179 | the grown array is fresh, twice as long, and keeps the old paths |
| Discovery.CollectCandidates | lkb/daemon.c:160-188 | the array is fresh, its capacity is the doubling capacity for the count, and its first `count` slots are exactly the `hidraw` candidate paths in listing order |
| Discovery.ProbeAll | lkb/daemon.c:193-200 | every candidate is probed once, in its own slot, with only its path set |
| Discovery.CapableOnlyLength | lkb/daemon.c:199-213 | the compacted registry is exactly as long as the count of results equal to 1 |
| Discovery.CapableOnlyAppend | lkb/daemon.c:211-220 | compacting a split result array is compacting each part, in order, so the registry keeps the probes' order |
| Discovery.CapableOnlyMembers | lkb/daemon.c:214-220 | a keyboard is in the compacted registry exactly when some result equal to 1 carries it |
| Discovery.CountCapablePrefix | lkb/daemon.c:211-219 | the running index `ri` never passes the capable count |
| Discovery.CapableOnlyDistinct | lkb/daemon.c:214-220 | compaction keeps distinct paths distinct |
| Discovery.FanIn | lkb/daemon.c:199-220 | the result array is fresh and holds exactly the capable probes' keyboards (fd, path, layer), in their original order |
| Discovery.DiscoverSound | lkb/daemon.c:159-222 | every registry entry is a `/dev/hidraw*` candidate that passed its probe, with exactly the fd, path and layer its probe produced |
| Discovery.DiscoverComplete | lkb/daemon.c:159-222 | every candidate that passes its probe is in the registry |
| Discovery.DiscoverNamed | lkb/daemon.c:214-216 | every registry entry has a path |
| Discovery.DiscoverCount | lkb/daemon.c:199-213 | the registry length is the number of probes that returned 1 |
| Discovery.DiscoverDistinct | lkb/daemon.c:174-220 | distinct directory entries give a registry in which no two entries share a path |
| Discovery.ProbeDevices | lkb/daemon.c:159-222 | the returned array is fresh and is exactly the discovered registry; it is empty when `/dev` cannot be opened |
| Poll.ReadHid | lkb/daemon.c:225-241 | a failed read gives -1 and changes nothing; a frame starting `'L'` gives 1, sets the layer to byte 31 and publishes its payload; any other frame gives 0 and changes nothing; fd and path never change |
| Poll.Daemon.ReadEntry | lkb/daemon.c:367 | `read_hid(&kbs.kbs[i])` returns the code and payloads of `ReadHid` and replaces entry `i` with its result, leaving the other entries alone |
| Poll.Dispatch | lkb/daemon.c:358-372 | the scan of one wake keeps the registry's length and every entry's fd and path |
| Poll.DispatchLostIff | lkb/daemon.c:362-371 | a scan is lost exactly when some entry has POLLERR, or has POLLIN and a failed read |
| Poll.DispatchStopsAtFatal | lkb/daemon.c:362-371 | a fatal event at entry `i` leaves entry `i` and every later entry unchanged |
| Poll.DispatchUpdates | lkb/daemon.c:358-372 | an entry reached with no fatal event up to and including its own gets byte 31 as its layer if it had POLLIN, no POLLERR and its frame starts `'L'`, and is otherwise unchanged |
| Poll.DispatchPublishes | lkb/daemon.c:358-372 | a scan that is not lost publishes one payload per entry whose POLLIN read returned an `'L'` frame, in index order |
| Poll.DispatchPublishesUntilFatal | lkb/daemon.c:358-372 | a lost scan has published one payload per `'L'` frame read before the first fatal entry, in index order |
| Poll.ScanLost | lkb/daemon.c:362-371 | a fatal event, reached after the earlier entries were handled, ends the scan as lost with the rest of the registry untouched |
| Poll.ScanStep | lkb/daemon.c:362-371 | a non-fatal event moves its entry, as the read left it, into the handled prefix |
| Poll.Daemon.Scan | lkb/daemon.c:358-373 | the in-place scan leaves `kbs` as `Dispatch` of the old registry and returns its lost flag and payloads |
| Poll.PollRun | lkb/daemon.c:349-377 | `poll_kbs` uses at most the wakes it is given, returns only after at least one, and keeps the registry's length, fds and paths |
| Poll.PollRunStep | lkb/daemon.c:352-375 | one turn of the loop: a timeout returns 0, a failed poll -1, a lost scan -2, and a clean scan polls again from the next wake |
| Poll.PollRunOutcome | lkb/daemon.c:352-376 | `poll_kbs` returns only 0 after a timeout, -1 after a failed poll and -2 after a wake with a fatal event, and every wake before that one was ready |
| Poll.PollRunBlocksOnlyWhenReady | lkb/daemon.c:352-376 | `poll_kbs` blocks only after it has used every wake and all of them were ready; when every wake is ready it can only block or return -2 |
| Poll.PollPhase | lkb/daemon.c:428-430 | the polling phase ends only with -2, or blocks in `poll`, and keeps every entry's fd and path |
| Poll.PollPhaseAfterCleanWake | lkb/daemon.c:428-430 | after a clean ready wake, the polling phase goes on from the next wake |
| Poll.PollPhaseIsStream | lkb/daemon.c:428-430 | re-entering `poll_kbs` until -2 is the same as skipping timeouts and failed polls and scanning ready wakes until the first lost one |
| Poll.Daemon.constructor | lkb/daemon.c:392 | the daemon starts with an empty registry (the zero-initialised global at line 267) and an empty polling set |
| Poll.Daemon.BuildPollSet | lkb/daemon.c:423-427 | the polling set is a fresh array mirroring the registry: `fds[i]` polls entry `i`'s fd for POLLIN |
| Poll.Daemon.PollKbs | lkb/daemon.c:349-377 | the loop's status, wakes used, payloads and final registry are exactly `PollRun` of the old registry, and the polling set still mirrors it |
| Poll.Daemon.PollUntilLost | lkb/daemon.c:428-430 | re-entering `poll_kbs` until it returns -2 yields exactly `PollPhase` of the old registry, and the polling set still mirrors it |
| Poll.Daemon.Cycle | lkb/daemon.c:410-431 | one pass of `main`'s loop installs a fresh registry from discovery and the polling set always mirrors it; an empty registry sleeps for 30 seconds with an empty polling set (`fds` stays NULL); otherwise polling runs until -2 |
| Poll.CycleKeepsProbedDevices | lkb/daemon.c:416-430 | polling never changes which devices the registry holds: each entry keeps the path and fd of the device that passed its probe |
| Query.Rows | lkb/daemon.c:332-338 | one row per registry entry, in registry order, each the entry's path and layer |
| Query.Reply | lkb/daemon.c:326-341 | nothing is written unless byte 0 of the request is `'L'`; the header comes first; a failed header write stops the answer; otherwise every row follows, whichever row writes fail |
| Query.ParseRowOfRow | lkb/daemon.c:333-334 | a row reads back as its path and layer, for any path without a tab |
| Query.ReplyReadsBack | lkb/daemon.c:326-341 | a complete answer has one line per entry after the header, and line `1 + i` reads back as entry `i`'s path and layer |
| Query.QueryServer.constructor | lkb/daemon.c:283 | the request buffer starts as 32 zero bytes |
| Query.QueryServer.HandleClient | lkb/daemon.c:320-342 | a failed read answers nothing and keeps the buffer; otherwise the delivered bytes overwrite the start of the buffer and the writes issued are `Reply` of the buffer |
| Query.QueryServer.ServeWake | lkb/daemon.c:299-344 | the server exits exactly when `poll` fails or re-creating the listener after POLLERR fails, and otherwise continues; POLLERR re-creates the listener; POLLIN with an accepted client answers that client; a failed accept or failed read answers nothing and keeps the buffer |
| Query.StaleRequestIsAnswered | lkb/daemon.c:320-326 | the buffer is not cleared between clients, so after an `'L'` request a client whose read delivers no bytes still gets the whole table |

## Left out

- Threads: probes run on one thread each, and a reader/writer lock is shared with the query thread. The model is sequential and the registry has a single owner. The race in which the query thread reads entries that `main` is freeing (lkb/daemon.c:432-439, outside the lock) is not modelled.
- Discovery.ProbeDevices: does not collect the payloads the probe threads publish. Their order depends on thread scheduling. Each probe's payload is stated by `Probe.ProbeDevice`.
- Signals, `setjmp`/`longjmp` and the shutdown path of `main` (lkb/daemon.c:396-408, 442-454): non-local control flow tied to process signals.
- D-Bus: connecting, building and sending the signal (lkb/daemon.c:35-97) are foreign library calls. A payload counts as published when it is formatted, whether or not a connection exists.
- System calls are parameters. `opendir`/`readdir` are an optional listing. `open`, `write`, `select` and `read` are `ProbeIo`. Each `poll` return is a `Wake`. The listener is a `ListenWake`. `sleep` is the `Slept(30)` outcome. When a wake script ends, polling is `Blocked` (the next `poll` never returns).
- Poll.ReadHid: takes the whole 32-byte buffer after the read as given. The source reads into an uninitialised buffer and uses byte 31 even after a short read, so those bytes cannot be derived.
- Freeing memory and closing descriptors: these include `close` on an uninitialised fd for probes that returned -2, the release of the registry after a lost device, and the final cleanup.
- Query.QueryServer.ServeWake: models `listen_socket` only by whether `socket()` succeeded (`relisten`). After a failed `bind` or `listen`, the source returns the closed descriptor rather than -1, and the server keeps polling it. `strncpy` silently truncates a path longer than `sun_path` (lkb/daemon.c:251). Neither is modelled.
- `poll` takes its timeout in milliseconds (`timeout * 1000`); the model keeps the timeout as 30 seconds and treats a timeout as an outcome.
- Console and error logging (`printf`, `perror`) are outside the model.

## Findings

| source | as written | input that shows it | evidently intended | confidence | as-written member | corrected member |
|---|---|---|---|---|---|---|
| lkb/daemon.c:68-71 | `layer` is a plain `char` (line 27) printed with `%u` here and at lines 234 and 333-334. Where `char` is signed, a layer byte of 128 or more is promoted to a negative `int` and printed as a 32-bit unsigned | layer byte 200 on a signed-`char` platform prints `4294967240`, in the D-Bus payload and in the query row | print the byte's unsigned value (`200`) | not executed | Text.LayerTextAsWritten, Text.SignedCharMisprintsLayer | Text.LayerText |
