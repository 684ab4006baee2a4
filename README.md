# GPS_Poller protocol engine, modelled in Dafny

The project models the `GPS_Poller` class, the firmware that polls a GPS module
over I2C on a Pycom board. It covers the two versions of that class:
`lib/gps_poller.py` and the older `main.py`.

The engine is sequential and runs one bus read at a time. Each read goes
through these steps:

- Leading and trailing `\n` are stripped from the read.
- The read is counted and its size is tracked.
- A short read gives the outbound command queue a chance to send.
- The read is appended to a byte buffer.
- Every complete sentence is cut off the front of the buffer. A sentence ends
  at `\r`, and `\r\n` counts as one terminator.

Each sentence then goes through `parse_pkt`:

1. The NMEA 0183 checksum gate: the XOR of the body (without its leading `$`)
   must equal the hex number after the `*`.
2. The acknowledgement check of the command queue.
3. A family handler for RMC, GLL and ZDA. These drive the fix state machine
   (`set_fix` and `clear_fix`) and the clock-sync guard chain
   (`set_gps_time`).
4. The sentence is stored verbatim in the `state` dictionary under its storage
   key.

Errors go through `errlog`, which keeps `last_<kind>` and `errcnt_<kind>`
entries. The outbound queue keeps at most one command in flight. It writes each
command with its checksum, waits for a prefix ack (by default `$PMTK001,<type>,3`),
and resends the head once the deadline has passed.

The project has these modules:

- **Wrappers, PyText** (`pytext.dfy`): `Option`, and the Python built-ins the
  engine relies on. These are `find`, `split`, clamped slicing,
  `lstrip`/`rstrip` of `\n`, `startswith` and ASCII decoding.
- **Numbers** (`numbers.dfy`): MicroPython's `int(s)` and `int(s, 16)`, and
  the `"%02X"` format.
- **Octets, Nmea** (`nmea.dfy`): the XOR checksum, the receive gate, the wire
  form of a command, and the storage key.
- **Framing** (`framing.dfy`): the cut at `\r` or `\r\n`, and the sentences a
  buffer yields.
- **Engine** (`engine.dfy`): the poller's state as a record, and one pure
  transition function per source method. A `Variant` (`Library` or
  `MainScript`) selects the file where the two differ.
- **EngineFacts** (`facts.dfy`): the properties of those transitions.
- **Poller** (`poller.dfy`): class `GpsPoller`. Its fields are the dictionary,
  the queue, the command in flight and its deadline, and the read counter.
  Its methods update them in place, statement by statement as the source
  does. Each method is proved to leave the object in the state that the
  Engine function named in the table below computes, and to keep the
  invariant.
  The properties in EngineFacts therefore hold of the object.

A few inputs become parameters:

- Time comes in as an `Env`, which carries `now` (for `time.time()`).
- The clock drift `abs(time.mktime(t) - time.time())` comes in as a function
  of the candidate time. Its result is optional: `None` stands for the
  exception that computation raises (`int()` of a non-finite seconds value,
  or a year `mktime` cannot represent).
- Whether `float()` accepts a text comes in as a predicate.

Bus writes and RTC settings are kept as logs that grow by one entry each time.

## Model

| member | source | states |
|---|---|---|
| PyText.Find | lib/gps_poller.py:143 | `find` returns -1 exactly when the element is absent; otherwise it returns an index holding the element, with no occurrence before it |
| PyText.Split | lib/gps_poller.py:173 | `split` gives at least one part; no part contains the separator; the first part is the text before the first separator; without a separator the result is the whole string |
| PyText.SplitJoin | lib/gps_poller.py:173 | joining the parts of `split` with the separator rebuilds the string exactly, so splitting loses and invents nothing |
| PyText.Decode | lib/gps_poller.py:149 | ASCII decoding keeps the length and maps each byte to the character with that code |
| PyText.LStripLf | lib/gps_poller.py:119 | `lstrip(b"\n")` keeps a suffix of the read; every byte it drops is `\n`, and what it keeps does not start with `\n` |
| PyText.RStripLf | lib/gps_poller.py:119 | `rstrip(b"\n")` keeps a prefix; every byte it drops is `\n`, and what it keeps does not end with `\n` |
| PyText.StripLf | lib/gps_poller.py:119 | stripping an ASCII read leaves ASCII bytes |
| PyText.Slice | lib/gps_poller.py:312-314 | Python slicing with in-range bounds is the subsequence; an end past the length clamps to the tail from the start; the result is empty exactly when the start is at or past the end or the length; it is never longer than the input |
| PyText.Drop | lib/gps_poller.py:314 | `s[i:]` is the tail from `i`, or empty when `i` is past the end |
| Numbers.TrimSpace | lib/gps_poller.py:174 | the result is no longer than the input and neither starts nor ends with white space |
| Numbers.TrimSpaceInfix | lib/gps_poller.py:174 | the result is an infix `s[a..b]` of the input, and everything before `a` and from `b` on is white space: only the white space `int()` skips is removed, from both ends |
| Numbers.Hex2 | lib/gps_poller.py:393 | `"%02X"` of a byte gives exactly two upper-case hex digits |
| Numbers.HexRoundTrip | lib/gps_poller.py:393 | what `"%02X"` writes, `int(…, 16)` reads back as the same number |
| Numbers.ParseIntDigits | lib/gps_poller.py:312-314 | `int()` of plain decimal digits is their value |
| Numbers.TwoDigitsBelow100 | lib/gps_poller.py:314-316 | a two-digit year is below 100, so the RMC year pivot always applies to it |
| Nmea.ComputeXor | lib/gps_poller.py:182-185 | the accumulator loop ends holding the XOR of the ordinals of the whole text |
| Nmea.XorAppend | lib/gps_poller.py:182-185 | the checksum of a concatenation is the XOR of the two checksums |
| Nmea.XorDetectsCorruption | lib/gps_poller.py:182-185 | replacing any one character of a text by a different ASCII character changes its XOR |
| Nmea.GateDetectsCorruption | lib/gps_poller.py:179-189 | a checksum-valid sentence with one body character after the first replaced by a different ASCII character other than `*` fails the checksum at the gate (`chkerr`); the first character is excluded because turning it into or out of `$` moves it into or out of the checksum |
| Nmea.Gate | lib/gps_poller.py:169-170 | the gate reports "no `*`" exactly when the sentence has no `*` |
| Nmea.GateValidIff | lib/gps_poller.py:169-189 | a sentence passes the gate if and only if it is a non-empty body, exactly one `*`, and a hex suffix equal to the XOR of the body without its leading `$` |
| Nmea.WellFormedPasses | lib/gps_poller.py:169-189 | a well-formed sentence passes the gate (one direction of the equivalence) |
| Nmea.GateValidShape | lib/gps_poller.py:169-189 | a sentence that passes has its one `*` right after the first split part, with a matching checksum (the other direction) |
| Nmea.SplitErrorGate | lib/gps_poller.py:172-177 | a sentence with a `*` that does not split into two parts, or whose suffix is no hex number, is a split error |
| Nmea.EmptyBodyGate | lib/gps_poller.py:179-180 | nothing before the only `*` and a hex suffix: the sentence is dropped as an empty body |
| Nmea.Wire | lib/gps_poller.py:389-393 | the written form of a command is ASCII and exactly five characters longer (`*`, two hex digits, `\r\n`) |
| Nmea.WireOf | lib/gps_poller.py:389-393 | the checksum loop over `cmd[1:]` followed by the append produces the wire form |
| Nmea.WirePassesGate | lib/gps_poller.py:389-393 | a `$` command without a `*` of its own is written so that the sentence (the wire form without `\r\n`) passes the same gate incoming sentences go through |
| Nmea.Token | lib/gps_poller.py:193 | the key is the text before the first comma, which contains no comma; with no comma it is the sentence without its last character |
| Nmea.StorageKey | lib/gps_poller.py:193-216 | the storage key always starts with the token |
| Nmea.KeyOf | lib/gps_poller.py:193-212 | parse_pkt's step-by-step key computation yields the storage key |
| Nmea.StorageKeyCases | lib/gps_poller.py:193-214 | the key is the bare token if and only if no suffix rule applies; GSV and RMC with more than 2 fields get `-` and field 2; GLL with more than 6 fields gets `-` and field 6 |
| Framing.Cut | lib/gps_poller.py:142-151 | no cut exactly when the buffer holds no `\r`; otherwise the sentence is exactly the bytes before the first `\r`, and the rest starts after a 2-byte `\r\n` or a 1-byte bare `\r` |
| Framing.Frames | lib/gps_poller.py:139-157 | after the extraction loop the buffer holds no `\r`, no extracted sentence holds one, and a buffer without `\r` is kept whole |
| Framing.FramesSuffix | lib/gps_poller.py:139-157 | what the loop keeps is a tail end of the buffer |
| Framing.Terminators | lib/gps_poller.py:143-151 | one dropped terminator per extracted sentence, each `\r\n` or a bare `\r` |
| Framing.FramesRebuild | lib/gps_poller.py:142-157 | each sentence followed by its terminator, then the remainder, rebuilds the buffer: the extraction loop loses nothing but terminators |
| Framing.FramesAppend | lib/gps_poller.py:139-157 | extracting from a buffer, then from its remainder with more bytes appended, gives the same sentences and the same remainder as extracting from the whole at once, unless the split falls between a `\r` and its `\n` |
| Framing.CutExtends | lib/gps_poller.py:142-152 | appending bytes after a complete sentence does not change where it is cut, unless they start with the `\n` of its `\r\n` |
| Framing.ReadBoundaryDropsLf | lib/gps_poller.py:119 | a sentence `x \n y` read whole keeps its `\n`, but read as `x` and then `\n y \r` it loses it, because each read is stripped of `\n` at both ends |
| Framing.FramesAscii | lib/gps_poller.py:149 | sentences and remainder cut from ASCII bytes are ASCII, so decoding them succeeds |
| Engine.Initial | lib/gps_poller.py:27-37 | `__init__` leaves an empty queue, nothing in flight and no fix, and the engine invariant holds |
| Engine.Store | lib/gps_poller.py:216 | storing under a key that is neither `have_fix` nor a counter keeps the invariant and changes only that key |
| Engine.ErrLog | lib/gps_poller.py:424-432 | errlog raises `errcnt_<kind>` by exactly one (from 0 when absent), sets `last_<kind>` to the read count and message, and touches no other key or field |
| Engine.ParseGpsUtc | lib/gps_poller.py:261-268 | a time comes back if and only if both two-digit fields parse with `int()` and the seconds parse with `float()`; hour and minute are those values |
| Engine.ReadPosition | lib/gps_poller.py:270-286 | fewer than four fields never give a position |
| Engine.QueueCmd | lib/gps_poller.py:377-378 | queueing an ASCII command keeps the engine invariant |
| Engine.SendNextCmd | lib/gps_poller.py:380-407 | sending keeps the invariant: a command in flight is the queue head, awaits its own non-empty ack, and has a deadline |
| Engine.SendHead | lib/gps_poller.py:387-407 | writing the head keeps that invariant |
| Engine.CheckCmdResponse | lib/gps_poller.py:409-422 | ack matching and timeout handling keep that invariant (a `cmd_wait_for` never outlives its command) |
| Engine.ParsePacket | lib/gps_poller.py:168-216 | parse_pkt keeps the engine invariant for every ASCII sentence that is either turned away by the gate, whatever its key, or storable once past it |
| Engine.Accept | lib/gps_poller.py:191-216 | a sentence past the gate goes through the ack check, the family handlers and the store with the engine invariant kept (EngineFacts.ValidSentenceStored and WellFormedAccepted give its effect) |
| Engine.Dispatch | lib/gps_poller.py:194-206 | the family handlers keep the engine invariant (EngineFacts.HandlersKeepQueue: they leave the queue, the bus and the read counter alone) |
| Engine.SetGpsTime | lib/gps_poller.py:218-246 | set_gps_time keeps the engine invariant in both variants |
| Engine.SetFix | lib/gps_poller.py:248-253 | set_fix keeps the engine invariant (EngineFacts.SetFixEffect gives its effect) |
| Engine.ClearFix | lib/gps_poller.py:255-259 | clear_fix keeps the engine invariant (EngineFacts.ClearFixEffect gives its effect) |
| Engine.ParseLlFix | lib/gps_poller.py:270-286 | parse_ll_fix keeps the engine invariant (EngineFacts.ParseLlFixCounts and the position lemmas give its effect) |
| Engine.ParseRmc | lib/gps_poller.py:288-323 | parse_rmc keeps the engine invariant in both variants (EngineFacts.RmcStatus, RmcActiveDated, RmcActiveUndated, RmcDriftRaises give its effect) |
| Engine.ParseGll | lib/gps_poller.py:325-349 | parse_gll keeps the engine invariant in both variants (EngineFacts.GllStatus and GllActive give its effect) |
| Engine.ParseZda | lib/gps_poller.py:351-375 | parse_zda keeps the engine invariant in both variants (EngineFacts.ZdaFailure, ZdaOffersDate, ZdaDriftRaises give its effect) |
| Engine.Drain | lib/gps_poller.py:139-157 | the extraction loop keeps the invariant and leaves exactly what the framer keeps |
| Engine.TrackRead | lib/gps_poller.py:110-131 | the per-read bookkeeping keeps the invariant and leaves the buffer alone (EngineFacts.ReadSizeDecidesSend gives the send decision) |
| Engine.Absorb | lib/gps_poller.py:136-157 | a non-empty read keeps the engine and framer invariants and leaves in the buffer exactly what the framer keeps of buffer plus read |
| Engine.Poll | lib/gps_poller.py:110-157 | one pass of the loop body keeps the invariant; an empty read leaves the buffer as it was, and a non-empty one leaves what the framer keeps of buffer plus read |
| Engine.Run | lib/gps_poller.py:99-157 | a run of reads keeps the engine and framer invariants |
| Engine.AsCommands | lib/gps_poller.py:81-83 | each `(cmd, wait_for)` pair of `init_cmds` becomes one queued command with the default 10 s timeout, in order |
| EngineFacts.ErrLogCounts | lib/gps_poller.py:424-432 | errlog moves its own counter by one and every other counter not at all |
| EngineFacts.StoreCounts | lib/gps_poller.py:216 | storing a sentence or a size moves no counter |
| EngineFacts.SetFixCounts | lib/gps_poller.py:248-253 | set_fix moves no counter but `last_fix` |
| EngineFacts.ClearFixCounts | lib/gps_poller.py:255-259 | clear_fix moves no counter but `clear_fix` |
| EngineFacts.SetGpsTimeCounts | lib/gps_poller.py:218-246 | set_gps_time moves no counter but `gps_time_<source>` and `rtc_set` |
| EngineFacts.ParseLlFixCounts | lib/gps_poller.py:270-286 | parse_ll_fix moves no counter but `parse_ll_fix_error`, and never touches the fix flag |
| EngineFacts.HandlersKeepQueue | lib/gps_poller.py:194-206 | the family handlers change only the dictionary and the log of RTC settings: queue, awaited ack, deadline, bus writes, read count and time mode are as they were |
| EngineFacts.RmcKeepsQueue | lib/gps_poller.py:288-323 | parse_rmc changes only the dictionary and the RTC log |
| EngineFacts.GllKeepsQueue | lib/gps_poller.py:325-349 | parse_gll changes only the dictionary and the RTC log |
| EngineFacts.ZdaKeepsQueue | lib/gps_poller.py:351-375 | parse_zda changes only the dictionary and the RTC log |
| EngineFacts.NoStarIgnored | lib/gps_poller.py:169-170 | a sentence with no `*` leaves the engine unchanged |
| EngineFacts.GateRejectedAdmissible | lib/gps_poller.py:168-189 | every ASCII sentence the gate turns away is taken, whatever key it would have been filed under, since it is never filed |
| EngineFacts.FlagFragmentIgnored | lib/gps_poller.py:169-170 | the fragment `have_fix,1` is taken and leaves the engine unchanged |
| EngineFacts.EmptyBodyIgnored | lib/gps_poller.py:179-180 | a sentence with an empty body before its only `*` leaves the engine unchanged |
| EngineFacts.SplitErrorLogsOnly | lib/gps_poller.py:172-177 | not exactly one `*`, or a non-hex suffix: only `last_split_err` changes and `errcnt_split_err` rises by one |
| EngineFacts.WellFormedAccepted | lib/gps_poller.py:182-191 | a well-formed sentence goes on to the ack check and dispatch; any other sentence does not pass |
| EngineFacts.MismatchLogsOnly | lib/gps_poller.py:187-189 | a checksum mismatch changes only `last_chkerr`, and `errcnt_chkerr` rises by exactly one |
| EngineFacts.ValidSentenceStored | lib/gps_poller.py:193-216 | every checksum-valid sentence ends up stored verbatim under its storage key |
| EngineFacts.CommalessKey | lib/gps_poller.py:193 | a sentence without a comma is stored under itself minus its last character |
| EngineFacts.SetFixEffect | lib/gps_poller.py:248-253 | afterwards the fix holds; `fix_start` is written on the no-fix-to-fix transition and left as it was otherwise; `last_fix` is logged once; nothing else changes |
| EngineFacts.RepeatedSetFixKeepsStart | lib/gps_poller.py:248-253 | a second set_fix keeps the `fix_start` of the first |
| EngineFacts.ClearFixEffect | lib/gps_poller.py:255-259 | without a fix clear_fix is a no-op; with one it drops the fix, writes `fix_end` as source and read count, logs `clear_fix` once, and changes nothing else |
| EngineFacts.FixCycle | lib/gps_poller.py:248-259 | void, active, void: no fix at the end, `fix_start` and `fix_end` from the cycle, each transition logged exactly once |
| EngineFacts.GpsTimeKeys | lib/gps_poller.py:219 | the `gps_time_<source>` counter never collides with `rtc_set` or `clock_drift` |
| EngineFacts.SetGpsTimeDecides | lib/gps_poller.py:218-246 | the candidate is always logged first; the drift is recorded if and only if every guard holds and the drift computation does not raise; the RTC is set if and only if in addition the drift exceeds 60 s; a failed guard or a raising drift leaves only the log entry; queue and bus are untouched |
| EngineFacts.OldYearRejected | main.py:205-207 | a year of 2010 or earlier is only logged, in both files |
| EngineFacts.RtcModeNeverSet | lib/gps_poller.py:225-227 | in RTC mode lib/gps_poller.py never sets the clock |
| EngineFacts.MainIgnoresTimeMode | main.py:202-222 | main.py sets the RTC even in RTC mode when the queue is empty, the time is complete, the year is after 2010 and the drift exceeds 60 s, where lib/gps_poller.py does not |
| EngineFacts.SmallDriftNotCorrected | lib/gps_poller.py:237-239 | a drift of 60 s or less is recorded but the RTC is not set |
| EngineFacts.RmcStatus | lib/gps_poller.py:303-307 | fewer than three fields raise before any effect; a status other than `A` does exactly clear_fix("rmc") |
| EngineFacts.RmcCandidateReads | lib/gps_poller.py:311-317 | the time an RMC offers exists exactly when field 9 exists and reads as a date; it is that date with the time of day of field 1 |
| EngineFacts.RmcActiveDated | lib/gps_poller.py:309-319 | an active RMC with a readable date whose drift can be computed offers the time once (`gps_time_rmc`) and sets the fix (`last_fix` once) |
| EngineFacts.RmcDriftRaises | lib/gps_poller.py:309-321 | an active, dated RMC whose drift computation (line 237) raises logs `gps_time_rmc` and `parse_rmc_fail` once each, sets no fix, sets no clock, and leaves `clock_drift` as it was |
| EngineFacts.RmcTimeThenFail | lib/gps_poller.py:318-321 | from the position on, such a sentence adds two log entries and keeps the fix flag, the clock and the recorded drift |
| EngineFacts.TimeThenFail | lib/gps_poller.py:237 | a set_gps_time whose drift raises, followed by the handler's failure entry, changes only those two log entries |
| EngineFacts.RmcActiveSteps | lib/gps_poller.py:309-319 | an active, dated RMC whose drift can be computed is the position parse, then set_gps_time, then set_fix, in that order |
| EngineFacts.TimeThenFix | lib/gps_poller.py:318-319 | set_gps_time followed by set_fix logs one entry of each, and the fix holds |
| EngineFacts.RmcActiveUndated | lib/gps_poller.py:309-321 | an active RMC without a readable date logs `parse_rmc_fail` once and leaves the fix flag as it was |
| EngineFacts.RmcDateSixDigits | lib/gps_poller.py:311-316 | a six-digit `ddmmyy` reads as day, month and 2000 plus `yy` |
| EngineFacts.GllStatus | lib/gps_poller.py:338-342 | fewer than seven fields raise before any effect; a status other than `A` does exactly clear_fix("gll") |
| EngineFacts.GllActive | lib/gps_poller.py:344-349 | an active GLL always sets the fix and never logs `parse_gll_fail` |
| EngineFacts.ZdaFailure | lib/gps_poller.py:366-375 | fewer than five fields or an unparsable day, month or year logs only `parse_zda_fail` |
| EngineFacts.ZdaOffersDate | lib/gps_poller.py:366-375 | a readable ZDA date is offered to set_gps_time as written, with no year pivot; when the drift computation raises, `parse_zda_fail` is logged after it |
| EngineFacts.ZdaDriftRaises | lib/gps_poller.py:366-375 | a ZDA whose drift computation (line 237) raises logs `gps_time_zda` and `parse_zda_fail` once each; the clock, the queue, the bus and every other state key stay as they were |
| EngineFacts.ZdaTimeThenFail | lib/gps_poller.py:372-375 | set_gps_time with a raising drift, then `parse_zda_fail`: those two log entries are the only change |
| EngineFacts.LibraryReadsPosition | lib/gps_poller.py:310 | given RMC fields 3 to 6, parse_ll_fix yields the position built from them without logging |
| EngineFacts.LibraryReadsGllPosition | lib/gps_poller.py:345 | given GLL fields 1 to 4, parse_ll_fix yields the position built from them without logging |
| EngineFacts.MainPositionAlwaysFails | main.py:286 | with main.py's three-field slices, every RMC and GLL position fails, and only `parse_ll_fix_error` is logged |
| EngineFacts.SendIdle | lib/gps_poller.py:380-385 | with an empty queue, or with a command in flight and no force, send_next_cmd changes nothing |
| EngineFacts.SendWritesHead | lib/gps_poller.py:387-407 | otherwise the head's wire form is written and the deadline becomes now plus timeout; the head leaves at once if and only if it waits for `""`; otherwise it stays in flight awaiting its ack |
| EngineFacts.DefaultAckNamesType | lib/gps_poller.py:397-398 | the default ack is `$PMTK001,` plus the command's packet type (`cmd[5:8]`) plus `,3` |
| EngineFacts.AckRetiresHead | lib/gps_poller.py:413-418 | a matching sentence pops exactly the head and sends the next command, if there is one: that command is written, its deadline is now plus its timeout, and it stays queued and awaited under its ack unless its ack is empty, in which case it is popped too and nothing is awaited; with no next command nothing is in flight and there is no deadline; the state and the RTC log do not change |
| EngineFacts.TimeoutResendsHead | lib/gps_poller.py:420-422 | after the deadline a non-matching sentence counts one `cmd_timeout` and rewrites the same head; the queue is unchanged |
| EngineFacts.NoAckBeforeDeadline | lib/gps_poller.py:420 | before the deadline a non-matching sentence changes nothing |
| EngineFacts.AckThenFireAndForget | lib/gps_poller.py:397-418 | a command awaiting an ack and then a fire-and-forget one: the first is written and waits; its ack writes the second, which leaves the queue at once |
| EngineFacts.EmptyReadOnlySends | main.py:82-97 | an empty read counts the read and tries a send, and does nothing else |
| EngineFacts.ReadSizeDecidesSend | lib/gps_poller.py:110-131 | every read is counted; a read short of 254 bytes writes the queue head with its deadline when nothing is in flight and writes nothing otherwise; a read of 254 bytes or more leaves the queue, the bus, the awaited ack and the deadline alone |
| EngineFacts.BaselineSendable | main.py:50-60 | there are ten baseline commands, each a `$` sentence without a `*`, each with the 10 s timeout |
| EngineFacts.BaselineWiresPassGate | main.py:50-60 | every baseline command is written in a form that passes the receive gate |
| EngineFacts.BaselineAcks | main.py:50-60 | `$PMTK414` waits for `$PMTK514`, the four `$PQ` commands wait for a prefix of their own text, and the other five take the default PMTK_ACK |
| Poller.GpsPoller.InitLibrary | lib/gps_poller.py:18-37 | the object starts empty, with no fix, in GPS-search mode before 1981 and RTC mode otherwise |
| Poller.GpsPoller.InitMainScript | main.py:18-60 | as above, with the ten baseline commands queued |
| Poller.GpsPoller.ErrLog | lib/gps_poller.py:424-432 | in place, leaves the object in exactly the state Engine.ErrLog computes, and keeps the engine invariant |
| Poller.GpsPoller.SetFix | lib/gps_poller.py:248-253 | in place, leaves the object in exactly the state Engine.SetFix computes, and keeps the engine invariant |
| Poller.GpsPoller.ClearFix | lib/gps_poller.py:255-259 | in place, leaves the object in exactly the state Engine.ClearFix computes, and keeps the engine invariant |
| Poller.GpsPoller.SetGpsTime | lib/gps_poller.py:218-246 | runs the guard chain of the object's own file in place, leaves exactly the state Engine.SetGpsTime computes, keeps the engine invariant, and reports whether the drift computation raised |
| Poller.GpsPoller.ParseLlFix | lib/gps_poller.py:270-286 | the object and the returned position equal Engine.ParseLlFix |
| Poller.GpsPoller.ParseRmc | lib/gps_poller.py:288-323 | in place, leaves the object in exactly the state Engine.ParseRmc computes, and keeps the engine invariant |
| Poller.GpsPoller.ParseGll | lib/gps_poller.py:325-349 | in place, leaves the object in exactly the state Engine.ParseGll computes, and keeps the engine invariant |
| Poller.GpsPoller.ParseZda | lib/gps_poller.py:351-375 | in place, leaves the object in exactly the state Engine.ParseZda computes, and keeps the engine invariant |
| Poller.GpsPoller.QueueCmd | lib/gps_poller.py:377-378 | appends exactly one command to the queue |
| Poller.GpsPoller.QueueBaseline | lib/gps_poller.py:70-80 | appends the ten baseline commands in source order and nothing else |
| Poller.GpsPoller.SendNextCmd | lib/gps_poller.py:380-407 | in place, leaves the object in exactly the state Engine.SendNextCmd computes, and keeps the engine invariant |
| Poller.GpsPoller.SendHead | lib/gps_poller.py:387-407 | in place, leaves the object in exactly the state Engine.SendHead computes, and keeps the engine invariant |
| Poller.GpsPoller.CheckCmdResponse | lib/gps_poller.py:409-422 | in place, leaves the object in exactly the state Engine.CheckCmdResponse computes, and keeps the engine invariant |
| Poller.GpsPoller.CheckPacket | lib/gps_poller.py:169-189 | the early returns of parse_pkt compute the gate's verdict |
| Poller.GpsPoller.ParsePacket | lib/gps_poller.py:168-216 | in place, leaves the object in exactly the state Engine.ParsePacket computes, and keeps the engine invariant |
| Poller.GpsPoller.AcceptPacket | lib/gps_poller.py:191-216 | in place, leaves the object in exactly the state Engine.Accept computes, and keeps the engine invariant |
| Poller.GpsPoller.Dispatch | lib/gps_poller.py:196-204 | in place, leaves the object in exactly the state Engine.Dispatch computes, and keeps the engine invariant |
| Poller.GpsPoller.StoreSentence | lib/gps_poller.py:193-216 | stores the sentence under its storage key and changes nothing else |
| Poller.GpsPoller.SetNumber | lib/gps_poller.py:136-138 | stores a size or a count under its fixed key and changes nothing else |
| Poller.GpsPoller.TrackRead | lib/gps_poller.py:110-131 | in place, leaves the object in exactly the state Engine.TrackRead computes, and keeps the engine invariant |
| Poller.GpsPoller.ReadOnce | lib/gps_poller.py:110-157 | in place, leaves the object in exactly the state Engine.Poll computes, and keeps the engine invariant |
| Poller.GpsPoller.Absorb | lib/gps_poller.py:136-157 | in place, leaves the object in exactly the state Engine.Absorb computes, and keeps the engine invariant |
| Poller.GpsPoller.Extract | lib/gps_poller.py:142-157 | the extraction loop, run in place with its loop invariant, leaves exactly the state and buffer Engine.Drain computes |
| Poller.GpsPoller.RunLoop | lib/gps_poller.py:99-157 | after a run of reads from a zero read count and an empty buffer, the object is what Engine.Run computes |
| Poller.GpsPoller.ReadNext | lib/gps_poller.py:110-157 | one read moves the object one step along the run |
| Poller.GpsPoller.Start | lib/gps_poller.py:55-97 | run queues the setup commands, then runs the loop |
| Poller.GpsPoller.QueueSetup | lib/gps_poller.py:69-84 | the baseline commands, then `init_cmds`, are queued |
| Poller.Setup | lib/gps_poller.py:69-84 | queueing the setup commands keeps the engine invariant, with the read count reset too |

## Left out

- I/O is not modelled. This covers the I2C `readfrom` and `writeto` calls, the LED colour, `time.sleep`, and `ntp_sync` with its wait loop. Reads arrive as a finite sequence of byte strings. Writes go to a log of strings; `encode("ascii")` changes nothing for the ASCII commands.
- The periodic state dump is not modelled. This covers `next_log_time`, `gps_log.log_state`, main.py's ANSI console display and JSON log entries, `__str__` and `sorted_dict_str`. These only print or serialise the state.
- `GPS_SD_Logger` and main.py's `gps_logger` (SD card, files, battery, `gc`) are not modelled. They are storage and hardware I/O.
- Floating point is not modelled. `float()` is an oracle predicate, a position keeps the texts it was computed from, and the seconds of a time stay text. The microsecond split in set_gps_time is not computed.
- `time.mktime` and `time.time()` appear only as the drift function and `now`. The drift is a whole number of seconds, or `None` when computing it raises.
- `machine.RTC().init` is assumed never to raise. An RTC that refused a time would skip the `rtc_set` log; the model always sets the clock and logs.
- The text of log messages is kept as structured values (`Msg`). The local clock reading that set_gps_time's message includes is left out.
- Engine.ParsePacket: the sentence must be ASCII, because `decode("ascii")` raises out of the loop otherwise. A sentence that passes the checksum gate must also not be filed under `have_fix`: storing it there makes the flag a non-empty, truthy string, so the poller would act as if it had a fix (lib/gps_poller.py:112, 249, 256); the model keeps the flag boolean. Nor may its key start with `errcnt_`: the next errlog of that kind would add 1 to a string and raise a `TypeError` (lib/gps_poller.py:430). Sentences the gate turns away are never filed and carry no such restriction.
- Poller.GpsPoller.RunLoop: it models a finite run of reads, not the endless `while True`. Exceptions escaping `run_loop` and the `log_stop` that follows are not modelled.
- Numbers.ParseInteger: MicroPython's `int()` is modelled without `_` digit separators.
- Framing.Frames: extraction is independent of how the bytes are split into reads only when no read boundary separates a `\r` from its `\n` (Framing.FramesAppend). Because every read is stripped of `\n` at both ends (lib/gps_poller.py:119), a `\n` inside a sentence is lost when it starts or ends a read (Framing.ReadBoundaryDropsLf). NMEA sentences carry no `\n`, and a `\r\n` split across reads leaves a lone `\n` that the strip removes, so the loss only concerns malformed data.
- Time is sampled once per bus read: `Run` takes one `Env` per read, and every step of that pass uses its `now`. The source calls `time.time()` afresh in send_next_cmd and check_cmd_response (lib/gps_poller.py:401, 420), so a deadline that passes during a pass is only seen at the next read.
- `TIME_MODE_GPS_INSYNC` is never assigned by either file, so the model has only the two modes that are used.

## Findings

| source | as written | input that shows it | evidently intended | confidence | as-written member | corrected member |
|---|---|---|---|---|---|---|
| main.py:286 | `parse_rmc` passes `fields[3:6]`, three fields, to `parse_ll_fix`, which reads four (`ll[3]` is the E/W direction) | any active RMC sentence, e.g. `$GNRMC,142323.000,A,3446.4447,N,11145.9536,W,0.00,206.73,280318,,,D*6D`: the position is `(None, None)` and `parse_ll_fix_error` is logged | `fields[3:7]`, as lib/gps_poller.py:310 has it | high (by reading; not executed) | EngineFacts.MainPositionAlwaysFails | EngineFacts.LibraryReadsPosition |
| main.py:321 | `parse_gll` passes `fields[1:4]`, three fields, to `parse_ll_fix` | any active GLL sentence, e.g. `$GNGLL,3324.8933,N,11200.4470,W,161732.000,A,A*57`: the position is `(None, None)` and `parse_ll_fix_error` is logged | `fields[1:5]`, as lib/gps_poller.py:345 has it | high (by reading; not executed) | EngineFacts.MainPositionAlwaysFails | EngineFacts.LibraryReadsGllPosition |
