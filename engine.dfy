/**
  The GPS protocol engine of `GPS_Poller`, as pure state transitions. Each
  function here is what one method of the poller does to the poller's state;
  the class Poller.GpsPoller carries out the same steps in place
  and is proved equal to these functions.

  lib/gps_poller.py and main.py hold two versions of the engine; where they
  differ the functions take a `Variant`.
*/
module Engine {
  import opened Wrappers
  import opened PyText
  import opened Numbers
  import opened Nmea
  import opened Framing

  /** Which of the two source files is modelled: lib/gps_poller.py or the older main.py. */
  datatype Variant = Library | MainScript

  /** `time_mode`: RTC means the local clock is trusted and never set from GPS time. */
  datatype TimeMode = RtcMode | GpsSearch

  /** One coordinate as parse_ll_fix computes it: ±(float(degrees) + float(minutes) / 60). */
  datatype Coord = Coord(degrees: string, minutes: string, negative: bool)

  /** parse_ll_fix's result: `(latitude, longitude)`, or `(None, None)`. */
  datatype Position = NoPosition | Position(lat: Coord, lon: Coord)

  /** parse_gps_utc's result: `(hh, mm, ss)` with `ss` the text `float()` accepted, or all `None`. */
  datatype Utc = NoUtc | Utc(hour: int, minute: int, second: string)

  /** The tuple `(yy, mm, dd) + fix_time` handed to set_gps_time. */
  datatype Candidate = Candidate(year: int, month: int, day: int, utc: Utc)

  /** The message part of an errlog entry. */
  datatype Msg =
    | Plain(text: string)                                   // built by concatenation
    | ChecksumMismatch(computed: int, received: int, pkt: string)
    | GpsTime(source: string, candidate: Candidate)         // the local clock reading is not modelled
    | RtcSet(time: Candidate, drift: Option<nat>)           // main.py does not report the drift
    | LastFix(position: Position, utc: Utc)
    | PositionError(fields: seq<string>)

  /** A value of the `state` dictionary. */
  datatype Value =
    | Flag(on: bool)                            // have_fix
    | Number(n: int)                            // counters and sizes
    | Sentence(text: string)                    // the last sentence seen under a key
    | Note(at: int, msg: Msg)                   // "@<read_count>: <message>"
    | FixMark(position: Position, utc: Utc)     // fix_start: "<fix_ll> @ <fix_time>"
    | EndMark(source: string, at: int)          // fix_end: "<source> @ <read_count>"

  /** One entry of `cmd_queue`: `(cmd, wait_for, timeout)`. */
  datatype Command = Command(text: string, waitFor: Option<string>, timeout: int)

  /** The poller's state apart from the framing loop's. */
  datatype Engine = Engine(
    state: map<string, Value>,
    queue: seq<Command>,
    waitFor: Option<string>,     // cmd_wait_for
    deadline: Option<int>,       // cmd_timeout
    mode: TimeMode,
    readCount: int,
    writes: seq<string>,         // what was written to the bus, oldest first
    rtcSets: seq<Candidate>)     // the times the RTC was set to, oldest first

  /** The variables run_loop carries from one bus read to the next. */
  datatype Framer = Framer(
    buffer: seq<byte>,           // circular_buffer
    maxBufLen: int,
    maxPktLen: int,
    lastLargeBuf: int,
    countLargeBuf: int)

  /**
    What the engine asks of its surroundings: `time.time()`, the clock drift
    `abs(time.mktime(candidate) - time.time())` for a candidate time (`None`
    when computing it raises: `int()` of a non-finite seconds value, or a
    year `mktime` cannot represent), and whether `float()` accepts a text.
  */
  datatype Env = Env(now: int, driftOf: Candidate -> Option<nat>, floatOk: string -> bool)

  // ---------------------------------------------------------------- state

  predicate IsCounterKey(k: string) {
    |k| >= 7 && k[..7] == "errcnt_"
  }

  /** The invariant every step keeps. */
  predicate EngineOk(e: Engine) {
    && "have_fix" in e.state && e.state["have_fix"].Flag?
    && (forall k :: k in e.state && IsCounterKey(k) ==> e.state[k].Number?)
    && (forall i :: 0 <= i < |e.queue| ==> IsAscii(e.queue[i].text))
    // a command in flight is the head of the queue, awaits its own ack and has a deadline
    && (e.waitFor.Some? ==> |e.queue| > 0 && AckOf(e.queue[0]) == e.waitFor.value
                            && |e.waitFor.value| > 0 && e.deadline.Some?)
  }

  /** The ack a command waits for by default: PMTK_ACK of its packet type with flag 3 (success). */
  function DefaultAck(wire: string): string {
    "$PMTK001," + Slice(wire, 5, 8) + ",3"
  }

  /** The sentence prefix that acknowledges a command; `""` means none is awaited. */
  function AckOf(c: Command): string
    requires IsAscii(c.text)
  {
    if c.waitFor.None? then DefaultAck(Wire(c.text)) else c.waitFor.value
  }

  predicate FramerOk(f: Framer) {
    AllAscii(f.buffer) && CR !in f.buffer
  }

  function HasFix(e: Engine): bool
    requires EngineOk(e)
  {
    e.state["have_fix"].on
  }

  /** Python's truth value of `cmd_wait_for`. */
  predicate InFlight(e: Engine) {
    e.waitFor.Some? && |e.waitFor.value| > 0
  }

  /** The `errcnt_<kind>` counter, 0 when it was never written. */
  function Count(e: Engine, kind: string): int {
    var key := "errcnt_" + kind;
    if key in e.state && e.state[key].Number? then e.state[key].n else 0
  }

  /** `m` and `m'` agree on every key outside `keys`. */
  ghost predicate SameExcept(m: map<string, Value>, m': map<string, Value>, keys: set<string>) {
    forall k :: k !in keys ==> (k in m <==> k in m') && (k in m ==> m[k] == m'[k])
  }

  /**
    A sentence the engine can file: ASCII, and not filed under a key the
    engine keeps a flag or a counter under.
  */
  predicate Storable(pkt: string) {
    IsAscii(pkt) && StorageKey(pkt) != "have_fix" && !IsCounterKey(StorageKey(pkt))
  }

  /**
    A sentence the engine can take: ASCII (the framer's `decode("ascii")`
    would raise otherwise), and storable if it passes the checksum gate. A
    sentence the gate turns away is never filed, whatever its key.
  */
  predicate Admissible(pkt: string) {
    IsAscii(pkt) && (Gate(pkt) == Valid ==> Storable(pkt))
  }

  /** The poller as `__init__` leaves it. */
  function Initial(mode: TimeMode): (e: Engine)
    ensures EngineOk(e) && !HasFix(e) && e.queue == [] && e.waitFor == None
  {
    NotCounter("have_fix");
    Engine(map["have_fix" := Flag(false)], [], None, None, mode, 0, [], [])
  }

  /** `__init__` trusts the local clock unless its year is before 1981. */
  function ModeFor(localYear: int): TimeMode {
    if localYear < 1981 then GpsSearch else RtcMode
  }

  // ---------------------------------------------------------------- errlog

  lemma CounterKeys(kind: string)
    ensures IsCounterKey("errcnt_" + kind) && !IsCounterKey("last_" + kind)
    ensures "errcnt_" + kind != "last_" + kind
    ensures "have_fix" != "last_" + kind && "have_fix" != "errcnt_" + kind
  {
    assert ("errcnt_" + kind)[..7] == "errcnt_";
    assert ("last_" + kind)[0] == 'l' && ("errcnt_" + kind)[0] == 'e';
  }

  /** A key that does not start with `e` is no counter. */
  lemma NotCounter(k: string)
    requires |k| > 0 && k[0] != 'e'
    ensures !IsCounterKey(k)
  {
  }

  /** The fixed keys the engine writes plain values under. */
  predicate PlainKey(key: string) {
    key in {"fix_start", "fix_end", "clock_drift", "max_pkt_len", "max_buf_len",
            "last_read_bytes", "last_large_buf", "count_large_buf"}
  }

  /**
    `state[key] = value` for a key that holds neither the fix flag nor a
    counter: the invariant survives.
  */
  function Store(e: Engine, key: string, value: Value): (r: Engine)
    requires EngineOk(e) && (PlainKey(key) || (key != "have_fix" && !IsCounterKey(key)))
    ensures EngineOk(r) && r == e.(state := e.state[key := value])
  {
    if PlainKey(key) then NotCounter(key); e.(state := e.state[key := value])
    else e.(state := e.state[key := value])
  }

  /** errlog: the last message of a kind, and one more occurrence of it. */
  function ErrLog(e: Engine, kind: string, msg: Msg): (r: Engine)
    requires EngineOk(e)
    ensures EngineOk(r)
    ensures r == e.(state := r.state)
    ensures Count(r, kind) == Count(e, kind) + 1
    ensures "last_" + kind in r.state && r.state["last_" + kind] == Note(e.readCount, msg)
    ensures SameExcept(e.state, r.state, {"last_" + kind, "errcnt_" + kind})
  {
    CounterKeys(kind);
    var state := e.state["last_" + kind := Note(e.readCount, msg)];
    var key := "errcnt_" + kind;
    var count := if key in state then state[key].n + 1 else 1;
    e.(state := state[key := Number(count)])
  }

  // ---------------------------------------------------------------- fix state machine

  /** set_fix. */
  function SetFix(e: Engine, utc: Utc, position: Position): (r: Engine)
    requires EngineOk(e)
    ensures EngineOk(r)
  {
    var started := if !HasFix(e) then Store(e, "fix_start", FixMark(position, utc)) else e;
    ErrLog(started.(state := started.state["have_fix" := Flag(true)]), "last_fix", LastFix(position, utc))
  }

  /** clear_fix. */
  function ClearFix(e: Engine, source: string): (r: Engine)
    requires EngineOk(e)
    ensures EngineOk(r)
  {
    if HasFix(e) then
      var ended := Store(e.(state := e.state["have_fix" := Flag(false)]), "fix_end", EndMark(source, e.readCount));
      ErrLog(ended, "clear_fix", Plain(source))
    else e
  }

  // ---------------------------------------------------------------- clock sync

  /** The part of set_gps_time after every guard passed: record the drift, set the RTC when it exceeds 60 s. */
  function AdjustClock(v: Variant, e: Engine, c: Candidate, drift: nat): (r: Engine)
    requires EngineOk(e)
    ensures EngineOk(r)
  {
    var e1 := Store(e, "clock_drift", Number(drift));
    if drift > 60 then
      ErrLog(e1.(rtcSets := e1.rtcSets + [c]), "rtc_set", RtcSet(c, if v == Library then Some(drift) else None))
    else e1
  }

  /** The conditions under which set_gps_time goes on to compute the drift, conjunct by conjunct. */
  predicate ClockGuards(v: Variant, e: Engine, c: Candidate) {
    && |e.queue| == 0
    && (v == Library ==> e.mode != RtcMode)
    && c.utc.Utc?
    && c.year > 2010
  }

  /**
    set_gps_time raises out of its caller's `try`: every guard held and the
    drift computation, which no `try` covers, failed.
  */
  predicate DriftRaises(v: Variant, e: Engine, c: Candidate, drift: Option<nat>) {
    ClockGuards(v, e, c) && drift.None?
  }

  /**
    set_gps_time. lib/gps_poller.py waits for an empty queue, then refuses in
    RTC mode, then needs every field and a year after 2010; main.py has no
    time-mode guard and tests the fields and the year before the queue. When
    the drift cannot be computed the state is left as the log made it and
    the exception (DriftRaises) goes to the caller.
  */
  function SetGpsTime(v: Variant, e: Engine, c: Candidate, source: string, drift: Option<nat>): (r: Engine)
    requires EngineOk(e)
    ensures EngineOk(r)
  {
    var logged := ErrLog(e, "gps_time_" + source, GpsTime(source, c));
    if !ClockGuards(v, e, c) then logged
    else match drift
      case None => logged
      case Some(d) => AdjustClock(v, logged, c, d)
  }

  // ---------------------------------------------------------------- field parsers

  /** parse_gps_utc: `hhmmss.sss` as two integers and the text of the seconds. */
  function ParseGpsUtc(hhmmss: string, floatOk: string -> bool): (t: Utc)
    ensures t.Utc? ==> ParseInt(Slice(hhmmss, 0, 2)) == Some(t.hour) && ParseInt(Slice(hhmmss, 2, 4)) == Some(t.minute)
    ensures t.Utc? <==> ParseInt(Slice(hhmmss, 0, 2)).Some? && ParseInt(Slice(hhmmss, 2, 4)).Some? && floatOk(Drop(hhmmss, 4))
  {
    match (ParseInt(Slice(hhmmss, 0, 2)), ParseInt(Slice(hhmmss, 2, 4)))
    case (Some(hh), Some(mm)) => if floatOk(Drop(hhmmss, 4)) then Utc(hh, mm, Drop(hhmmss, 4)) else NoUtc
    case _ => NoUtc
  }

  /**
    The value parse_ll_fix computes from `[lat, N/S, lon, E/W]`: it needs
    four fields and four texts `float()` accepts.
  */
  function ReadPosition(ll: seq<string>, floatOk: string -> bool): (p: Position)
    ensures |ll| < 4 ==> p == NoPosition
  {
    if |ll| >= 4 && floatOk(Slice(ll[0], 0, 2)) && floatOk(Drop(ll[0], 2))
                 && floatOk(Slice(ll[2], 0, 3)) && floatOk(Drop(ll[2], 3))
    then Position(Coord(Slice(ll[0], 0, 2), Drop(ll[0], 2), ll[1] == "S"),
                  Coord(Slice(ll[2], 0, 3), Drop(ll[2], 3), ll[3] == "W"))
    else NoPosition
  }

  /** parse_ll_fix: a failure is logged as `parse_ll_fix_error` and yields no position. */
  function ParseLlFix(e: Engine, ll: seq<string>, floatOk: string -> bool): (r: (Engine, Position))
    requires EngineOk(e)
    ensures EngineOk(r.0)
  {
    var p := ReadPosition(ll, floatOk);
    if p.NoPosition? then (ErrLog(e, "parse_ll_fix_error", PositionError(ll)), p) else (e, p)
  }

  /** The four position fields parse_rmc hands to parse_ll_fix; main.py passes only three. */
  function RmcPositionFields(v: Variant, fields: seq<string>): seq<string> {
    if v == Library then Slice(fields, 3, 7) else Slice(fields, 3, 6)
  }

  /** The four position fields parse_gll hands to parse_ll_fix; main.py passes only three. */
  function GllPositionFields(v: Variant, fields: seq<string>): seq<string> {
    if v == Library then Slice(fields, 1, 5) else Slice(fields, 1, 4)
  }

  /** The RMC date field `ddmmyy` as (day, month, year), a two-digit year taken as 20yy. */
  function RmcDate(ddmmyy: string): Option<(int, int, int)> {
    match (ParseInt(Slice(ddmmyy, 0, 2)), ParseInt(Slice(ddmmyy, 2, 4)), ParseInt(Drop(ddmmyy, 4)))
    case (Some(dd), Some(mm), Some(yy)) => Some((dd, mm, if yy < 100 then yy + 2000 else yy))
    case _ => None
  }

  /** The time an RMC sentence offers the clock: the date of field 9, the time of day of field 1. */
  function RmcCandidate(fields: seq<string>, floatOk: string -> bool): Option<Candidate> {
    if |fields| < 10 then None
    else match RmcDate(fields[9])
      case None => None
      case Some((dd, mm, yy)) => Some(Candidate(yy, mm, dd, ParseGpsUtc(fields[1], floatOk)))
  }

  /**
    parse_rmc. Fewer than three fields raise before any effect (the
    dispatcher swallows it); a status other than `A` clears the fix;
    otherwise the position is parsed, then the date; the clock is offered
    the time and the fix is set. A missing or bad date, or a drift that
    cannot be computed, is logged as `parse_rmc_fail` and sets no fix.
  */
  function ParseRmc(v: Variant, e: Engine, pkt: string, env: Env): (r: Engine)
    requires EngineOk(e)
    ensures EngineOk(r)
  {
    var fields := Split(pkt, ',');
    if |fields| < 3 then e
    else if fields[2] != "A" then ClearFix(e, "rmc")
    else
      var (e1, position) := ParseLlFix(e, RmcPositionFields(v, fields), env.floatOk);
      match RmcCandidate(fields, env.floatOk)
      case None => ErrLog(e1, "parse_rmc_fail", Plain("Failed to parse: " + pkt))
      case Some(c) =>
        var e2 := SetGpsTime(v, e1, c, "rmc", env.driftOf(c));
        if DriftRaises(v, e1, c, env.driftOf(c)) then ErrLog(e2, "parse_rmc_fail", Plain("Failed to parse: " + pkt))
        else SetFix(e2, c.utc, position)
  }

  /**
    parse_gll. Fewer than seven fields raise before any effect; a status
    other than `A` clears the fix; otherwise the fix is set (nothing in the
    `try` can raise, so `parse_gll_fail` is never logged).
  */
  function ParseGll(v: Variant, e: Engine, pkt: string, env: Env): (r: Engine)
    requires EngineOk(e)
    ensures EngineOk(r)
  {
    var fields := Split(pkt, ',');
    if |fields| < 7 then e
    else if fields[6] != "A" then ClearFix(e, "gll")
    else
      var (e1, position) := ParseLlFix(e, GllPositionFields(v, fields), env.floatOk);
      SetFix(e1, ParseGpsUtc(fields[5], env.floatOk), position)
  }

  /** The time a ZDA sentence offers the clock: day, month and year of fields 2 to 4 as written, no pivot. */
  function ZdaCandidate(fields: seq<string>, floatOk: string -> bool): Option<Candidate> {
    if |fields| < 5 then None
    else match (ParseInt(fields[2]), ParseInt(fields[3]), ParseInt(fields[4]))
      case (Some(dd), Some(mm), Some(yy)) => Some(Candidate(yy, mm, dd, ParseGpsUtc(fields[1], floatOk)))
      case _ => None
  }

  /**
    parse_zda: the date offered to the clock; fewer than five fields, a
    field `int()` rejects, or a drift that cannot be computed is logged as
    `parse_zda_fail`.
  */
  function ParseZda(v: Variant, e: Engine, pkt: string, env: Env): (r: Engine)
    requires EngineOk(e)
    ensures EngineOk(r)
  {
    match ZdaCandidate(Split(pkt, ','), env.floatOk)
    case None => ErrLog(e, "parse_zda_fail", Plain("Failed to parse: " + pkt))
    case Some(c) =>
      var e1 := SetGpsTime(v, e, c, "zda", env.driftOf(c));
      if DriftRaises(v, e, c, env.driftOf(c)) then ErrLog(e1, "parse_zda_fail", Plain("Failed to parse: " + pkt))
      else e1
  }

  /** The family handlers parse_pkt runs for a six-character token. */
  function Dispatch(v: Variant, e: Engine, pkt: string, env: Env): (r: Engine)
    requires EngineOk(e)
    ensures EngineOk(r)
  {
    var family := Family(pkt);
    if family == "RMC" then ParseRmc(v, e, pkt, env)
    else if family == "ZDA" then ParseZda(v, e, pkt, env)
    else if family == "GLL" then ParseGll(v, e, pkt, env)
    else e
  }

  // ---------------------------------------------------------------- command queue

  /** queue_cmd. */
  function QueueCmd(e: Engine, text: string, waitFor: Option<string>, timeout: int): (r: Engine)
    requires EngineOk(e) && IsAscii(text)
    ensures EngineOk(r)
  {
    e.(queue := e.queue + [Command(text, waitFor, timeout)])
  }


  /**
    send_next_cmd: nothing when the queue is empty or a command is in
    flight and no resend is forced; otherwise the head is written with its
    checksum, its deadline is `now + timeout`, and it stays in flight until
    its ack, unless it waits for nothing (`""`), when it leaves the queue at once.
  */
  function SendNextCmd(e: Engine, force: bool, now: int): (r: Engine)
    requires EngineOk(e)
    ensures EngineOk(r)
  {
    if |e.queue| == 0 then e
    else if InFlight(e) && !force then e
    else SendHead(e, now)
  }

  /** Writing the head of the queue and arming its deadline and ack. */
  function SendHead(e: Engine, now: int): (r: Engine)
    requires EngineOk(e) && |e.queue| > 0
    ensures EngineOk(r)
  {
    var head := e.queue[0];
    var wire := Wire(head.text);
    var ack := AckOf(head);
    var sent := e.(writes := e.writes + [wire], deadline := Some(now + head.timeout));
    if |ack| > 0 then sent.(waitFor := Some(ack))
    else sent.(waitFor := None, queue := e.queue[1..])
  }

  /**
    check_cmd_response: a sentence starting with the awaited ack retires the
    head and sends the next command; any other sentence after the deadline
    logs `cmd_timeout` and resends the head.
  */
  function CheckCmdResponse(e: Engine, pkt: string, now: int): (r: Engine)
    requires EngineOk(e)
    ensures EngineOk(r)
  {
    if !InFlight(e) then e
    else if StartsWith(pkt, e.waitFor.value) then
      SendNextCmd(e.(waitFor := None, deadline := None, queue := e.queue[1..]), false, now)
    else if now > e.deadline.value then
      SendNextCmd(ErrLog(e, "cmd_timeout", Plain("Timeout sending " + e.queue[0].text)), true, now)
    else e
  }

  // ---------------------------------------------------------------- parse_pkt

  /**
    parse_pkt: the checksum gate, then (for a valid sentence) the ack check,
    the family handler, and the sentence filed under its storage key.
  */
  function ParsePacket(v: Variant, e: Engine, pkt: string, env: Env): (r: Engine)
    requires EngineOk(e) && Admissible(pkt)
    ensures EngineOk(r)
  {
    var verdict := Gate(pkt);
    if verdict.NoStar? || verdict.EmptyBody? then e
    else if verdict.SplitError? then ErrLog(e, "split_err", Plain("Split failed: " + pkt))
    else if verdict.Mismatch? then ErrLog(e, "chkerr", ChecksumMismatch(verdict.computed, verdict.received, pkt))
    else Accept(v, e, pkt, env)
  }

  /** A sentence past the gate: the ack check, the family handler, then the sentence stored under its key. */
  function Accept(v: Variant, e: Engine, pkt: string, env: Env): (r: Engine)
    requires EngineOk(e) && Storable(pkt)
    ensures EngineOk(r)
  {
    var handled := Dispatch(v, CheckCmdResponse(e, pkt, env.now), pkt, env);
    Store(handled, StorageKey(pkt), Sentence(pkt))
  }

  // ---------------------------------------------------------------- run_loop

  /** Framed bytes the engine can take: ASCII, and admissible once decoded. */
  predicate SentenceOk(bytes: seq<byte>) {
    AllAscii(bytes) && Admissible(Decode(bytes))
  }

  /** Every sentence framed from `buf` is ASCII and admissible. */
  predicate SentencesAdmissible(buf: seq<byte>) {
    var sentences := Frames(buf).0;
    forall k :: 0 <= k < |sentences| ==> SentenceOk(sentences[k])
  }

  /** What the first cut leaves is ASCII and admissible too, and so is the sentence it cuts. */
  lemma CutAdmissible(buf: seq<byte>)
    requires AllAscii(buf) && SentencesAdmissible(buf) && Cut(buf).Some?
    ensures var (bytes, rest) := Cut(buf).value;
      SentenceOk(bytes) && AllAscii(rest) && SentencesAdmissible(rest)
  {
    var bytes, rest := Cut(buf).value.0, Cut(buf).value.1;
    CutAscii(buf);
    assert Frames(buf).0 == [bytes] + Frames(rest).0;
    EveryOfCons(bytes, Frames(rest).0, SentenceOk);
  }

  /** What holds of every element of `[first] + more` holds of `first` and of every element of `more`. */
  lemma EveryOfCons<T>(first: T, more: seq<T>, ok: T -> bool)
    requires forall k :: 0 <= k < |[first] + more| ==> ok(([first] + more)[k])
    ensures ok(first) && forall k :: 0 <= k < |more| ==> ok(more[k])
  {
    assert ([first] + more)[0] == first;
    forall k | 0 <= k < |more| ensures ok(more[k]) {
      assert more[k] == ([first] + more)[k + 1];
    }
  }

  /** The extraction loop: cut, track the longest sentence, parse; keep what is left. */
  function Drain(v: Variant, e: Engine, f: Framer, buf: seq<byte>, env: Env): (r: (Engine, Framer))
    requires EngineOk(e) && AllAscii(buf) && SentencesAdmissible(buf)
    ensures EngineOk(r.0) && r.1.buffer == Frames(buf).1
    decreases |buf|
  {
    match Cut(buf)
    case None => (e, f.(buffer := buf))
    case Some((bytes, rest)) =>
      CutAdmissible(buf);
      var pkt := Decode(bytes);
      var e1 := if |pkt| > f.maxPktLen then Store(e, "max_pkt_len", Number(|pkt|)) else e;
      var f1 := if |pkt| > f.maxPktLen then f.(maxPktLen := |pkt|) else f;
      Drain(v, ParsePacket(v, e1, pkt, env), f1, rest, env)
  }

  /** Draining a buffer without a `\r` keeps it whole. */
  lemma DrainStop(v: Variant, e: Engine, f: Framer, buf: seq<byte>, env: Env)
    requires EngineOk(e) && AllAscii(buf) && SentencesAdmissible(buf) && CR !in buf
    ensures Drain(v, e, f, buf, env) == (e, f.(buffer := buf))
  {
  }

  /** Draining a buffer with a `\r` is one cut, then draining the rest. */
  lemma DrainStep(v: Variant, e: Engine, f: Framer, buf: seq<byte>, env: Env, bytes: seq<byte>, rest: seq<byte>)
    requires EngineOk(e) && AllAscii(buf) && SentencesAdmissible(buf) && Cut(buf) == Some((bytes, rest))
    ensures SentenceOk(bytes) && AllAscii(rest) && SentencesAdmissible(rest)
    ensures var pkt := Decode(bytes);
      var e1 := if |pkt| > f.maxPktLen then Store(e, "max_pkt_len", Number(|pkt|)) else e;
      var f1 := if |pkt| > f.maxPktLen then f.(maxPktLen := |pkt|) else f;
      Drain(v, e, f, buf, env) == Drain(v, ParsePacket(v, e1, pkt, env), f1, rest, env)
  {
    CutAdmissible(buf);
  }

  /**
    The bookkeeping of one read before framing: count it, track the largest
    read and the reads over 55 bytes, and offer the bus to the command queue
    when the read was short of 254 bytes.
  */
  function TrackRead(e: Engine, f: Framer, buf: seq<byte>, now: int): (r: (Engine, Framer))
    requires EngineOk(e)
    ensures EngineOk(r.0) && r.1.buffer == f.buffer
  {
    var e0 := e.(readCount := e.readCount + 1);
    var e1 := if |buf| > f.maxBufLen then Store(e0, "max_buf_len", Number(|buf|)) else e0;
    var f1 := if |buf| > f.maxBufLen then f.(maxBufLen := |buf|) else f;
    var f2 := if |buf| > 55 then f1.(lastLargeBuf := e1.readCount, countLargeBuf := f1.countLargeBuf + 1) else f1;
    (if |buf| < 254 then SendNextCmd(e1, false, now) else e1, f2)
  }

  /**
    A non-empty read: record its size and the large-read counters, append
    it to the buffer and drain the buffer.
  */
  function Absorb(v: Variant, e: Engine, f: Framer, buf: seq<byte>, env: Env): (r: (Engine, Framer))
    requires EngineOk(e) && FramerOk(f) && AllAscii(buf) && SentencesAdmissible(f.buffer + buf)
    ensures EngineOk(r.0) && FramerOk(r.1) && r.1.buffer == Frames(f.buffer + buf).1
  {
    var noted := Store(Store(Store(e, "last_read_bytes", Number(|buf|)),
                             "last_large_buf", Number(f.lastLargeBuf)),
                       "count_large_buf", Number(f.countLargeBuf));
    var joined := f.buffer + buf;
    assert AllAscii(joined);
    FramesAscii(joined);
    Drain(v, noted, f, joined, env)
  }

  /**
    One pass of run_loop's body: strip `\n` from both ends of the read, do
    the bookkeeping, and take in a non-empty read.
  */
  function Poll(v: Variant, e: Engine, f: Framer, raw: seq<byte>, env: Env): (r: (Engine, Framer))
    requires EngineOk(e) && FramerOk(f) && AllAscii(raw)
    requires SentencesAdmissible(f.buffer + StripLf(raw))
    ensures EngineOk(r.0) && FramerOk(r.1)
    ensures StripLf(raw) == [] ==> r.1.buffer == f.buffer
    ensures StripLf(raw) != [] ==> r.1.buffer == Frames(f.buffer + StripLf(raw)).1
  {
    var buf := StripLf(raw);
    var tracked := TrackRead(e, f, buf, env.now);
    if |buf| == 0 then tracked else Absorb(v, tracked.0, tracked.1, buf, env)
  }

  /** What the buffer holds after one read. */
  function NextBuffer(buffer: seq<byte>, raw: seq<byte>): seq<byte> {
    if StripLf(raw) == [] then buffer else Frames(buffer + StripLf(raw)).1
  }

  /** Every read is ASCII, and every sentence the framer will cut from them is admissible. */
  ghost predicate ReadsOk(buffer: seq<byte>, chunks: seq<seq<byte>>)
    decreases |chunks|
  {
    |chunks| > 0 ==>
      && AllAscii(chunks[0])
      && SentencesAdmissible(buffer + StripLf(chunks[0]))
      && ReadsOk(NextBuffer(buffer, chunks[0]), chunks[1..])
  }

  /** run_loop over a finite run of bus reads `chunks`, the i-th taken at `envs[i].now`. */
  function Run(v: Variant, e: Engine, f: Framer, chunks: seq<seq<byte>>, envs: seq<Env>): (r: (Engine, Framer))
    requires EngineOk(e) && FramerOk(f) && |envs| == |chunks| && ReadsOk(f.buffer, chunks)
    ensures EngineOk(r.0) && FramerOk(r.1)
    decreases |chunks|
  {
    if |chunks| == 0 then (e, f)
    else
      var (e', f') := Poll(v, e, f, chunks[0], envs[0]);
      Run(v, e', f', chunks[1..], envs[1..])
  }

  /** A run of `chunks` from `e` and `f` is defined and ends in the engine `final`. */
  ghost predicate RunsTo(v: Variant, e: Engine, f: Framer, chunks: seq<seq<byte>>, envs: seq<Env>, final: Engine) {
    && EngineOk(e) && FramerOk(f) && |envs| == |chunks| && ReadsOk(f.buffer, chunks)
    && Run(v, e, f, chunks, envs).0 == final
  }

  /** A run of reads is the first read, then the run of the others. */
  lemma RunStep(v: Variant, e: Engine, f: Framer, chunks: seq<seq<byte>>, envs: seq<Env>)
    requires EngineOk(e) && FramerOk(f) && |envs| == |chunks| > 0 && ReadsOk(f.buffer, chunks)
    ensures AllAscii(chunks[0]) && SentencesAdmissible(f.buffer + StripLf(chunks[0]))
    ensures var (e', f') := Poll(v, e, f, chunks[0], envs[0]);
      ReadsOk(f'.buffer, chunks[1..]) && Run(v, e, f, chunks, envs) == Run(v, e', f', chunks[1..], envs[1..])
  {
  }

  // ---------------------------------------------------------------- setup

  /** The built-in configuration commands, in the order they are queued. */
  function Baseline(): seq<Command> {
    // the first command is written in three pieces only to keep proofs about its text small
    [ Command("$PMTK314,1,1," + "1,1,1,1,0,0,0,0," + "0,0,0,0,0,0,0,1,0", None, 10),  // report intervals
      Command("$PMTK414", Some("$PMTK514"), 10),                           // query report intervals
      Command("$PQPREC,W,6,6,3,1", Some("$PQPREC,W,"), 10),                // decimal places
      Command("$PQTXT,W,1,1", Some("$PQTXT,W,"), 10),                      // TXT sentences
      Command("$PQVEL,W,1,1", Some("$PQVEL,W,"), 10),                      // velocity reporting
      Command("$PQRLM,W,1,1", Some("$PQRLM,W,"), 10),                      // return link messages
      Command("$PMTK869,1,1", None, 10),                                   // EASY
      Command("$PMTK353,1,1,1,1,0", None, 10),                             // constellations
      Command("$PMTK301,2", None, 10),                                     // SBAS DGPS mode
      Command("$PMTK313,1", None, 10) ]                                    // SBAS search
  }

  /** `(cmd, wait_for)` pairs queued with the default timeout of 10 s. */
  function AsCommands(pairs: seq<(string, Option<string>)>): (cs: seq<Command>)
    ensures |cs| == |pairs|
    ensures forall i :: 0 <= i < |pairs| ==> cs[i] == Command(pairs[i].0, pairs[i].1, 10)
  {
    if |pairs| == 0 then [] else AsCommands(pairs[..|pairs| - 1]) + [Command(pairs[|pairs| - 1].0, pairs[|pairs| - 1].1, 10)]
  }
}
