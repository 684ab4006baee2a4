/**
  What the engine promises, stated over the transition functions of module
  Engine: the gate's outcomes, the fix state machine, the clock-sync guard
  chain, the command queue's protocol, and where the two source files differ.
*/
module EngineFacts {
  import opened Wrappers
  import opened PyText
  import opened Numbers
  import opened Nmea
  import opened Framing
  import opened Engine

  /** Everything but the `state` dictionary is left as it was. */
  predicate OnlyStateChanged(e: Engine, r: Engine) {
    r == e.(state := r.state)
  }

  /** Only the dictionary and the log of RTC settings may have changed: the queue, the bus and the counters are as they were. */
  predicate QueueKept(e: Engine, r: Engine) {
    r == e.(state := r.state, rtcSets := r.rtcSets)
  }

  /** Exactly `last_<kind>` and `errcnt_<kind>` changed, and the counter rose by one. */
  ghost predicate LoggedOnly(e: Engine, r: Engine, kind: string) {
    && OnlyStateChanged(e, r)
    && Count(r, kind) == Count(e, kind) + 1
    && SameExcept(e.state, r.state, {"last_" + kind, "errcnt_" + kind})
  }

  /** The two keys errlog writes for a kind. */
  function LogKeys(kind: string): set<string> {
    {"last_" + kind, "errcnt_" + kind}
  }

  /** errlog moves its own counter only. */
  lemma ErrLogCounts(e: Engine, kind: string, msg: Msg, other: string)
    requires EngineOk(e)
    ensures Count(ErrLog(e, kind, msg), other) == Count(e, other) + (if other == kind then 1 else 0)
  {
    CounterKeys(kind);
    CounterKeys(other);
    if other != kind {
      assert "errcnt_" + other != "errcnt_" + kind by {
        assert ("errcnt_" + other)[7..] == other;
      }
    }
  }

  /** Storing under a plain key moves no counter. */
  lemma StoreCounts(e: Engine, key: string, value: Value, other: string)
    requires EngineOk(e) && (PlainKey(key) || (key != "have_fix" && !IsCounterKey(key)))
    ensures Count(Store(e, key, value), other) == Count(e, other)
  {
    CounterKeys(other);
    if PlainKey(key) { NotCounter(key); }
  }

  lemma SetFixCounts(e: Engine, utc: Utc, position: Position, other: string)
    requires EngineOk(e) && other != "last_fix"
    ensures Count(SetFix(e, utc, position), other) == Count(e, other)
  {
    CounterKeys(other);
    var started := if !HasFix(e) then Store(e, "fix_start", FixMark(position, utc)) else e;
    if !HasFix(e) { StoreCounts(e, "fix_start", FixMark(position, utc), other); }
    ErrLogCounts(started.(state := started.state["have_fix" := Flag(true)]), "last_fix", LastFix(position, utc), other);
  }

  lemma ClearFixCounts(e: Engine, source: string, other: string)
    requires EngineOk(e) && other != "clear_fix"
    ensures Count(ClearFix(e, source), other) == Count(e, other)
  {
    CounterKeys(other);
    if HasFix(e) {
      var unset := e.(state := e.state["have_fix" := Flag(false)]);
      StoreCounts(unset, "fix_end", EndMark(source, e.readCount), other);
      ErrLogCounts(Store(unset, "fix_end", EndMark(source, e.readCount)), "clear_fix", Plain(source), other);
    }
  }

  lemma SetGpsTimeCounts(v: Variant, e: Engine, c: Candidate, source: string, drift: Option<nat>, other: string)
    requires EngineOk(e) && other != "gps_time_" + source && other != "rtc_set"
    ensures Count(SetGpsTime(v, e, c, source, drift), other) == Count(e, other)
  {
    var logged := ErrLog(e, "gps_time_" + source, GpsTime(source, c));
    ErrLogCounts(e, "gps_time_" + source, GpsTime(source, c), other);
    if drift.Some? {
      var d := drift.value;
      var e1 := Store(logged, "clock_drift", Number(d));
      StoreCounts(logged, "clock_drift", Number(d), other);
      ErrLogCounts(e1.(rtcSets := e1.rtcSets + [c]), "rtc_set", RtcSet(c, if v == Library then Some(d) else None), other);
    }
  }

  lemma ParseLlFixCounts(e: Engine, ll: seq<string>, floatOk: string -> bool, other: string)
    requires EngineOk(e) && other != "parse_ll_fix_error"
    ensures Count(ParseLlFix(e, ll, floatOk).0, other) == Count(e, other)
    ensures ParseLlFix(e, ll, floatOk).0.state["have_fix"] == e.state["have_fix"]
  {
    ErrLogCounts(e, "parse_ll_fix_error", PositionError(ll), other);
    CounterKeys("parse_ll_fix_error");
  }

  /** The family handlers never touch the command queue, the bus or the read counter. */
  lemma HandlersKeepQueue(v: Variant, e: Engine, pkt: string, env: Env)
    requires EngineOk(e)
    ensures QueueKept(e, Dispatch(v, e, pkt, env))
  {
    var family := Family(pkt);
    if family == "RMC" { RmcKeepsQueue(v, e, pkt, env); }
    else if family == "ZDA" { ZdaKeepsQueue(v, e, pkt, env); }
    else if family == "GLL" { GllKeepsQueue(v, e, pkt, env); }
  }

  lemma RmcKeepsQueue(v: Variant, e: Engine, pkt: string, env: Env)
    requires EngineOk(e)
    ensures QueueKept(e, ParseRmc(v, e, pkt, env))
  {
    var fields := Split(pkt, ',');
    if |fields| >= 3 && fields[2] == "A" {
      var (e1, position) := ParseLlFix(e, RmcPositionFields(v, fields), env.floatOk);
      FixKeepsQueue(e, RmcPositionFields(v, fields), env.floatOk);
      match RmcCandidate(fields, env.floatOk)
      case None =>
      case Some(c) =>
        ClockKeepsQueue(v, e1, c, "rmc", env.driftOf(c));
        var e2 := SetGpsTime(v, e1, c, "rmc", env.driftOf(c));
        assert QueueKept(e2, SetFix(e2, c.utc, position));
    }
  }

  lemma GllKeepsQueue(v: Variant, e: Engine, pkt: string, env: Env)
    requires EngineOk(e)
    ensures QueueKept(e, ParseGll(v, e, pkt, env))
  {
    var fields := Split(pkt, ',');
    if |fields| >= 7 && fields[6] == "A" {
      FixKeepsQueue(e, GllPositionFields(v, fields), env.floatOk);
    }
  }

  lemma ZdaKeepsQueue(v: Variant, e: Engine, pkt: string, env: Env)
    requires EngineOk(e)
    ensures QueueKept(e, ParseZda(v, e, pkt, env))
  {
    match ZdaCandidate(Split(pkt, ','), env.floatOk)
    case None =>
    case Some(c) => ClockKeepsQueue(v, e, c, "zda", env.driftOf(c));
  }

  lemma FixKeepsQueue(e: Engine, ll: seq<string>, floatOk: string -> bool)
    requires EngineOk(e)
    ensures QueueKept(e, ParseLlFix(e, ll, floatOk).0)
  {
  }

  lemma ClockKeepsQueue(v: Variant, e: Engine, c: Candidate, source: string, drift: Option<nat>)
    requires EngineOk(e)
    ensures QueueKept(e, SetGpsTime(v, e, c, source, drift))
  {
  }

  // ---------------------------------------------------------------- the gate

  /** A sentence with no `*` leaves the engine as it was. */
  lemma NoStarIgnored(v: Variant, e: Engine, pkt: string, env: Env)
    requires EngineOk(e) && Admissible(pkt) && '*' !in pkt
    ensures ParsePacket(v, e, pkt, env) == e
  {
    assert Gate(pkt) == NoStar;
  }

  /** Every ASCII sentence the gate turns away is admissible, whatever key it would have been filed under. */
  lemma GateRejectedAdmissible(pkt: string)
    requires IsAscii(pkt) && Gate(pkt) != Valid
    ensures Admissible(pkt)
  {
  }

  /** A fragment naming the fix flag but carrying no `*` is taken and ignored, like any other. */
  lemma FlagFragmentIgnored(v: Variant, e: Engine, env: Env)
    requires EngineOk(e)
    ensures Admissible("have_fix,1") && ParsePacket(v, e, "have_fix,1", env) == e
  {
    var pkt := "have_fix,1";
    assert '*' !in pkt;
    assert Gate(pkt) == NoStar;
  }

  /** A sentence with nothing before its only `*` and a hex suffix leaves the engine as it was. */
  lemma EmptyBodyIgnored(v: Variant, e: Engine, pkt: string, env: Env)
    requires EngineOk(e) && Admissible(pkt)
    requires |pkt| > 0 && pkt[0] == '*' && '*' !in pkt[1..] && ParseHex(pkt[1..]).Some?
    ensures ParsePacket(v, e, pkt, env) == e
  {
    EmptyBodyGate(pkt);
  }

  /**
    A sentence that does not split into exactly two parts at `*`, or whose
    suffix is no hex number, records `split_err` and nothing else.
  */
  lemma SplitErrorLogsOnly(v: Variant, e: Engine, pkt: string, env: Env)
    requires EngineOk(e) && Admissible(pkt) && '*' in pkt
    requires |Split(pkt, '*')| != 2 || ParseHex(Split(pkt, '*')[1]).None?
    ensures LoggedOnly(e, ParsePacket(v, e, pkt, env), "split_err")
  {
    SplitErrorGate(pkt);
  }

  /**
    A sentence goes on to the ack check and the dispatcher exactly when it is
    well formed: one `*`, a non-empty body, a hex suffix equal to the XOR of
    the body without its leading `$`.
  */
  lemma WellFormedAccepted(v: Variant, e: Engine, pkt: string, env: Env)
    requires EngineOk(e) && Admissible(pkt)
    ensures (exists k :: WellFormedAt(pkt, k)) ==> Gate(pkt) == Valid && ParsePacket(v, e, pkt, env) == Accept(v, e, pkt, env)
    ensures !(exists k :: WellFormedAt(pkt, k)) ==> !Gate(pkt).Valid?
  {
    GateValidIff(pkt);
  }

  /** A mismatching checksum records `chkerr` and nothing else. */
  lemma MismatchLogsOnly(v: Variant, e: Engine, pkt: string, env: Env)
    requires EngineOk(e) && Admissible(pkt) && Gate(pkt).Mismatch?
    ensures LoggedOnly(e, ParsePacket(v, e, pkt, env), "chkerr")
  {
    var g := Gate(pkt);
    assert ParsePacket(v, e, pkt, env) == ErrLog(e, "chkerr", ChecksumMismatch(g.computed, g.received, pkt));
  }

  /** Every checksum-valid sentence is stored verbatim under its storage key. */
  lemma ValidSentenceStored(v: Variant, e: Engine, pkt: string, env: Env)
    requires EngineOk(e) && Admissible(pkt) && Gate(pkt) == Valid
    ensures var r := ParsePacket(v, e, pkt, env);
      StorageKey(pkt) in r.state && r.state[StorageKey(pkt)] == Sentence(pkt)
  {
  }

  /**
    The storage key of a sentence with no comma is the sentence without its
    last character (the checksum's last digit goes with it).
  */
  lemma CommalessKey(pkt: string)
    requires ',' !in pkt && |pkt| > 0
    ensures StorageKey(pkt) == pkt[..|pkt| - 1]
  {
    assert Split(pkt, ',') == [pkt];
  }

  // ---------------------------------------------------------------- fix state machine

  /**
    set_fix: the fix holds afterwards; `fix_start` is written on the
    transition from no fix and left alone otherwise; `last_fix` is logged.
  */
  lemma SetFixEffect(e: Engine, utc: Utc, position: Position)
    requires EngineOk(e)
    ensures var r := SetFix(e, utc, position);
      && HasFix(r) && OnlyStateChanged(e, r)
      && Count(r, "last_fix") == Count(e, "last_fix") + 1
      && (!HasFix(e) ==> "fix_start" in r.state && r.state["fix_start"] == FixMark(position, utc))
      && (HasFix(e) ==> ("fix_start" in r.state <==> "fix_start" in e.state))
      && (HasFix(e) && "fix_start" in e.state ==> r.state["fix_start"] == e.state["fix_start"])
      && SameExcept(e.state, r.state, {"have_fix", "fix_start", "last_last_fix", "errcnt_last_fix"})
  {
    CounterKeys("last_fix");
    assert "last_" + "last_fix" == "last_last_fix" && "errcnt_" + "last_fix" == "errcnt_last_fix";
  }

  /** A second set_fix keeps the start of the first. */
  lemma RepeatedSetFixKeepsStart(e: Engine, u1: Utc, p1: Position, u2: Utc, p2: Position)
    requires EngineOk(e) && !HasFix(e)
    ensures SetFix(SetFix(e, u1, p1), u2, p2).state["fix_start"] == FixMark(p1, u1)
  {
    SetFixEffect(e, u1, p1);
    SetFixEffect(SetFix(e, u1, p1), u2, p2);
  }

  /**
    clear_fix: without a fix nothing happens; with one, the fix is dropped,
    `fix_end` names the source and read, and `clear_fix` is logged.
  */
  lemma ClearFixEffect(e: Engine, source: string)
    requires EngineOk(e)
    ensures !HasFix(e) ==> ClearFix(e, source) == e
    ensures HasFix(e) ==> var r := ClearFix(e, source);
      && !HasFix(r) && OnlyStateChanged(e, r)
      && "fix_end" in r.state && r.state["fix_end"] == EndMark(source, e.readCount)
      && Count(r, "clear_fix") == Count(e, "clear_fix") + 1
      && SameExcept(e.state, r.state, {"have_fix", "fix_end", "last_clear_fix", "errcnt_clear_fix"})
  {
    CounterKeys("clear_fix");
    assert "last_" + "clear_fix" == "last_clear_fix" && "errcnt_" + "clear_fix" == "errcnt_clear_fix";
  }

  /** Void, active, void: the fix starts and ends once each, each transition logged once. */
  lemma {:induction false} FixCycle(e: Engine, utc: Utc, position: Position, source: string)
    requires EngineOk(e) && !HasFix(e)
    ensures var r := ClearFix(SetFix(ClearFix(e, source), utc, position), source);
      && !HasFix(r)
      && r.state["fix_start"] == FixMark(position, utc)
      && r.state["fix_end"] == EndMark(source, e.readCount)
      && Count(r, "clear_fix") == Count(e, "clear_fix") + 1
      && Count(r, "last_fix") == Count(e, "last_fix") + 1
  {
    ClearFixEffect(e, source);
    var a := SetFix(e, utc, position);
    SetFixEffect(e, utc, position);
    ClearFixEffect(a, source);
    CounterKeys("clear_fix");
    CounterKeys("last_fix");
    // the keys differ in length
    assert |"errcnt_last_fix"| != |"errcnt_clear_fix"|;
    assert "fix_start" !in {"have_fix", "fix_end", "last_clear_fix", "errcnt_clear_fix"};
  }

  // ---------------------------------------------------------------- set_gps_time

  lemma GpsTimeKeys(source: string)
    ensures "errcnt_gps_time_" + source != "errcnt_rtc_set" && "errcnt_gps_time_" + source != "clock_drift"
  {
    assert ("errcnt_gps_time_" + source)[7] == 'g';
    assert ("errcnt_gps_time_" + source)[0] == 'e';
  }

  /**
    set_gps_time always logs the candidate first; it records the drift iff
    every guard holds and the drift could be computed, and sets the RTC iff
    in addition the drift exceeds 60 s. A drift computation that raises
    leaves only the log entry behind.
  */
  lemma SetGpsTimeDecides(v: Variant, e: Engine, c: Candidate, source: string, drift: Option<nat>)
    requires EngineOk(e)
    ensures var r := SetGpsTime(v, e, c, source, drift);
      && Count(r, "gps_time_" + source) == Count(e, "gps_time_" + source) + 1
      && r.queue == e.queue && r.waitFor == e.waitFor && r.writes == e.writes
      && (r.rtcSets == e.rtcSets + [c] <==> ClockGuards(v, e, c) && drift.Some? && drift.value > 60)
      && (r.rtcSets == e.rtcSets || r.rtcSets == e.rtcSets + [c])
      && (ClockGuards(v, e, c) && drift.Some? ==> "clock_drift" in r.state && r.state["clock_drift"] == Number(drift.value))
      && (!ClockGuards(v, e, c) || drift.None? ==> LoggedOnly(e, r, "gps_time_" + source))
  {
    var logged := ErrLog(e, "gps_time_" + source, GpsTime(source, c));
    GpsTimeKeys(source);
    CounterKeys("rtc_set");
    assert |e.rtcSets + [c]| != |e.rtcSets|;
    if ClockGuards(v, e, c) && drift.Some? {
      var e1 := Store(logged, "clock_drift", Number(drift.value));
      assert Count(e1, "gps_time_" + source) == Count(logged, "gps_time_" + source);
    }
  }

  /** A candidate from 2010 or earlier never reaches the clock, in either file. */
  lemma OldYearRejected(v: Variant, e: Engine, c: Candidate, source: string, drift: Option<nat>)
    requires EngineOk(e) && c.year <= 2010
    ensures LoggedOnly(e, SetGpsTime(v, e, c, source, drift), "gps_time_" + source)
  {
    SetGpsTimeDecides(v, e, c, source, drift);
  }

  /** In lib/gps_poller.py a trusted local clock (RTC mode) is never set from GPS time. */
  lemma RtcModeNeverSet(e: Engine, c: Candidate, source: string, drift: Option<nat>)
    requires EngineOk(e) && e.mode == RtcMode
    ensures SetGpsTime(Library, e, c, source, drift).rtcSets == e.rtcSets
  {
    SetGpsTimeDecides(Library, e, c, source, drift);
  }

  /** main.py sets the RTC in RTC mode too: an empty queue, a full time, a year after 2010 and drift over 60 s suffice. */
  lemma MainIgnoresTimeMode(e: Engine, c: Candidate, source: string, drift: Option<nat>)
    requires EngineOk(e) && e.mode == RtcMode && |e.queue| == 0 && c.utc.Utc? && c.year > 2010
    requires drift.Some? && drift.value > 60
    ensures SetGpsTime(MainScript, e, c, source, drift).rtcSets == e.rtcSets + [c]
    ensures SetGpsTime(Library, e, c, source, drift).rtcSets == e.rtcSets
  {
    SetGpsTimeDecides(MainScript, e, c, source, drift);
    SetGpsTimeDecides(Library, e, c, source, drift);
  }

  /** A drift of a minute or less is recorded but not corrected. */
  lemma SmallDriftNotCorrected(v: Variant, e: Engine, c: Candidate, source: string, drift: Option<nat>)
    requires EngineOk(e) && ClockGuards(v, e, c) && drift.Some? && drift.value <= 60
    ensures var r := SetGpsTime(v, e, c, source, drift);
      r.rtcSets == e.rtcSets && r.state["clock_drift"] == Number(drift.value)
  {
    SetGpsTimeDecides(v, e, c, source, drift);
  }

  // ---------------------------------------------------------------- sentence handlers

  /** An RMC sentence with fewer than three fields raises before any effect; a non-`A` status only clears the fix. */
  lemma RmcStatus(v: Variant, e: Engine, pkt: string, env: Env)
    requires EngineOk(e)
    ensures |Split(pkt, ',')| < 3 ==> ParseRmc(v, e, pkt, env) == e
    ensures |Split(pkt, ',')| >= 3 && Split(pkt, ',')[2] != "A" ==> ParseRmc(v, e, pkt, env) == ClearFix(e, "rmc")
  {
  }

  /** The RMC date and time, read as parse_rmc reads them: field 9 as `ddmmyy`, field 1 as the time of day. */
  lemma RmcCandidateReads(fields: seq<string>, floatOk: string -> bool)
    ensures RmcCandidate(fields, floatOk).Some? <==> |fields| >= 10 && RmcDate(fields[9]).Some?
    ensures RmcCandidate(fields, floatOk).Some? ==>
      var (dd, mm, yy) := RmcDate(fields[9]).value;
      RmcCandidate(fields, floatOk).value == Candidate(yy, mm, dd, ParseGpsUtc(fields[1], floatOk))
  {
  }

  /**
    An active RMC sentence with a readable date whose drift can be computed
    offers the time to the clock (one `gps_time_rmc` entry) and then sets
    the fix (one `last_fix` entry).
  */
  lemma RmcActiveDated(v: Variant, e: Engine, pkt: string, env: Env)
    requires EngineOk(e)
    requires var fields := Split(pkt, ',');
      |fields| >= 3 && fields[2] == "A" && RmcCandidate(fields, env.floatOk).Some?
      && !DriftRaises(v, e, RmcCandidate(fields, env.floatOk).value, env.driftOf(RmcCandidate(fields, env.floatOk).value))
    ensures var r := ParseRmc(v, e, pkt, env);
      HasFix(r) && Count(r, "gps_time_rmc") == Count(e, "gps_time_rmc") + 1
      && Count(r, "last_fix") == Count(e, "last_fix") + 1
  {
    var fields := Split(pkt, ',');
    var (e1, position) := ParseLlFix(e, RmcPositionFields(v, fields), env.floatOk);
    var c := RmcCandidate(fields, env.floatOk).value;
    RmcActiveSteps(v, e, pkt, env, e1, position, c);
    ParseLlFixCounts(e, RmcPositionFields(v, fields), env.floatOk, "gps_time_rmc");
    ParseLlFixCounts(e, RmcPositionFields(v, fields), env.floatOk, "last_fix");
    TimeThenFix(v, e1, c, position, env.driftOf(c));
  }

  /**
    An active RMC sentence with a readable date whose drift computation
    raises: the candidate is logged, the handler's failure is logged, and
    neither the fix, the clock nor the recorded drift changes.
  */
  lemma RmcDriftRaises(v: Variant, e: Engine, pkt: string, env: Env)
    requires EngineOk(e)
    requires var fields := Split(pkt, ',');
      |fields| >= 3 && fields[2] == "A" && RmcCandidate(fields, env.floatOk).Some?
      && DriftRaises(v, e, RmcCandidate(fields, env.floatOk).value, env.driftOf(RmcCandidate(fields, env.floatOk).value))
    ensures var r := ParseRmc(v, e, pkt, env);
      && HasFix(r) == HasFix(e)
      && Count(r, "gps_time_rmc") == Count(e, "gps_time_rmc") + 1
      && Count(r, "parse_rmc_fail") == Count(e, "parse_rmc_fail") + 1
      && Count(r, "last_fix") == Count(e, "last_fix")
      && r.rtcSets == e.rtcSets && r.queue == e.queue && r.writes == e.writes
      && ("clock_drift" in r.state <==> "clock_drift" in e.state)
      && ("clock_drift" in e.state ==> r.state["clock_drift"] == e.state["clock_drift"])
  {
    var fields := Split(pkt, ',');
    var (e1, position) := ParseLlFix(e, RmcPositionFields(v, fields), env.floatOk);
    var c := RmcCandidate(fields, env.floatOk).value;
    var msg := Plain("Failed to parse: " + pkt);
    assert ParseRmc(v, e, pkt, env) == ErrLog(SetGpsTime(v, e1, c, "rmc", env.driftOf(c)), "parse_rmc_fail", msg);
    RmcTimeThenFail(v, e, RmcPositionFields(v, fields), env.floatOk, c, env.driftOf(c), msg);
  }

  /**
    The rest of an RMC sentence whose drift raises, from the position on:
    two log entries, and the fix and the drift as they were.
  */
  lemma RmcTimeThenFail(v: Variant, e: Engine, ll: seq<string>, floatOk: string -> bool, c: Candidate, drift: Option<nat>, msg: Msg)
    requires EngineOk(e) && DriftRaises(v, e, c, drift)
    ensures var r := ErrLog(SetGpsTime(v, ParseLlFix(e, ll, floatOk).0, c, "rmc", drift), "parse_rmc_fail", msg);
      && HasFix(r) == HasFix(e)
      && Count(r, "gps_time_rmc") == Count(e, "gps_time_rmc") + 1
      && Count(r, "parse_rmc_fail") == Count(e, "parse_rmc_fail") + 1
      && Count(r, "last_fix") == Count(e, "last_fix")
      && r.rtcSets == e.rtcSets && r.queue == e.queue && r.writes == e.writes
      && ("clock_drift" in r.state <==> "clock_drift" in e.state)
      && ("clock_drift" in e.state ==> r.state["clock_drift"] == e.state["clock_drift"])
  {
    var e1 := ParseLlFix(e, ll, floatOk).0;
    var e2 := SetGpsTime(v, e1, c, "rmc", drift);
    var r := ErrLog(e2, "parse_rmc_fail", msg);
    TimeThenFail(v, e1, c, "rmc", drift, "parse_rmc_fail", msg);
    assert Count(r, "gps_time_rmc") == Count(e, "gps_time_rmc") + 1 by {
      ParseLlFixCounts(e, ll, floatOk, "gps_time_rmc");
      assert "gps_time_" + "rmc" == "gps_time_rmc";
    }
    assert Count(r, "parse_rmc_fail") == Count(e, "parse_rmc_fail") + 1 by {
      ParseLlFixCounts(e, ll, floatOk, "parse_rmc_fail");
      SetGpsTimeCounts(v, e1, c, "rmc", drift, "parse_rmc_fail");
    }
    assert Count(r, "last_fix") == Count(e, "last_fix") by {
      ParseLlFixCounts(e, ll, floatOk, "last_fix");
      SetGpsTimeCounts(v, e1, c, "rmc", drift, "last_fix");
      ErrLogCounts(e2, "parse_rmc_fail", msg, "last_fix");
    }
    KeepsKey(e1.state, r.state, LogKeys("gps_time_" + "rmc") + LogKeys("parse_rmc_fail"), "have_fix");
    KeepsKey(e1.state, r.state, LogKeys("gps_time_" + "rmc") + LogKeys("parse_rmc_fail"), "clock_drift");
    ParseLlFixCounts(e, ll, floatOk, "last_fix");
    KeepsKey(e.state, e1.state, LogKeys("parse_ll_fix_error"), "clock_drift");
  }

  /** A key outside the changed ones keeps its presence and its value. */
  lemma KeepsKey(m: map<string, Value>, m': map<string, Value>, keys: set<string>, k: string)
    requires SameExcept(m, m', keys) && k !in keys
    ensures (k in m <==> k in m') && (k in m ==> m'[k] == m[k])
  {
  }

  /**
    set_gps_time whose drift raises, followed by the handler's own failure
    entry: the two log entries are the only change.
  */
  lemma TimeThenFail(v: Variant, e: Engine, c: Candidate, source: string, drift: Option<nat>, fail: string, msg: Msg)
    requires EngineOk(e) && DriftRaises(v, e, c, drift)
    ensures var r := ErrLog(SetGpsTime(v, e, c, source, drift), fail, msg);
      && r.rtcSets == e.rtcSets && r.queue == e.queue && r.writes == e.writes
      && Count(r, "gps_time_" + source) == Count(e, "gps_time_" + source) + (if fail == "gps_time_" + source then 2 else 1)
      && SameExcept(e.state, r.state, LogKeys("gps_time_" + source) + LogKeys(fail))
  {
    var e1 := SetGpsTime(v, e, c, source, drift);
    SetGpsTimeDecides(v, e, c, source, drift);
    ErrLogCounts(e1, fail, msg, "gps_time_" + source);
  }

  /** An active RMC sentence with a readable date is: the position, then set_gps_time, then set_fix. */
  lemma RmcActiveSteps(v: Variant, e: Engine, pkt: string, env: Env, e1: Engine, position: Position, c: Candidate)
    requires EngineOk(e)
    requires var fields := Split(pkt, ',');
      |fields| >= 3 && fields[2] == "A" && RmcCandidate(fields, env.floatOk) == Some(c)
      && !DriftRaises(v, e, c, env.driftOf(c))
    requires (e1, position) == ParseLlFix(e, RmcPositionFields(v, Split(pkt, ',')), env.floatOk)
    ensures EngineOk(e1)
    ensures ParseRmc(v, e, pkt, env) == SetFix(SetGpsTime(v, e1, c, "rmc", env.driftOf(c)), c.utc, position)
  {
  }

  /** set_gps_time followed by set_fix: one entry of each, and the fix holds. */
  lemma TimeThenFix(v: Variant, e1: Engine, c: Candidate, position: Position, drift: Option<nat>)
    requires EngineOk(e1)
    ensures var r := SetFix(SetGpsTime(v, e1, c, "rmc", drift), c.utc, position);
      HasFix(r) && Count(r, "gps_time_rmc") == Count(e1, "gps_time_rmc") + 1
      && Count(r, "last_fix") == Count(e1, "last_fix") + 1
  {
    var e2 := SetGpsTime(v, e1, c, "rmc", drift);
    assert "gps_time_" + "rmc" == "gps_time_rmc";
    SetGpsTimeDecides(v, e1, c, "rmc", drift);
    SetGpsTimeCounts(v, e1, c, "rmc", drift, "last_fix");
    SetFixEffect(e2, c.utc, position);
    SetFixCounts(e2, c.utc, position, "gps_time_rmc");
  }

  /** An active RMC sentence without a readable date logs `parse_rmc_fail` and leaves the fix as it was. */
  lemma RmcActiveUndated(v: Variant, e: Engine, pkt: string, env: Env)
    requires EngineOk(e)
    requires var fields := Split(pkt, ',');
      |fields| >= 3 && fields[2] == "A" && (|fields| < 10 || RmcDate(fields[9]).None?)
    ensures var r := ParseRmc(v, e, pkt, env);
      HasFix(r) == HasFix(e) && Count(r, "parse_rmc_fail") == Count(e, "parse_rmc_fail") + 1
  {
    var fields := Split(pkt, ',');
    var (e1, position) := ParseLlFix(e, RmcPositionFields(v, fields), env.floatOk);
    ParseLlFixCounts(e, RmcPositionFields(v, fields), env.floatOk, "parse_rmc_fail");
    ErrLogCounts(e1, "parse_rmc_fail", Plain("Failed to parse: " + pkt), "parse_rmc_fail");
    CounterKeys("parse_rmc_fail");
  }

  /** A six-digit date reads as day, month and a year of the 2000s. */
  lemma RmcDateSixDigits(ddmmyy: string)
    requires |ddmmyy| == 6 && AllDigits(ddmmyy, 10)
    ensures RmcDate(ddmmyy).Some?
    ensures var (dd, mm, yy) := RmcDate(ddmmyy).value;
      dd == DigitsValue(ddmmyy[..2], 10) && mm == DigitsValue(ddmmyy[2..4], 10)
      && yy == 2000 + DigitsValue(ddmmyy[4..], 10) && 2000 <= yy < 2100
  {
    var d, m, y := ddmmyy[..2], ddmmyy[2..4], ddmmyy[4..];
    assert Slice(ddmmyy, 0, 2) == d && Slice(ddmmyy, 2, 4) == m && Drop(ddmmyy, 4) == y;
    assert AllDigits(d, 10) && AllDigits(m, 10) && AllDigits(y, 10);
    ParseIntDigits(d);
    ParseIntDigits(m);
    ParseIntDigits(y);
    TwoDigitsBelow100(y);
  }

  /** A GLL sentence with fewer than seven fields raises before any effect; a non-`A` status only clears the fix. */
  lemma GllStatus(v: Variant, e: Engine, pkt: string, env: Env)
    requires EngineOk(e)
    ensures |Split(pkt, ',')| < 7 ==> ParseGll(v, e, pkt, env) == e
    ensures |Split(pkt, ',')| >= 7 && Split(pkt, ',')[6] != "A" ==> ParseGll(v, e, pkt, env) == ClearFix(e, "gll")
  {
  }

  /** An active GLL sentence always sets the fix: nothing it does can fail, so `parse_gll_fail` never moves. */
  lemma GllActive(v: Variant, e: Engine, pkt: string, env: Env)
    requires EngineOk(e)
    requires |Split(pkt, ',')| >= 7 && Split(pkt, ',')[6] == "A"
    ensures var r := ParseGll(v, e, pkt, env);
      HasFix(r) && Count(r, "last_fix") == Count(e, "last_fix") + 1
      && Count(r, "parse_gll_fail") == Count(e, "parse_gll_fail")
  {
    var fields := Split(pkt, ',');
    var (e1, position) := ParseLlFix(e, GllPositionFields(v, fields), env.floatOk);
    var utc := ParseGpsUtc(fields[5], env.floatOk);
    assert ParseGll(v, e, pkt, env) == SetFix(e1, utc, position);
    ParseLlFixCounts(e, GllPositionFields(v, fields), env.floatOk, "last_fix");
    ParseLlFixCounts(e, GllPositionFields(v, fields), env.floatOk, "parse_gll_fail");
    SetFixEffect(e1, utc, position);
    SetFixCounts(e1, utc, position, "parse_gll_fail");
  }

  /** A ZDA sentence with fewer than five fields or an unreadable date only logs `parse_zda_fail`. */
  lemma ZdaFailure(v: Variant, e: Engine, pkt: string, env: Env)
    requires EngineOk(e)
    requires var fields := Split(pkt, ',');
      |fields| < 5 || ParseInt(fields[2]).None? || ParseInt(fields[3]).None? || ParseInt(fields[4]).None?
    ensures LoggedOnly(e, ParseZda(v, e, pkt, env), "parse_zda_fail")
  {
  }

  /**
    A ZDA sentence with a readable date offers it to the clock as written,
    with no year pivot; if the drift cannot be computed, `parse_zda_fail`
    is logged after the candidate and nothing else changes.
  */
  lemma ZdaOffersDate(v: Variant, e: Engine, pkt: string, env: Env)
    requires EngineOk(e)
    requires var fields := Split(pkt, ',');
      |fields| >= 5 && ParseInt(fields[2]).Some? && ParseInt(fields[3]).Some? && ParseInt(fields[4]).Some?
    ensures var fields := Split(pkt, ',');
      var c := Candidate(ParseInt(fields[4]).value, ParseInt(fields[3]).value, ParseInt(fields[2]).value,
                         ParseGpsUtc(fields[1], env.floatOk));
      && (!DriftRaises(v, e, c, env.driftOf(c)) ==> ParseZda(v, e, pkt, env) == SetGpsTime(v, e, c, "zda", env.driftOf(c)))
      && (DriftRaises(v, e, c, env.driftOf(c)) ==>
            ParseZda(v, e, pkt, env) == ErrLog(SetGpsTime(v, e, c, "zda", env.driftOf(c)), "parse_zda_fail", Plain("Failed to parse: " + pkt)))
  {
    var fields := Split(pkt, ',');
    var c := Candidate(ParseInt(fields[4]).value, ParseInt(fields[3]).value, ParseInt(fields[2]).value,
                       ParseGpsUtc(fields[1], env.floatOk));
    assert ZdaCandidate(fields, env.floatOk) == Some(c);
  }

  /** A ZDA sentence whose drift computation raises logs the candidate and `parse_zda_fail`, and leaves the clock alone. */
  lemma ZdaDriftRaises(v: Variant, e: Engine, pkt: string, env: Env)
    requires EngineOk(e)
    requires var fields := Split(pkt, ',');
      |fields| >= 5 && ParseInt(fields[2]).Some? && ParseInt(fields[3]).Some? && ParseInt(fields[4]).Some?
      && var c := Candidate(ParseInt(fields[4]).value, ParseInt(fields[3]).value, ParseInt(fields[2]).value,
                            ParseGpsUtc(fields[1], env.floatOk));
         DriftRaises(v, e, c, env.driftOf(c))
    ensures var r := ParseZda(v, e, pkt, env);
      && Count(r, "gps_time_zda") == Count(e, "gps_time_zda") + 1
      && Count(r, "parse_zda_fail") == Count(e, "parse_zda_fail") + 1
      && r.rtcSets == e.rtcSets && r.queue == e.queue && r.writes == e.writes
      && SameExcept(e.state, r.state, LogKeys("gps_time_zda") + LogKeys("parse_zda_fail"))
  {
    var fields := Split(pkt, ',');
    var c := Candidate(ParseInt(fields[4]).value, ParseInt(fields[3]).value, ParseInt(fields[2]).value,
                       ParseGpsUtc(fields[1], env.floatOk));
    var msg := Plain("Failed to parse: " + pkt);
    ZdaOffersDate(v, e, pkt, env);
    ZdaTimeThenFail(v, e, c, env.driftOf(c), msg);
  }

  /** The tail of a ZDA sentence whose drift raises: two log entries and nothing else. */
  lemma ZdaTimeThenFail(v: Variant, e: Engine, c: Candidate, drift: Option<nat>, msg: Msg)
    requires EngineOk(e) && DriftRaises(v, e, c, drift)
    ensures var r := ErrLog(SetGpsTime(v, e, c, "zda", drift), "parse_zda_fail", msg);
      && Count(r, "gps_time_zda") == Count(e, "gps_time_zda") + 1
      && Count(r, "parse_zda_fail") == Count(e, "parse_zda_fail") + 1
      && r.rtcSets == e.rtcSets && r.queue == e.queue && r.writes == e.writes
      && SameExcept(e.state, r.state, LogKeys("gps_time_zda") + LogKeys("parse_zda_fail"))
  {
    TimeThenFail(v, e, c, "zda", drift, "parse_zda_fail", msg);
    assert "gps_time_" + "zda" == "gps_time_zda";
    SetGpsTimeCounts(v, e, c, "zda", drift, "parse_zda_fail");
  }

  // ---------------------------------------------------------------- parse_ll_fix

  /** lib/gps_poller.py reads a position from four fields whose numbers `float()` accepts. */
  lemma LibraryReadsPosition(e: Engine, fields: seq<string>, floatOk: string -> bool)
    requires EngineOk(e) && |fields| >= 7
    requires floatOk(Slice(fields[3], 0, 2)) && floatOk(Drop(fields[3], 2))
    requires floatOk(Slice(fields[5], 0, 3)) && floatOk(Drop(fields[5], 3))
    ensures var (r, p) := ParseLlFix(e, RmcPositionFields(Library, fields), floatOk);
      r == e && p == Position(Coord(Slice(fields[3], 0, 2), Drop(fields[3], 2), fields[4] == "S"),
                              Coord(Slice(fields[5], 0, 3), Drop(fields[5], 3), fields[6] == "W"))
  {
    var ll := RmcPositionFields(Library, fields);
    assert ll == fields[3..7];
    assert ll[0] == fields[3] && ll[1] == fields[4] && ll[2] == fields[5] && ll[3] == fields[6];
  }

  /** lib/gps_poller.py reads a GLL position from fields 1 to 4 the same way. */
  lemma LibraryReadsGllPosition(e: Engine, fields: seq<string>, floatOk: string -> bool)
    requires EngineOk(e) && |fields| >= 7
    requires floatOk(Slice(fields[1], 0, 2)) && floatOk(Drop(fields[1], 2))
    requires floatOk(Slice(fields[3], 0, 3)) && floatOk(Drop(fields[3], 3))
    ensures var (r, p) := ParseLlFix(e, GllPositionFields(Library, fields), floatOk);
      r == e && p == Position(Coord(Slice(fields[1], 0, 2), Drop(fields[1], 2), fields[2] == "S"),
                              Coord(Slice(fields[3], 0, 3), Drop(fields[3], 3), fields[4] == "W"))
  {
    var ll := GllPositionFields(Library, fields);
    assert ll == fields[1..5];
    assert ll[0] == fields[1] && ll[1] == fields[2] && ll[2] == fields[3] && ll[3] == fields[4];
  }

  /** main.py hands parse_ll_fix three fields, so every RMC or GLL position fails and is logged. */
  lemma MainPositionAlwaysFails(e: Engine, fields: seq<string>, floatOk: string -> bool)
    requires EngineOk(e)
    ensures var (r, p) := ParseLlFix(e, RmcPositionFields(MainScript, fields), floatOk);
      p == NoPosition && LoggedOnly(e, r, "parse_ll_fix_error")
    ensures var (r, p) := ParseLlFix(e, GllPositionFields(MainScript, fields), floatOk);
      p == NoPosition && LoggedOnly(e, r, "parse_ll_fix_error")
  {
    assert |RmcPositionFields(MainScript, fields)| <= 3;
    assert |GllPositionFields(MainScript, fields)| <= 3;
  }

  // ---------------------------------------------------------------- command queue

  /** send_next_cmd does nothing on an empty queue, or while a command is in flight unless forced. */
  lemma SendIdle(e: Engine, force: bool, now: int)
    requires EngineOk(e) && (|e.queue| == 0 || (InFlight(e) && !force))
    ensures SendNextCmd(e, force, now) == e
  {
  }

  /**
    Otherwise it writes the head in wire form and sets its deadline; the head
    leaves the queue at once exactly when it waits for nothing (`""`), and
    otherwise becomes the command in flight awaiting its ack.
  */
  lemma SendWritesHead(e: Engine, force: bool, now: int)
    requires EngineOk(e) && |e.queue| > 0 && (!InFlight(e) || force)
    ensures var r := SendNextCmd(e, force, now); var head := e.queue[0];
      && r.writes == e.writes + [Wire(head.text)]
      && r.deadline == Some(now + head.timeout)
      && r.state == e.state && r.rtcSets == e.rtcSets
      && (r.queue == e.queue[1..] <==> head.waitFor == Some(""))
      && (head.waitFor == Some("") ==> r.waitFor == None)
      && (head.waitFor != Some("") ==> r.queue == e.queue && r.waitFor == Some(AckOf(head)) && InFlight(r))
  {
    var head := e.queue[0];
    assert |e.queue[1..]| != |e.queue|;
    if head.waitFor.None? {
      assert |AckOf(head)| > 0;
    }
  }

  /** The default ack names the command's packet type: `$PMTK001,<cmd[5:8]>,3`. */
  lemma DefaultAckNamesType(cmd: string)
    requires IsAscii(cmd) && |cmd| >= 8
    ensures DefaultAck(Wire(cmd)) == "$PMTK001," + cmd[5..8] + ",3"
  {
    assert Wire(cmd)[5..8] == cmd[5..8];
  }

  /**
    A sentence starting with the awaited ack retires exactly the head and
    sends the next command, if any.
  */
  lemma AckRetiresHead(e: Engine, pkt: string, now: int)
    requires EngineOk(e) && InFlight(e) && StartsWith(pkt, e.waitFor.value)
    ensures var r := CheckCmdResponse(e, pkt, now);
      && r.state == e.state && r.rtcSets == e.rtcSets
      && (|e.queue| == 1 ==> r.queue == [] && r.waitFor == None && r.deadline == None && r.writes == e.writes)
      && (|e.queue| > 1 ==>
            var next := e.queue[1];
            && r.writes == e.writes + [Wire(next.text)]
            && r.deadline == Some(now + next.timeout)
            && r.queue == (if next.waitFor == Some("") then e.queue[2..] else e.queue[1..])
            && r.waitFor == (if next.waitFor == Some("") then None else Some(AckOf(next))))
  {
    var popped := e.(waitFor := None, deadline := None, queue := e.queue[1..]);
    if |e.queue| > 1 {
      SendWritesHead(popped, false, now);
      assert e.queue[1..][1..] == e.queue[2..];
    }
  }

  /**
    Any other sentence after the deadline counts a `cmd_timeout` and resends
    the same head, which stays in flight: the queue keeps its length.
  */
  lemma TimeoutResendsHead(e: Engine, pkt: string, now: int)
    requires EngineOk(e) && InFlight(e) && !StartsWith(pkt, e.waitFor.value) && now > e.deadline.value
    ensures var r := CheckCmdResponse(e, pkt, now);
      && r.queue == e.queue && r.waitFor == e.waitFor
      && r.writes == e.writes + [Wire(e.queue[0].text)]
      && r.deadline == Some(now + e.queue[0].timeout)
      && Count(r, "cmd_timeout") == Count(e, "cmd_timeout") + 1
  {
    var logged := ErrLog(e, "cmd_timeout", Plain("Timeout sending " + e.queue[0].text));
    SendWritesHead(logged, true, now);
  }

  /** Before the deadline a non-matching sentence changes nothing. */
  lemma NoAckBeforeDeadline(e: Engine, pkt: string, now: int)
    requires EngineOk(e) && InFlight(e) && !StartsWith(pkt, e.waitFor.value) && now <= e.deadline.value
    ensures CheckCmdResponse(e, pkt, now) == e
  {
  }

  /**
    A command awaiting `X` followed by a fire-and-forget one: the first is
    written and waits; its ack writes the second, which leaves at once.
  */
  lemma AckThenFireAndForget(e: Engine, a: string, b: string, x: string, pkt: string, t0: int, t1: int)
    requires EngineOk(e) && e.queue == [] && e.waitFor == None && IsAscii(a) && IsAscii(b)
    requires |x| > 0 && StartsWith(pkt, x)
    ensures var e1 := QueueCmd(QueueCmd(e, a, Some(x), 10), b, Some(""), 10);
      var sent := SendNextCmd(e1, false, t0);
      var acked := CheckCmdResponse(sent, pkt, t1);
      && sent.writes == e.writes + [Wire(a)] && sent.waitFor == Some(x) && |sent.queue| == 2
      && acked.writes == e.writes + [Wire(a), Wire(b)] && acked.queue == [] && acked.waitFor == None
  {
    var e1 := QueueCmd(QueueCmd(e, a, Some(x), 10), b, Some(""), 10);
    assert e1.queue == [Command(a, Some(x), 10), Command(b, Some(""), 10)];
    var sent := SendNextCmd(e1, false, t0);
    SendWritesHead(e1, false, t0);
    AckRetiresHead(sent, pkt, t1);
  }

  // ---------------------------------------------------------------- run_loop and setup

  /**
    A read short of 254 bytes offers the bus to the command queue: the head is
    written if nothing is in flight, and nothing is written otherwise. A read
    of 254 bytes or more leaves the queue, the bus and the awaited ack alone.
    Either way the read is counted.
  */
  lemma ReadSizeDecidesSend(e: Engine, f: Framer, buf: seq<byte>, now: int)
    requires EngineOk(e)
    ensures var r := TrackRead(e, f, buf, now).0;
      && r.readCount == e.readCount + 1 && r.rtcSets == e.rtcSets
      && (|buf| >= 254 ==>
            r.writes == e.writes && r.queue == e.queue && r.waitFor == e.waitFor && r.deadline == e.deadline)
      && (|buf| < 254 && |e.queue| > 0 && !InFlight(e) ==>
            r.writes == e.writes + [Wire(e.queue[0].text)] && r.deadline == Some(now + e.queue[0].timeout))
      && (|buf| < 254 && (|e.queue| == 0 || InFlight(e)) ==>
            r.writes == e.writes && r.queue == e.queue && r.waitFor == e.waitFor && r.deadline == e.deadline)
  {
    var e0 := e.(readCount := e.readCount + 1);
    var e1 := if |buf| > f.maxBufLen then Store(e0, "max_buf_len", Number(|buf|)) else e0;
    assert TrackRead(e, f, buf, now).0 == (if |buf| < 254 then SendNextCmd(e1, false, now) else e1);
    if |buf| < 254 {
      if |e.queue| > 0 && !InFlight(e) {
        SendWritesHead(e1, false, now);
      } else {
        SendIdle(e1, false, now);
      }
    }
  }

  /** An empty read still offers the bus to the command queue, and touches nothing else but the read counter. */
  lemma EmptyReadOnlySends(v: Variant, e: Engine, f: Framer, raw: seq<byte>, env: Env)
    requires EngineOk(e) && FramerOk(f) && AllAscii(raw) && f.maxBufLen >= 0
    requires SentencesAdmissible(f.buffer + StripLf(raw)) && StripLf(raw) == []
    ensures Poll(v, e, f, raw, env) == (SendNextCmd(e.(readCount := e.readCount + 1), false, env.now), f)
  {
    assert Poll(v, e, f, raw, env) == TrackRead(e, f, [], env.now);
  }

  /** A command the receive gate accepts once written: a `$` sentence with no `*` of its own. */
  predicate Sendable(text: string) {
    IsAscii(text) && |text| > 0 && text[0] == '$' && '*' !in text
  }

  // The ten texts are checked one at a time: one proof over all of them is needlessly large.

  lemma BaselineSendable0()
    ensures Sendable(Baseline()[0].text)
  {
    ReportIntervalsSendable();
    assert Baseline()[0].text == "$PMTK314,1,1," + "1,1,1,1,0,0,0,0," + "0,0,0,0,0,0,0,1,0";
  }

  lemma ReportIntervalsSendable()
    ensures Sendable("$PMTK314,1,1," + "1,1,1,1,0,0,0,0," + "0,0,0,0,0,0,0,1,0")
  {
    var a, b, c := "$PMTK314,1,1,", "1,1,1,1,0,0,0,0,", "0,0,0,0,0,0,0,1,0";
    assert IsAscii(a) && IsAscii(b) && IsAscii(c);
    AsciiConcat(a, b);
    AsciiConcat(a + b, c);
  }

  lemma AsciiConcat(a: string, b: string)
    requires IsAscii(a) && IsAscii(b)
    ensures IsAscii(a + b)
  {
    forall i | 0 <= i < |a + b| ensures (a + b)[i] as int < 128 {
      if i >= |a| { assert (a + b)[i] == b[i - |a|]; }
    }
  }

  lemma BaselineSendable1()
    ensures Sendable(Baseline()[1].text)
  {
  }

  lemma BaselineSendable2()
    ensures Sendable(Baseline()[2].text)
  {
  }

  lemma BaselineSendable3()
    ensures Sendable(Baseline()[3].text)
  {
  }

  lemma BaselineSendable4()
    ensures Sendable(Baseline()[4].text)
  {
  }

  lemma BaselineSendable5()
    ensures Sendable(Baseline()[5].text)
  {
  }

  lemma BaselineSendable6()
    ensures Sendable(Baseline()[6].text)
  {
  }

  lemma BaselineSendable7()
    ensures Sendable(Baseline()[7].text)
  {
  }

  lemma BaselineSendable8()
    ensures Sendable(Baseline()[8].text)
  {
  }

  lemma BaselineSendable9()
    ensures Sendable(Baseline()[9].text)
  {
  }

  /** All ten baseline commands are `$` sentences without a `*`, queued with the default timeout. */
  lemma BaselineSendable()
    ensures |Baseline()| == 10
    ensures forall i :: 0 <= i < 10 ==> Sendable(Baseline()[i].text) && Baseline()[i].timeout == 10
  {
    BaselineSendable0(); BaselineSendable1(); BaselineSendable2(); BaselineSendable3(); BaselineSendable4();
    BaselineSendable5(); BaselineSendable6(); BaselineSendable7(); BaselineSendable8(); BaselineSendable9();
  }

  /** Every baseline command is written in a form that passes the receive gate. */
  lemma BaselineWiresPassGate()
    ensures forall i :: 0 <= i < |Baseline()| ==>
      IsAscii(Baseline()[i].text) && Gate(Wire(Baseline()[i].text)[..|Wire(Baseline()[i].text)| - 2]) == Valid
  {
    BaselineSendable();
    forall i | 0 <= i < |Baseline()|
      ensures IsAscii(Baseline()[i].text) && Gate(Wire(Baseline()[i].text)[..|Wire(Baseline()[i].text)| - 2]) == Valid
    {
      WirePassesGate(Baseline()[i].text);
    }
  }

  /**
    The `$PQ` commands wait for a prefix of their own text, `$PMTK414` for
    `$PMTK514`, the rest for the default PMTK_ACK.
  */
  lemma BaselineAcks()
    ensures forall i :: 2 <= i < 6 ==> Baseline()[i].waitFor.Some? && StartsWith(Baseline()[i].text, Baseline()[i].waitFor.value)
    ensures Baseline()[1].waitFor == Some("$PMTK514")
    ensures forall i :: i in {0, 6, 7, 8, 9} ==> Baseline()[i].waitFor == None
  {
  }
}
