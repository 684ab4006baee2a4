/**
  The `GPS_Poller` object: its dictionary, its command queue and the command
  in flight, updated in place by methods that follow the source statement by
  statement. Each method is proved to do exactly what the Engine function
  its ensures names says; the properties proved
  about those functions (module EngineFacts) therefore hold of the object.

  lib/gps_poller.py and main.py each define a `GPS_Poller`; one class covers
  both, and `variant` says which file an object follows.
*/
module Poller {
  import opened Wrappers
  import opened PyText
  import opened Numbers
  import opened Nmea
  import opened Framing
  import opened Engine
  import S = Engine
  import EngineFacts

  class GpsPoller {
    const variant: Variant
    const timeMode: TimeMode
    /** `init_cmds`: `(cmd, wait_for)` pairs queued after the baseline (lib/gps_poller.py only). */
    const initCmds: seq<(string, Option<string>)>

    var state: map<string, Value>
    var cmdQueue: seq<Command>
    var cmdWaitFor: Option<string>
    var cmdTimeout: Option<int>
    var readCount: int
    /** Every sentence written to the GPS over I2C, oldest first. */
    ghost var writes: seq<string>
    /** Every time the RTC was set to, oldest first. */
    ghost var rtcSets: seq<Candidate>

    ghost function Snapshot(): Engine
      reads this
    {
      Engine(state, cmdQueue, cmdWaitFor, cmdTimeout, timeMode, readCount, writes, rtcSets)
    }

    ghost predicate Valid()
      reads this
    {
      EngineOk(Snapshot())
    }

    /** `__init__` of lib/gps_poller.py: an empty queue and no fix; the clock is trusted from 1981 on. */
    constructor InitLibrary(localYear: int, initCmds: seq<(string, Option<string>)>)
      ensures Valid() && variant == Library && this.initCmds == initCmds
      ensures Snapshot() == Initial(ModeFor(localYear))
    {
      NotCounter("have_fix");
      variant := Library;
      this.initCmds := initCmds;
      state := map["have_fix" := Flag(false)];
      cmdQueue := [];
      cmdWaitFor := None;
      cmdTimeout := None;
      timeMode := if localYear < 1981 then GpsSearch else RtcMode;
      readCount := 0;
      writes := [];
      rtcSets := [];
    }

    /** `__init__` of main.py: as above, then the baseline commands are queued at once. */
    constructor InitMainScript(localYear: int)
      ensures Valid() && variant == MainScript
      ensures Snapshot() == Initial(ModeFor(localYear)).(queue := Baseline())
    {
      NotCounter("have_fix");
      variant := MainScript;
      initCmds := [];
      state := map["have_fix" := Flag(false)];
      cmdQueue := [];
      cmdWaitFor := None;
      cmdTimeout := None;
      timeMode := if localYear < 1981 then GpsSearch else RtcMode;
      readCount := 0;
      writes := [];
      rtcSets := [];
      new;
      QueueBaseline();
    }

    // -------------------------------------------------------------- errlog

    method ErrLog(kind: string, msg: Msg)
      requires Valid()
      modifies this
      ensures Snapshot() == S.ErrLog(old(Snapshot()), kind, msg) && Valid()
    {
      CounterKeys(kind);
      state := state["last_" + kind := Note(readCount, msg)];
      var key := "errcnt_" + kind;
      if key in state {
        state := state[key := Number(state[key].n + 1)];
      } else {
        state := state[key := Number(1)];
      }
    }

    // -------------------------------------------------------------- fix state machine

    method SetFix(fixTime: Utc, fixLl: Position)
      requires Valid()
      modifies this
      ensures Snapshot() == S.SetFix(old(Snapshot()), fixTime, fixLl) && Valid()
    {
      NotCounter("fix_start");
      if !state["have_fix"].on {
        state := state["fix_start" := FixMark(fixLl, fixTime)];
      }
      state := state["have_fix" := Flag(true)];
      ErrLog("last_fix", LastFix(fixLl, fixTime));
    }

    method ClearFix(source: string)
      requires Valid()
      modifies this
      ensures Snapshot() == S.ClearFix(old(Snapshot()), source) && Valid()
    {
      NotCounter("fix_end");
      if state["have_fix"].on {
        state := state["have_fix" := Flag(false)];
        state := state["fix_end" := EndMark(source, readCount)];
        ErrLog("clear_fix", Plain(source));
      }
    }

    // -------------------------------------------------------------- clock sync

    /**
      set_gps_time; `env.driftOf` stands for `abs(time.mktime(new_time) - time.time())`,
      None when that raises. `raised` reports the exception to the sentence handler.
    */
    method SetGpsTime(newTime: Candidate, source: string, env: Env) returns (raised: bool)
      requires Valid()
      modifies this
      ensures Snapshot() == S.SetGpsTime(variant, old(Snapshot()), newTime, source, env.driftOf(newTime)) && Valid()
      ensures raised == S.DriftRaises(variant, old(Snapshot()), newTime, env.driftOf(newTime))
    {
      raised := false;
      ErrLog("gps_time_" + source, GpsTime(source, newTime));
      if variant == Library {
        if |cmdQueue| > 0 { return; }
        if timeMode == RtcMode { return; }
        if newTime.utc.NoUtc? { return; }
        if newTime.year <= 2010 { return; }
      } else {
        if newTime.utc.NoUtc? { return; }
        if newTime.year <= 2010 { return; }
        if |cmdQueue| > 0 { return; }
      }
      if env.driftOf(newTime).None? {
        return true;
      }
      var drift := env.driftOf(newTime).value;
      NotCounter("clock_drift");
      state := state["clock_drift" := Number(drift)];
      if drift > 60 {
        rtcSets := rtcSets + [newTime];
        ErrLog("rtc_set", RtcSet(newTime, if variant == Library then Some(drift) else None));
      }
    }

    // -------------------------------------------------------------- sentence handlers

    /** parse_ll_fix over the fields handed to it. */
    method ParseLlFix(ll: seq<string>, floatOk: string -> bool) returns (fixLl: Position)
      requires Valid()
      modifies this
      ensures (Snapshot(), fixLl) == S.ParseLlFix(old(Snapshot()), ll, floatOk) && Valid()
    {
      fixLl := ReadPosition(ll, floatOk);
      if fixLl.NoPosition? {
        ErrLog("parse_ll_fix_error", PositionError(ll));
      }
    }

    method ParseRmc(pkt: string, env: Env)
      requires Valid()
      modifies this
      ensures Snapshot() == S.ParseRmc(variant, old(Snapshot()), pkt, env) && Valid()
    {
      var fields := Split(pkt, ',');
      if |fields| < 3 {
        return;  // IndexError, left to parse_pkt
      }
      if fields[2] != "A" {
        ClearFix("rmc");
        return;
      }
      var fixLl := ParseLlFix(RmcPositionFields(variant, fields), env.floatOk);
      var date := if |fields| < 10 then None else RmcDate(fields[9]);  // IndexError or ValueError
      if date.None? {
        ErrLog("parse_rmc_fail", Plain("Failed to parse: " + pkt));
        return;
      }
      var (dd, mm, yy) := date.value;
      var fixTime := ParseGpsUtc(fields[1], env.floatOk);
      var raised := SetGpsTime(Candidate(yy, mm, dd, fixTime), "rmc", env);
      if raised {
        ErrLog("parse_rmc_fail", Plain("Failed to parse: " + pkt));
        return;
      }
      SetFix(fixTime, fixLl);
    }

    method ParseGll(pkt: string, env: Env)
      requires Valid()
      modifies this
      ensures Snapshot() == S.ParseGll(variant, old(Snapshot()), pkt, env) && Valid()
    {
      var fields := Split(pkt, ',');
      if |fields| < 7 {
        return;  // IndexError, left to parse_pkt
      }
      if fields[6] != "A" {
        ClearFix("gll");
        return;
      }
      var fixLl := ParseLlFix(GllPositionFields(variant, fields), env.floatOk);
      var fixTime := ParseGpsUtc(fields[5], env.floatOk);
      SetFix(fixTime, fixLl);
    }

    method ParseZda(pkt: string, env: Env)
      requires Valid()
      modifies this
      ensures Snapshot() == S.ParseZda(variant, old(Snapshot()), pkt, env) && Valid()
    {
      var fields := Split(pkt, ',');
      if |fields| < 5 {
        ErrLog("parse_zda_fail", Plain("Failed to parse: " + pkt));
        return;
      }
      var tm := ParseGpsUtc(fields[1], env.floatOk);
      var dd, mm, yy := ParseInt(fields[2]), ParseInt(fields[3]), ParseInt(fields[4]);
      if dd.None? || mm.None? || yy.None? {
        ErrLog("parse_zda_fail", Plain("Failed to parse: " + pkt));
        return;
      }
      var raised := SetGpsTime(Candidate(yy.value, mm.value, dd.value, tm), "zda", env);
      if raised {
        ErrLog("parse_zda_fail", Plain("Failed to parse: " + pkt));
      }
    }

    // -------------------------------------------------------------- command queue

    method QueueCmd(cmd: string, waitFor: Option<string>, timeout: int)
      requires Valid() && IsAscii(cmd)
      modifies this
      ensures Snapshot() == S.QueueCmd(old(Snapshot()), cmd, waitFor, timeout) && Valid()
    {
      cmdQueue := cmdQueue + [Command(cmd, waitFor, timeout)];
    }

    /** The baseline configuration commands, queued in order with the default timeout. */
    method QueueBaseline()
      requires Valid()
      modifies this
      ensures Snapshot() == old(Snapshot()).(queue := old(cmdQueue) + Baseline()) && Valid()
    {
      BaselineAscii();
      var baseline := Baseline();
      for i := 0 to |baseline|
        invariant Valid()
        invariant Snapshot() == old(Snapshot()).(queue := old(cmdQueue) + baseline[..i])
      {
        QueueCmd(baseline[i].text, baseline[i].waitFor, 10);
        assert baseline[..i + 1] == baseline[..i] + [baseline[i]];
      }
      assert baseline[..|baseline|] == baseline;
    }

    method SendNextCmd(force: bool, now: int)
      requires Valid()
      modifies this
      ensures Snapshot() == S.SendNextCmd(old(Snapshot()), force, now) && Valid()
    {
      if |cmdQueue| == 0 {
        return;
      }
      if cmdWaitFor.Some? && |cmdWaitFor.value| > 0 && !force {
        return;
      }
      SendHead(now);
    }

    /** The sending half of send_next_cmd: write the head with its checksum, arm the deadline and the ack. */
    method SendHead(now: int)
      requires Valid() && |cmdQueue| > 0
      modifies this
      ensures Snapshot() == S.SendHead(old(Snapshot()), now) && Valid()
    {
      ghost var e := Snapshot();
      var head := cmdQueue[0];
      var cmd, waitFor, timeout := head.text, head.waitFor, head.timeout;
      cmd := WireOf(cmd);
      writes := writes + [cmd];
      var ack := if waitFor.None? then "$PMTK001," + Slice(cmd, 5, 8) + ",3" else waitFor.value;
      assert ack == AckOf(head);
      cmdTimeout := Some(now + timeout);
      ghost var sent := e.(writes := e.writes + [cmd], deadline := Some(now + timeout));
      if |ack| > 0 {
        cmdWaitFor := Some(ack);
        assert Snapshot() == sent.(waitFor := Some(ack));
      } else {
        cmdWaitFor := None;
        cmdQueue := cmdQueue[1..];
        assert Snapshot() == sent.(waitFor := None, queue := e.queue[1..]);
      }
    }

    method CheckCmdResponse(pkt: string, now: int)
      requires Valid()
      modifies this
      ensures Snapshot() == S.CheckCmdResponse(old(Snapshot()), pkt, now) && Valid()
    {
      if !(cmdWaitFor.Some? && |cmdWaitFor.value| > 0) {
        return;
      }
      if StartsWith(pkt, cmdWaitFor.value) {
        cmdWaitFor := None;
        cmdTimeout := None;
        cmdQueue := cmdQueue[1..];
        SendNextCmd(false, now);
        return;
      }
      if now > cmdTimeout.value {
        ErrLog("cmd_timeout", Plain("Timeout sending " + cmdQueue[0].text));
        SendNextCmd(true, now);
      }
    }

    // -------------------------------------------------------------- parse_pkt

    /**
      The checks parse_pkt makes before acting on a sentence: a `*`, exactly
      two parts around it, a hex suffix, a non-empty body, and the XOR of the
      body (without its `$`) equal to the suffix.
    */
    method CheckPacket(pkt: string) returns (verdict: Verdict)
      requires IsAscii(pkt)
      ensures verdict == Gate(pkt)
    {
      if '*' !in pkt {
        return NoStar;
      }
      var parts := Split(pkt, '*');
      if |parts| != 2 {
        return SplitError;
      }
      var pktChksum := ParseHex(parts[1]);
      if pktChksum.None? {
        return SplitError;
      }
      var msg := parts[0];
      if |msg| == 0 {
        return EmptyBody;
      }
      SplitJoin(pkt, '*');
      assert Join(parts, '*') == msg + "*" + parts[1];
      var msgChksum := ComputeXor(Covered(msg));
      if msgChksum as int != pktChksum.value {
        return Mismatch(msgChksum as int, pktChksum.value);
      }
      return Verdict.Valid;
    }

    method ParsePacket(pkt: string, env: Env)
      requires Valid() && Admissible(pkt)
      modifies this
      ensures Snapshot() == S.ParsePacket(variant, old(Snapshot()), pkt, env) && Valid()
    {
      var verdict := CheckPacket(pkt);
      if verdict.NoStar? || verdict.EmptyBody? {
        return;
      } else if verdict.SplitError? {
        ErrLog("split_err", Plain("Split failed: " + pkt));
      } else if verdict.Mismatch? {
        ErrLog("chkerr", ChecksumMismatch(verdict.computed, verdict.received, pkt));
      } else {
        AcceptPacket(pkt, env);
      }
    }

    /** A sentence past the checks: the ack check, the family handler, the sentence filed. */
    method AcceptPacket(pkt: string, env: Env)
      requires Valid() && Storable(pkt)
      modifies this
      ensures Snapshot() == Accept(variant, old(Snapshot()), pkt, env) && Valid()
    {
      CheckCmdResponse(pkt, env.now);
      Dispatch(pkt, env);
      StoreSentence(pkt);
    }

    /** The family handlers of parse_pkt. */
    method Dispatch(pkt: string, env: Env)
      requires Valid()
      modifies this
      ensures Snapshot() == S.Dispatch(variant, old(Snapshot()), pkt, env) && Valid()
    {
      var key := Token(pkt);
      if |key| == 6 {
        var subKey := key[3..6];
        if subKey == "RMC" {
          ParseRmc(pkt, env);
        } else if subKey == "ZDA" {
          ParseZda(pkt, env);
        } else if subKey == "GLL" {
          ParseGll(pkt, env);
        }
      }
    }

    /** The sentence filed under its storage key: the token, suffixed for GSV, RMC and GLL. */
    method StoreSentence(pkt: string)
      requires Valid() && Storable(pkt)
      modifies this
      ensures Snapshot() == Store(old(Snapshot()), StorageKey(pkt), Sentence(pkt)) && Valid()
    {
      var key := KeyOf(pkt);
      ghost var e := Snapshot();
      state := state[key := Sentence(pkt)];
      assert Snapshot() == Store(e, key, Sentence(pkt));
    }

    // -------------------------------------------------------------- run_loop

    /** `self.state[key] = n` for one of the loop's size and count keys. */
    method SetNumber(key: string, n: int)
      requires Valid() && PlainKey(key)
      modifies this
      ensures Snapshot() == Store(old(Snapshot()), key, Number(n)) && Valid()
    {
      NotCounter(key);
      state := state[key := Number(n)];
    }

    /** The bookkeeping of one read; `f` and the result are the loop's local variables. */
    method TrackRead(buf: seq<byte>, now: int, f: Framer) returns (f': Framer)
      requires Valid()
      modifies this
      ensures (Snapshot(), f') == S.TrackRead(old(Snapshot()), f, buf, now) && Valid()
    {
      readCount := readCount + 1;
      f' := f;
      if |buf| > f'.maxBufLen {
        f' := f'.(maxBufLen := |buf|);
        SetNumber("max_buf_len", f'.maxBufLen);
      }
      if |buf| > 55 {
        f' := f'.(lastLargeBuf := readCount, countLargeBuf := f'.countLargeBuf + 1);
      }
      if |buf| < 254 {
        SendNextCmd(false, now);
      }
    }

    /**
      One pass of run_loop's body for the read `raw`; `f` and the result are
      the loop's local variables before and after it.
    */
    method ReadOnce(raw: seq<byte>, env: Env, f: Framer) returns (f': Framer)
      requires Valid() && FramerOk(f) && AllAscii(raw)
      requires SentencesAdmissible(f.buffer + StripLf(raw))
      modifies this
      ensures (Snapshot(), f') == Poll(variant, old(Snapshot()), f, raw, env) && Valid()
    {
      var buf := StripLf(raw);
      f' := TrackRead(buf, env.now, f);
      if |buf| > 0 {
        f' := Absorb(buf, env, f');
      }
    }

    /** A non-empty read: its size recorded, then appended to the buffer and drained. */
    method Absorb(buf: seq<byte>, env: Env, f: Framer) returns (f': Framer)
      requires Valid() && FramerOk(f) && AllAscii(buf) && SentencesAdmissible(f.buffer + buf)
      modifies this
      ensures (Snapshot(), f') == S.Absorb(variant, old(Snapshot()), f, buf, env) && Valid()
    {
      SetNumber("last_read_bytes", |buf|);
      SetNumber("last_large_buf", f.lastLargeBuf);
      SetNumber("count_large_buf", f.countLargeBuf);
      var circularBuffer := f.buffer + buf;
      f' := Extract(circularBuffer, env, f);
    }

    /** The extraction loop: cut every complete sentence off the front of `circularBuffer` and parse it. */
    method Extract(circularBuffer: seq<byte>, env: Env, f: Framer) returns (f': Framer)
      requires Valid() && AllAscii(circularBuffer) && SentencesAdmissible(circularBuffer)
      modifies this
      ensures (Snapshot(), f') == Drain(variant, old(Snapshot()), f, circularBuffer, env) && Valid()
    {
      var buffer, maxPktLen := circularBuffer, f.maxPktLen;
      while true
        invariant Valid() && AllAscii(buffer) && SentencesAdmissible(buffer)
        invariant Drain(variant, old(Snapshot()), f, circularBuffer, env)
               == Drain(variant, Snapshot(), f.(maxPktLen := maxPktLen), buffer, env)
        decreases |buffer|
      {
        ghost var e0, f0 := Snapshot(), f.(maxPktLen := maxPktLen);
        var idx := Find(buffer, CR);
        if idx < 0 {
          DrainStop(variant, e0, f0, buffer, env);
          break;
        }
        var pkt := Decode(buffer[..idx]);
        var ofs := if Slice(buffer, idx, idx + 2) == [CR, LF] then 2 else 1;
        CutAt(buffer, idx);
        DrainStep(variant, e0, f0, buffer, env, buffer[..idx], buffer[idx + ofs..]);
        buffer := buffer[idx + ofs..];
        if |pkt| > maxPktLen {
          maxPktLen := |pkt|;
          SetNumber("max_pkt_len", maxPktLen);
        }
        ParsePacket(pkt, env);
      }
      f' := f.(buffer := buffer, maxPktLen := maxPktLen);
    }

    /**
      run_loop over a finite sequence of reads: the read counter and the
      loop's variables start from zero, then each read is handled in turn.
    */
    method RunLoop(chunks: seq<seq<byte>>, envs: seq<Env>)
      requires Valid() && |envs| == |chunks| && ReadsOk([], chunks)
      modifies this
      ensures Snapshot() == Run(variant, old(Snapshot()).(readCount := 0), Framer([], 0, 0, 0, 0), chunks, envs).0
      ensures Valid()
    {
      readCount := 0;
      var f := Framer([], 0, 0, 0, 0);
      ghost var final := Run(variant, Snapshot(), f, chunks, envs).0;
      for n := 0 to |chunks|
        invariant Valid() && RunsTo(variant, Snapshot(), f, chunks[n..], envs[n..], final)
      {
        f := ReadNext(chunks[n..], envs[n..], f, final);
        assert chunks[n..][1..] == chunks[n + 1..] && envs[n..][1..] == envs[n + 1..];
      }
    }

    /** The first of the remaining reads, handled by the loop body. */
    method ReadNext(chunks: seq<seq<byte>>, envs: seq<Env>, f: Framer, ghost final: Engine) returns (f': Framer)
      requires Valid() && |chunks| > 0 && RunsTo(variant, Snapshot(), f, chunks, envs, final)
      modifies this
      ensures Valid() && RunsTo(variant, Snapshot(), f', chunks[1..], envs[1..], final)
    {
      RunStep(variant, Snapshot(), f, chunks, envs);
      f' := ReadOnce(chunks[0], envs[0], f);
    }

    /** `run` of lib/gps_poller.py: queue the baseline and then `init_cmds`, and run the loop. */
    method Start(chunks: seq<seq<byte>>, envs: seq<Env>)
      requires Valid() && variant == Library && |envs| == |chunks| && ReadsOk([], chunks)
      requires forall i :: 0 <= i < |initCmds| ==> IsAscii(initCmds[i].0)
      modifies this
      ensures Snapshot() == Run(variant, Setup(old(Snapshot()), initCmds).(readCount := 0), Framer([], 0, 0, 0, 0), chunks, envs).0
      ensures Valid()
    {
      QueueSetup();
      RunLoop(chunks, envs);
    }

    /** The commands `run` queues before its loop. */
    method QueueSetup()
      requires Valid() && forall i :: 0 <= i < |initCmds| ==> IsAscii(initCmds[i].0)
      modifies this
      ensures Snapshot() == Setup(old(Snapshot()), initCmds) && Valid()
    {
      QueueBaseline();
      ghost var queued := Snapshot();
      var commands := AsCommands(initCmds);
      for i := 0 to |initCmds|
        invariant Valid()
        invariant Snapshot() == queued.(queue := queued.queue + commands[..i])
      {
        QueueCmd(initCmds[i].0, initCmds[i].1, 10);
        assert commands[..i + 1] == commands[..i] + [commands[i]];
      }
      assert commands[..|initCmds|] == commands;
    }
  }

  /** What `run` queues before its loop: the baseline commands, then `init_cmds` with the default timeout. */
  function Setup(e: Engine, initCmds: seq<(string, Option<string>)>): (r: Engine)
    requires EngineOk(e) && forall i :: 0 <= i < |initCmds| ==> IsAscii(initCmds[i].0)
    ensures EngineOk(r) && EngineOk(r.(readCount := 0))
  {
    BaselineAscii();
    e.(queue := e.queue + Baseline() + AsCommands(initCmds))
  }

  /** The baseline commands are ASCII text. */
  lemma BaselineAscii()
    ensures forall i :: 0 <= i < |Baseline()| ==> IsAscii(Baseline()[i].text)
  {
    EngineFacts.BaselineSendable();
  }
}
