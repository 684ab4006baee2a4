/**
  The sentence framer of `run_loop`: bytes accumulate in a buffer, and every
  complete sentence (terminated by `\r`, or by `\r\n` counted as one
  terminator) is cut off its front.
*/
module Framing {
  import opened Wrappers
  import opened PyText

  /** The length of the terminator at `buf[n]`: two bytes for `\r\n`, one for a bare `\r`. */
  function TermLen(buf: seq<byte>, n: nat): nat {
    if n + 1 < |buf| && buf[n + 1] == LF then 2 else 1
  }

  /**
    One cut: the bytes before the first `\r`, and what remains after the
    terminator.
  */
  function Cut(buf: seq<byte>): (r: Option<(seq<byte>, seq<byte>)>)
    ensures r.None? <==> CR !in buf
    ensures r.Some? ==>
      var n := |r.value.0|;
      && n + TermLen(buf, n) <= |buf| && buf[n] == CR
      && r.value.0 == buf[..n] && CR !in r.value.0
      && r.value.1 == buf[n + TermLen(buf, n)..]
  {
    var idx := Find(buf, CR);
    if idx < 0 then None
    else
      var ofs := if Slice(buf, idx, idx + 2) == [CR, LF] then 2 else 1;
      assert ofs == TermLen(buf, idx) by {
        if idx + 1 < |buf| { assert Slice(buf, idx, idx + 2) == [buf[idx], buf[idx + 1]]; }
        else { assert |Slice(buf, idx, idx + 2)| < 2; }
      }
      Some((buf[..idx], buf[idx + ofs..]))
  }

  /** The cut at the first `\r`, as the extraction loop computes it. */
  lemma CutAt(buf: seq<byte>, idx: int)
    requires idx == Find(buf, CR) && idx >= 0
    ensures var ofs := if Slice(buf, idx, idx + 2) == [CR, LF] then 2 else 1;
      idx + ofs <= |buf| && Cut(buf) == Some((buf[..idx], buf[idx + ofs..]))
  {
  }

  /** Every sentence the extraction loop cuts from `buf`, and the remainder it keeps. */
  function Frames(buf: seq<byte>): (r: (seq<seq<byte>>, seq<byte>))
    ensures CR !in r.1
    ensures forall k :: 0 <= k < |r.0| ==> CR !in r.0[k]
    ensures CR !in buf ==> r == ([], buf)
    decreases |buf|
  {
    match Cut(buf)
    case None => ([], buf)
    case Some((pkt, rest)) =>
      var (more, tail) := Frames(rest);
      var all := [pkt] + more;
      forall k | 0 <= k < |all| ensures CR !in all[k] {
        if k > 0 { assert all[k] == more[k - 1]; }
      }
      (all, tail)
  }

  /** What the extraction loop keeps is the tail end of the buffer. */
  lemma {:induction false} FramesSuffix(buf: seq<byte>)
    ensures |Frames(buf).1| <= |buf| && Frames(buf).1 == buf[|buf| - |Frames(buf).1|..]
    decreases |buf|
  {
    match Cut(buf)
    case None =>
    case Some((pkt, rest)) =>
      FramesSuffix(rest);
      var tail := Frames(rest).1;
      var k := |pkt| + TermLen(buf, |pkt|);
      assert rest == buf[k..];
      assert tail == rest[|rest| - |tail|..] == buf[k + |rest| - |tail|..];
  }

  /** A suffix of an ASCII buffer is ASCII, and so is every sentence cut from it. */
  lemma {:induction false} FramesAscii(buf: seq<byte>)
    requires AllAscii(buf)
    ensures AllAscii(Frames(buf).1)
    ensures forall k :: 0 <= k < |Frames(buf).0| ==> AllAscii(Frames(buf).0[k])
    decreases |buf|
  {
    match Cut(buf)
    case None =>
    case Some((pkt, rest)) =>
      CutAscii(buf);
      FramesAscii(rest);
      var more := Frames(rest).0;
      AsciiCons(pkt, more);
      assert Frames(buf).0 == [pkt] + more;
  }

  lemma AsciiCons(pkt: seq<byte>, more: seq<seq<byte>>)
    requires AllAscii(pkt) && forall k :: 0 <= k < |more| ==> AllAscii(more[k])
    ensures forall k :: 0 <= k < |[pkt] + more| ==> AllAscii(([pkt] + more)[k])
  {
    forall j | 0 <= j < |[pkt] + more| ensures AllAscii(([pkt] + more)[j]) {
      if j > 0 { assert ([pkt] + more)[j] == more[j - 1]; }
    }
  }

  /** Both halves of a cut of an ASCII buffer are ASCII. */
  lemma CutAscii(buf: seq<byte>)
    requires AllAscii(buf) && Cut(buf).Some?
    ensures AllAscii(Cut(buf).value.0) && AllAscii(Cut(buf).value.1)
  {
    var (pkt, rest) := Cut(buf).value;
    var k := |pkt| + TermLen(buf, |pkt|);
    assert AllAscii(rest) by {
      forall i | 0 <= i < |rest| ensures rest[i] < 128 { assert rest[i] == buf[k + i]; }
    }
    assert AllAscii(pkt) by {
      forall i | 0 <= i < |pkt| ensures pkt[i] < 128 { assert pkt[i] == buf[i]; }
    }
  }

  /** The terminator each cut of the extraction loop drops: `\r\n` or a bare `\r`. */
  function Terminators(buf: seq<byte>): (ts: seq<seq<byte>>)
    ensures |ts| == |Frames(buf).0|
    ensures forall k :: 0 <= k < |ts| ==> ts[k] == [CR, LF] || ts[k] == [CR]
    decreases |buf|
  {
    match Cut(buf)
    case None => []
    case Some((pkt, rest)) =>
      var t: seq<byte> := if TermLen(buf, |pkt|) == 2 then [CR, LF] else [CR];
      var more := Terminators(rest);
      forall k | 0 <= k < |[t] + more| ensures ([t] + more)[k] == [CR, LF] || ([t] + more)[k] == [CR] {
        if k > 0 { assert ([t] + more)[k] == more[k - 1]; }
      }
      [t] + more
  }

  /** Each sentence followed by its terminator, in order. */
  function Interleave(parts: seq<seq<byte>>, ts: seq<seq<byte>>): seq<byte>
    requires |parts| == |ts|
  {
    if |parts| == 0 then [] else parts[0] + ts[0] + Interleave(parts[1..], ts[1..])
  }

  /** The extraction loop loses only terminators: sentences, terminators and remainder rebuild the buffer. */
  lemma {:induction false} FramesRebuild(buf: seq<byte>)
    ensures Interleave(Frames(buf).0, Terminators(buf)) + Frames(buf).1 == buf
    decreases |buf|
  {
    match Cut(buf)
    case None =>
    case Some((pkt, rest)) =>
      var n := |pkt|;
      var t: seq<byte> := if TermLen(buf, n) == 2 then [CR, LF] else [CR];
      FramesRebuild(rest);
      var (more, tail) := Frames(rest);
      var ts := Terminators(rest);
      var middle := Interleave(more, ts);
      assert Interleave(Frames(buf).0, Terminators(buf)) == pkt + t + middle by {
        assert Frames(buf).0 == [pkt] + more;
        assert Terminators(buf) == [t] + ts;
        InterleaveCons(pkt, t, more, ts);
      }
      assert Frames(buf).1 == tail;
      CutRebuild(buf, n, t);
      Regroup(pkt + t, middle, tail);
  }

  lemma Regroup<T>(a: seq<T>, b: seq<T>, c: seq<T>)
    ensures a + b + c == a + (b + c)
  {
  }

  lemma InterleaveCons(part: seq<byte>, t: seq<byte>, parts: seq<seq<byte>>, ts: seq<seq<byte>>)
    requires |parts| == |ts|
    ensures Interleave([part] + parts, [t] + ts) == part + t + Interleave(parts, ts)
  {
    assert ([part] + parts)[1..] == parts && ([t] + ts)[1..] == ts;
  }

  /** One cut loses only its terminator. */
  lemma CutRebuild(buf: seq<byte>, n: nat, t: seq<byte>)
    requires n + TermLen(buf, n) <= |buf| && buf[n] == CR
    requires t == if TermLen(buf, n) == 2 then [CR, LF] else [CR]
    ensures buf[..n] + t + buf[n + TermLen(buf, n)..] == buf
  {
    var m := n + TermLen(buf, n);
    assert buf[n..m] == t;
    assert buf[..n] + buf[n..m] == buf[..m];
  }

  /**
    Appending bytes after the first `\r` does not move the cut, unless the
    `\r` ends the buffer and the appended bytes start with `\n`.
  */
  lemma CutExtends(a: seq<byte>, b: seq<byte>)
    requires Cut(a).Some?
    requires a == [] || b == [] || a[|a| - 1] != CR || b[0] != LF
    ensures Cut(a + b) == Some((Cut(a).value.0, Cut(a).value.1 + b))
  {
    var (p, r) := Cut(a).value;
    var n := |p|;
    assert (a + b)[n] == CR;
    var (p', r') := Cut(a + b).value;
    assert |p'| == n;
    assert p' == (a + b)[..n] == a[..n] == p;
    TermLenExtends(a, b, n);
  }

  /** The terminator after the `\r` at `n` is measured the same in `a` and in `a + b`, and what follows it gains `b`. */
  lemma TermLenExtends(a: seq<byte>, b: seq<byte>, n: nat)
    requires n < |a| && a[n] == CR && n + TermLen(a, n) <= |a|
    requires a == [] || b == [] || a[|a| - 1] != CR || b[0] != LF
    ensures TermLen(a + b, n) == TermLen(a, n)
    ensures (a + b)[n + TermLen(a, n)..] == a[n + TermLen(a, n)..] + b
  {
  }

  /**
    Framing is split-invariant: the sentences of `a`, then those of what
    `a` leaves plus `b`, are the sentences of `a + b`, with the same
    remainder, as long as the split does not separate a `\r\n`.
  */
  lemma {:induction false} FramesAppend(a: seq<byte>, b: seq<byte>)
    requires a == [] || b == [] || a[|a| - 1] != CR || b[0] != LF
    ensures Frames(a).0 + Frames(Frames(a).1 + b).0 == Frames(a + b).0
    ensures Frames(Frames(a).1 + b).1 == Frames(a + b).1
    decreases |a|
  {
    match Cut(a)
    case None =>
      assert Frames(a) == ([], a);
    case Some((p, r)) =>
      FramesSuffixOf(a, r);
      FramesAppend(r, b);
      FramesStep(a, b);
      var (more, tail) := Frames(r);
      Regroup([p], more, Frames(tail + b).0);
  }

  /** One cut, the same in `a` and in `a + b`. */
  lemma FramesStep(a: seq<byte>, b: seq<byte>)
    requires Cut(a).Some?
    requires a == [] || b == [] || a[|a| - 1] != CR || b[0] != LF
    ensures var (p, r) := Cut(a).value;
      && Frames(a) == ([p] + Frames(r).0, Frames(r).1)
      && Frames(a + b) == ([p] + Frames(r + b).0, Frames(r + b).1)
  {
    CutExtends(a, b);
  }

  /** The rest of a cut is a tail of the buffer, so it ends as the buffer does. */
  lemma FramesSuffixOf(a: seq<byte>, r: seq<byte>)
    requires Cut(a).Some? && r == Cut(a).value.1
    ensures |r| < |a| && (r != [] ==> r[|r| - 1] == a[|a| - 1])
  {
  }

  /**
    Every read is stripped of `\n` at both ends before it joins the buffer
    (lib/gps_poller.py:119), so a `\n` inside a sentence is kept when it
    arrives in the middle of a read and lost when it starts one.
  */
  lemma ReadBoundaryDropsLf(x: byte, y: byte)
    requires x != CR && x != LF && y != CR && y != LF
    ensures Frames(StripLf([x, LF, y, CR])).0 == [[x, LF, y]]
    ensures Frames(Frames(StripLf([x])).1 + StripLf([LF, y, CR])).0 == [[x, y]]
  {
    WholeRead(x, y);
    SplitReads(x, y);
  }

  lemma WholeRead(x: byte, y: byte)
    requires x != CR && x != LF && y != CR && y != LF
    ensures Frames(StripLf([x, LF, y, CR])).0 == [[x, LF, y]]
  {
    var whole: seq<byte> := [x, LF, y, CR];
    StripKeeps(whole);
    assert whole == [x, LF, y] + [CR];
    OneSentence([x, LF, y]);
  }

  lemma SplitReads(x: byte, y: byte)
    requires x != CR && x != LF && y != CR && y != LF
    ensures Frames(Frames(StripLf([x])).1 + StripLf([LF, y, CR])).0 == [[x, y]]
  {
    var first: seq<byte> := [x];
    StripKeeps(first);
    NoSentence(first);
    var second: seq<byte> := [LF, y, CR];
    StripOneLf(second);
    assert first + second[1..] == [x, y] + [CR];
    OneSentence([x, y]);
  }

  lemma StripKeeps(bs: seq<byte>)
    requires |bs| > 0 && bs[0] != LF && bs[|bs| - 1] != LF
    ensures StripLf(bs) == bs
  {
  }

  lemma StripOneLf(bs: seq<byte>)
    requires |bs| > 1 && bs[0] == LF && bs[1] != LF && bs[|bs| - 1] != LF
    ensures StripLf(bs) == bs[1..]
  {
    assert LStripLf(bs[1..]) == bs[1..];
  }

  /** Bytes without `\r` followed by one `\r` are one sentence and leave nothing behind. */
  lemma OneSentence(p: seq<byte>)
    requires CR !in p
    ensures Frames(p + [CR]) == ([p], [])
  {
    var buf := p + [CR];
    assert buf[|p|] == CR;
    var (p', r) := Cut(buf).value;
    assert |p'| == |p| && r == [];
    assert p' == buf[..|p|] == p;
    NoSentence(r);
    assert [p] + [] == [p];
  }

  /** A buffer without `\r` holds no sentence and is kept whole. */
  lemma NoSentence(buf: seq<byte>)
    requires CR !in buf
    ensures Frames(buf) == ([], buf)
  {
  }
}
