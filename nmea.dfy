/** Byte values as 8-bit vectors, kept apart so the solver sees nothing else. */
module Octets {
  /** A value below 256 survives the trip through `bv8`. */
  lemma ByteValue(n: int)
    requires 0 <= n < 256
    ensures (n as bv8) as int == n
  {
  }

  /** Distinct bytes have distinct values. */
  lemma ByteDistinct(x: bv8, y: bv8)
    requires x != y
    ensures x as int != y as int
  {
    assert (x as int) as bv8 == x && (y as int) as bv8 == y;
  }
}

/**
  The NMEA 0183 sentence checksum, the gate `parse_pkt` puts every framed
  sentence through, the storage key it files the sentence under, and the
  wire form `send_next_cmd` gives an outbound command.
*/
module Nmea {
  import opened Wrappers
  import opened PyText
  import opened Numbers
  import opened Octets

  /** The running XOR of the ordinals of `s`, as `msg_chksum ^= ord(ch)` accumulates it. */
  function Xor(s: string): bv8
    requires IsAscii(s)
  {
    if |s| == 0 then 0 else Xor(s[..|s| - 1]) ^ (s[|s| - 1] as int) as bv8
  }

  /** The accumulator loop of parse_pkt and send_next_cmd. */
  method ComputeXor(s: string) returns (sum: bv8)
    requires IsAscii(s)
    ensures sum == Xor(s)
  {
    sum := 0;
    for i := 0 to |s|
      invariant sum == Xor(s[..i])
    {
      assert s[..i + 1][..i] == s[..i];
      sum := sum ^ (s[i] as int) as bv8;
    }
    assert s[..|s|] == s;
  }

  lemma {:induction false} XorAppend(a: string, b: string)
    requires IsAscii(a) && IsAscii(b)
    ensures IsAscii(a + b) && Xor(a + b) == Xor(a) ^ Xor(b)
    decreases |b|
  {
    if |b| == 0 {
      assert a + b == a;
    } else {
      var b' := b[..|b| - 1];
      assert (a + b)[..|a + b| - 1] == a + b';
      XorAppend(a, b');
    }
  }

  /**
    Replacing any one character of a text by a different ASCII character
    changes its XOR (GateDetectsCorruption carries this to the gate).
  */
  lemma XorDetectsCorruption(s: string, i: nat, c: char)
    requires IsAscii(s) && i < |s| && c as int < 128 && c != s[i]
    ensures IsAscii(s[i := c]) && Xor(s[i := c]) != Xor(s)
  {
    var a, b := s[..i], s[i + 1..];
    var t := s[i := c];
    assert s == (a + [s[i]]) + b;
    assert t == (a + [c]) + b;
    var x := XorOne(a, s[i]);
    var y := XorOne(a, c);
    XorAppend(a + [s[i]], b);
    XorAppend(a + [c], b);
    XorCancel(Xor(a), x, y, Xor(b));
  }

  lemma XorCancel(a: bv8, x: bv8, y: bv8, b: bv8)
    requires x != y
    ensures (a ^ x) ^ b != (a ^ y) ^ b
  {
  }

  /** Appending one character XORs in its ordinal. */
  lemma XorOne(a: string, c: char) returns (x: bv8)
    requires IsAscii(a) && c as int < 128
    ensures IsAscii(a + [c]) && x as int == c as int && Xor(a + [c]) == Xor(a) ^ x
  {
    x := (c as int) as bv8;
    ByteValue(c as int);
    var t := a + [c];
    assert IsAscii(t) by {
      forall i | 0 <= i < |t| ensures t[i] as int < 128 {
        if i < |a| { assert t[i] == a[i]; }
      }
    }
    assert t[..|t| - 1] == a && t[|t| - 1] == c;
  }

  /** The characters the checksum covers: the body without a leading `$`. */
  function Covered(msg: string): string {
    if |msg| > 0 && msg[0] == '$' then msg[1..] else msg
  }

  /** What parse_pkt makes of a framed sentence before acting on it. */
  datatype Verdict =
    | NoStar                                  // no `*`: not a checksummed sentence, ignored
    | SplitError                              // not exactly one `*`, or the suffix is no hex number
    | EmptyBody                               // nothing before the `*`: ignored
    | Mismatch(computed: int, received: int)  // checksum differs: recorded as `chkerr`
    | Valid

  /** The gate of parse_pkt, in the order the source applies its tests. */
  function Gate(pkt: string): (v: Verdict)
    requires IsAscii(pkt)
    ensures v == NoStar <==> '*' !in pkt
  {
    if '*' !in pkt then NoStar
    else
      var parts := Split(pkt, '*');
      if |parts| != 2 then SplitError
      else match ParseHex(parts[1])
        case None => SplitError
        case Some(received) =>
          if |parts[0]| == 0 then EmptyBody
          else
            SplitJoin(pkt, '*');
            assert Join(parts, '*') == parts[0] + "*" + parts[1];
            var computed := Xor(Covered(parts[0])) as int;
            if computed != received then Mismatch(computed, received) else Valid
  }

  /** The sentence shape the gate accepts: a body, one `*`, a matching hex checksum. */
  predicate WellFormedAt(pkt: string, k: nat)
    requires IsAscii(pkt)
  {
    0 < k < |pkt| && pkt[k] == '*' && '*' !in pkt[..k] && '*' !in pkt[k + 1..] &&
    ParseHex(pkt[k + 1..]) == Some(Xor(Covered(pkt[..k])) as int)
  }

  /**
    A sentence passes the gate exactly when it is a non-empty body, one `*`
    and a hex number equal to the XOR of the body (without a leading `$`).
  */
  lemma GateValidIff(pkt: string)
    requires IsAscii(pkt)
    ensures Gate(pkt) == Valid <==> exists k :: WellFormedAt(pkt, k)
  {
    if Gate(pkt) == Valid {
      GateValidShape(pkt);
    }
    if exists k :: WellFormedAt(pkt, k) {
      var k :| WellFormedAt(pkt, k);
      WellFormedPasses(pkt, k);
    }
  }

  lemma WellFormedPasses(pkt: string, k: nat)
    requires IsAscii(pkt) && WellFormedAt(pkt, k)
    ensures Gate(pkt) == Valid
  {
    SplitAtOnly(pkt, k);
  }

  lemma GateValidShape(pkt: string)
    requires IsAscii(pkt) && Gate(pkt) == Valid
    ensures WellFormedAt(pkt, |Split(pkt, '*')[0]|)
  {
    var parts := Split(pkt, '*');
    assert |parts| == 2;
    SplitJoin(pkt, '*');
    var k := |parts[0]|;
    assert parts[1..] == [parts[1]];
    assert pkt == parts[0] + "*" + parts[1];
    assert pkt[..k] == parts[0] && pkt[k + 1..] == parts[1];
  }

  /**
    A checksum-valid sentence with one body character after the first
    replaced by a different ASCII character other than `*` fails the
    checksum. The first character is left out: turning it into or out of a
    `$` moves it into or out of the checksum.
  */
  lemma GateDetectsCorruption(pkt: string, i: nat, c: char)
    requires IsAscii(pkt) && Gate(pkt) == Valid
    requires 0 < i < |Split(pkt, '*')[0]| && c as int < 128 && c != '*' && c != pkt[i]
    ensures IsAscii(pkt[i := c]) && Gate(pkt[i := c]).Mismatch?
  {
    var k := |Split(pkt, '*')[0]|;
    GateValidShape(pkt);
    var t := pkt[i := c];
    CorruptedShape(pkt, k, i, c);
    CoveredCorrupted(pkt[..k], i, c);
    ByteDistinct(Xor(Covered(t[..k])), Xor(Covered(pkt[..k])));
    GateMismatchAt(t, k, Xor(Covered(pkt[..k])) as int);
  }

  /** A well-formed sentence with a body character replaced by a non-`*` keeps its one `*` and its suffix. */
  lemma CorruptedShape(pkt: string, k: nat, i: nat, c: char)
    requires IsAscii(pkt) && WellFormedAt(pkt, k) && 0 < i < k && c as int < 128 && c != '*'
    ensures var t := pkt[i := c];
      && IsAscii(t) && t[k] == '*' && '*' !in t[..k] && '*' !in t[k + 1..]
      && t[k + 1..] == pkt[k + 1..] && t[..k] == pkt[..k][i := c]
      && ParseHex(t[k + 1..]) == Some(Xor(Covered(pkt[..k])) as int)
  {
    var t := pkt[i := c];
    assert IsAscii(t) by {
      forall j | 0 <= j < |t| ensures t[j] as int < 128 { if j != i { assert t[j] == pkt[j]; } }
    }
    assert t[k + 1..] == pkt[k + 1..];
    assert t[..k] == pkt[..k][i := c];
    assert '*' !in t[..k] by {
      forall j | 0 <= j < k ensures t[..k][j] != '*' { if j != i { assert t[..k][j] == pkt[..k][j]; } }
    }
  }

  /** One `*` after a non-empty body, and a hex suffix other than the body's XOR: a mismatch. */
  lemma GateMismatchAt(t: string, k: nat, h: int)
    requires IsAscii(t) && 0 < k < |t| && t[k] == '*' && '*' !in t[..k] && '*' !in t[k + 1..]
    requires ParseHex(t[k + 1..]) == Some(h) && Xor(Covered(t[..k])) as int != h
    ensures Gate(t).Mismatch?
  {
    SplitAtOnly(t, k);
  }

  /** A change after the first character of a body changes the XOR of what the checksum covers. */
  lemma CoveredCorrupted(body: string, i: nat, c: char)
    requires IsAscii(body) && 0 < i < |body| && c as int < 128 && c != body[i]
    ensures IsAscii(body[i := c]) && Xor(Covered(body[i := c])) != Xor(Covered(body))
  {
    var t := body[i := c];
    assert IsAscii(t) by {
      forall j | 0 <= j < |t| ensures t[j] as int < 128 { if j != i { assert t[j] == body[j]; } }
    }
    if body[0] == '$' {
      assert Covered(t) == Covered(body)[i - 1 := c];
      XorDetectsCorruption(Covered(body), i - 1, c);
    } else {
      XorDetectsCorruption(body, i, c);
    }
  }

  /** A `*` that does not split the sentence in two, or a suffix that is no hex number: a split error. */
  lemma SplitErrorGate(pkt: string)
    requires IsAscii(pkt) && '*' in pkt
    requires |Split(pkt, '*')| != 2 || ParseHex(Split(pkt, '*')[1]).None?
    ensures Gate(pkt) == SplitError
  {
  }

  /** Nothing before the only `*`, a hex number after it: the gate reports an empty body. */
  lemma EmptyBodyGate(pkt: string)
    requires IsAscii(pkt) && |pkt| > 0 && pkt[0] == '*' && '*' !in pkt[1..] && ParseHex(pkt[1..]).Some?
    ensures Gate(pkt) == EmptyBody
  {
    SplitAtOnly(pkt, 0);
    assert pkt[..0] == [];
  }

  /** Splitting at the only `*` gives the two sides. */
  lemma SplitAtOnly(s: string, k: nat)
    requires k < |s| && s[k] == '*' && '*' !in s[..k] && '*' !in s[k + 1..]
    ensures Split(s, '*') == [s[..k], s[k + 1..]]
  {
    assert Find(s, '*') == k;
  }

  /** `cmd + "*%02X\r\n"`: a command with its checksum over `cmd[1:]`, as written to the bus. */
  function Wire(cmd: string): (w: string)
    requires IsAscii(cmd)
    ensures IsAscii(w) && |w| == |cmd| + 5
  {
    cmd + "*" + Hex2(Xor(Drop(cmd, 1)) as int) + "\r\n"
  }

  /** send_next_cmd's framing of a command: checksum accumulated over `cmd[1:]`, then appended. */
  method WireOf(cmd: string) returns (w: string)
    requires IsAscii(cmd)
    ensures w == Wire(cmd)
  {
    var chksum := ComputeXor(Drop(cmd, 1));
    w := cmd + "*" + Hex2(chksum as int) + "\r\n";
  }

  /**
    A `$` command without `*` of its own is written in a form whose sentence
    (the wire form without its `\r\n`) passes the very gate incoming
    sentences go through.
  */
  lemma WirePassesGate(cmd: string)
    requires IsAscii(cmd) && |cmd| > 0 && cmd[0] == '$' && '*' !in cmd
    ensures var w := Wire(cmd); w[..|w| - 2] == cmd + "*" + Hex2(Xor(cmd[1..]) as int)
    ensures Gate(Wire(cmd)[..|Wire(cmd)| - 2]) == Valid
  {
    var hex := Hex2(Xor(cmd[1..]) as int);
    var s := cmd + "*" + hex;
    assert Wire(cmd)[..|Wire(cmd)| - 2] == s;
    assert s[..|cmd|] == cmd && s[|cmd| + 1..] == hex;
    assert '*' !in hex;
    HexRoundTrip(Xor(cmd[1..]) as int);
    assert Covered(cmd) == cmd[1..];
    assert WellFormedAt(s, |cmd|);
    GateValidIff(s);
  }

  /** `pkt[:pkt.find(",")]`: the text before the first comma, or all but the last character when there is none. */
  function Token(pkt: string): (t: string)
    ensures ',' in pkt ==> t == pkt[..Find(pkt, ',')] && ',' !in t
    ensures ',' !in pkt ==> |pkt| > 0 ==> t == pkt[..|pkt| - 1]
  {
    var i := Find(pkt, ',');
    if i >= 0 then pkt[..i] else if |pkt| > 0 then pkt[..|pkt| - 1] else []
  }

  /** The sentence family: the last three characters of a six-character token. */
  function Family(pkt: string): string {
    var key := Token(pkt);
    if |key| == 6 then key[3..6] else ""
  }

  /**
    The key parse_pkt stores a checksum-valid sentence under: the token,
    and for GSV and RMC `-` plus field 2, for GLL `-` plus field 6, unless
    the sentence has too few fields (the handler or the field lookup raises
    and the bare `except` leaves the key as it was).
  */
  function StorageKey(pkt: string): (key: string)
    ensures StartsWith(key, Token(pkt))
  {
    var t := Token(pkt);
    var suffix := KeySuffix(Family(pkt), Split(pkt, ','));
    assert (t + suffix)[..|t|] == t;
    t + suffix
  }

  /** What StorageKey appends to the token: `-` and the field for GSV, RMC and GLL, else nothing. */
  function KeySuffix(family: string, fields: seq<string>): string {
    if (family == "GSV" || family == "RMC") && |fields| > 2 then "-" + fields[2]
    else if family == "GLL" && |fields| > 6 then "-" + fields[6]
    else ""
  }

  /** parse_pkt's computation of the storage key, step by step. */
  method KeyOf(pkt: string) returns (key: string)
    ensures key == StorageKey(pkt)
  {
    key := Token(pkt);
    var fields := Split(pkt, ',');
    if |key| == 6 {
      var subKey := key[3..6];
      assert subKey == Family(pkt);
      if (subKey == "GSV" || subKey == "RMC") && |fields| > 2 {
        key := key + "-" + fields[2];
      } else if subKey == "GLL" && |fields| > 6 {
        key := key + "-" + fields[6];
      } else {
        assert key + "" == key;
      }
    } else {
      assert KeySuffix(Family(pkt), fields) == "";
      assert key + "" == key;
    }
  }

  lemma StorageKeyCases(pkt: string)
    ensures var fields := Split(pkt, ',');
      StorageKey(pkt) == Token(pkt) <==>
        !((Family(pkt) == "GSV" || Family(pkt) == "RMC") && |fields| > 2) &&
        !(Family(pkt) == "GLL" && |fields| > 6)
    ensures Family(pkt) in {"GSV", "RMC"} && |Split(pkt, ',')| > 2 ==>
      StorageKey(pkt) == Token(pkt) + "-" + Split(pkt, ',')[2]
    ensures Family(pkt) == "GLL" && |Split(pkt, ',')| > 6 ==>
      StorageKey(pkt) == Token(pkt) + "-" + Split(pkt, ',')[6]
  {
    var key := Token(pkt);
    var suffix := KeySuffix(Family(pkt), Split(pkt, ','));
    assert StorageKey(pkt) == key + suffix;
    assert |key + suffix| == |key| + |suffix|;
    var fields := Split(pkt, ',');
    if (Family(pkt) == "GSV" || Family(pkt) == "RMC") && |fields| > 2 {
      Reassociate(key, "-", fields[2]);
    } else if Family(pkt) == "GLL" && |fields| > 6 {
      Reassociate(key, "-", fields[6]);
    }
  }

  lemma Reassociate(a: string, b: string, c: string)
    ensures a + (b + c) == a + b + c
  {
  }
}
