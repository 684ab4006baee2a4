/** Optional values, standing for Python's `None` or a value. */
module Wrappers {
  datatype Option<+T> = None | Some(value: T)
}

/**
  The few Python string and bytes built-ins the poller relies on:
  `find`, `split`, `startswith`, clamped slicing, `bytes.lstrip`/`rstrip`
  and ASCII decoding.
*/
module PyText {

  /** A value of a Python `bytes` object. */
  type byte = b: int | 0 <= b < 256

  const CR: byte := 13
  const LF: byte := 10

  predicate IsAscii(s: string) {
    forall i :: 0 <= i < |s| ==> s[i] as int < 128
  }

  predicate AllAscii(bs: seq<byte>) {
    forall i :: 0 <= i < |bs| ==> bs[i] < 128
  }

  /** `bs.decode("ascii")` for bytes that are all ASCII. */
  function Decode(bs: seq<byte>): (s: string)
    requires AllAscii(bs)
    ensures |s| == |bs| && IsAscii(s)
    ensures forall i :: 0 <= i < |bs| ==> s[i] as int == bs[i]
  {
    seq(|bs|, i requires 0 <= i < |bs| => bs[i] as char)
  }

  function Min(a: int, b: int): int { if a < b then a else b }

  /** `s.find(x)`: the index of the first `x`, or -1. */
  function Find<T(==)>(s: seq<T>, x: T): (r: int)
    ensures r == -1 <==> x !in s
    ensures 0 <= r ==> r < |s| && s[r] == x && x !in s[..r]
    ensures -1 <= r
  {
    if |s| == 0 then -1
    else if s[0] == x then 0
    else
      var r := Find(s[1..], x);
      assert s[1..][..(if r < 0 then 0 else r)] == s[1..1 + (if r < 0 then 0 else r)];
      if r < 0 then -1 else r + 1
  }

  /** `s[i:j]` for non-negative bounds: Python clamps both ends to the length. */
  function Slice<T>(s: seq<T>, i: nat, j: nat): (r: seq<T>)
    ensures i <= j <= |s| ==> r == s[i..j]
    ensures i <= |s| < j ==> r == s[i..]
    ensures |r| == 0 <==> |s| <= i || j <= i
    ensures |r| <= |s|
  {
    if |s| <= i || j <= i then [] else s[i..Min(j, |s|)]
  }

  /** `s[i:]` for a non-negative start. */
  function Drop<T>(s: seq<T>, i: nat): (r: seq<T>)
    ensures i <= |s| ==> r == s[i..]
    ensures |s| <= i ==> r == []
  {
    if |s| <= i then [] else s[i..]
  }

  predicate StartsWith(s: string, prefix: string) {
    |prefix| <= |s| && s[..|prefix|] == prefix
  }

  /** The inverse of `Split`: the parts with `sep` between them. */
  function Join(parts: seq<string>, sep: char): string
    requires |parts| >= 1
  {
    if |parts| == 1 then parts[0] else parts[0] + [sep] + Join(parts[1..], sep)
  }

  /** `s.split(sep)` for a one-character separator. */
  function Split(s: string, sep: char): (parts: seq<string>)
    ensures |parts| >= 1
    ensures forall k :: 0 <= k < |parts| ==> sep !in parts[k]
    ensures sep in s ==> parts[0] == s[..Find(s, sep)]
    ensures sep !in s ==> parts == [s]
    decreases |s|
  {
    var i := Find(s, sep);
    if i < 0 then [s]
    else
      var rest := Split(s[i + 1..], sep);
      [s[..i]] + rest
  }

  /** Joining the parts of a split with the separator gives back the string. */
  lemma {:induction false} SplitJoin(s: string, sep: char)
    ensures Join(Split(s, sep), sep) == s
    decreases |s|
  {
    var i := Find(s, sep);
    if i >= 0 {
      var rest := Split(s[i + 1..], sep);
      SplitJoin(s[i + 1..], sep);
      var parts := [s[..i]] + rest;
      assert parts[1..] == rest;
      assert s == s[..i] + [sep] + s[i + 1..];
    }
  }

  /** `bs.lstrip(b"\n")`. */
  function LStripLf(bs: seq<byte>): (r: seq<byte>)
    ensures |r| <= |bs| && r == bs[|bs| - |r|..]
    ensures forall k :: 0 <= k < |bs| - |r| ==> bs[k] == LF
    ensures r == [] || r[0] != LF
  {
    if |bs| > 0 && bs[0] == LF then LStripLf(bs[1..]) else bs
  }

  /** `bs.rstrip(b"\n")`. */
  function RStripLf(bs: seq<byte>): (r: seq<byte>)
    ensures |r| <= |bs| && r == bs[..|r|]
    ensures forall k :: |r| <= k < |bs| ==> bs[k] == LF
    ensures r == [] || r[|r| - 1] != LF
  {
    if |bs| > 0 && bs[|bs| - 1] == LF then RStripLf(bs[..|bs| - 1]) else bs
  }

  /** `bs.lstrip(b"\n").rstrip(b"\n")`, applied to every bus read. */
  function StripLf(bs: seq<byte>): (r: seq<byte>)
    ensures AllAscii(bs) ==> AllAscii(r)
  {
    RStripLf(LStripLf(bs))
  }
}
