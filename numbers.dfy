/**
  Integer text conversions as the firmware's MicroPython performs them:
  `int(s)`, `int(s, 16)` and the `"%02X"` format.
*/
module Numbers {
  import opened Wrappers

  /** The characters MicroPython's `int()` skips around a number: space, \t, \n, \v, \f, \r. */
  predicate IsSpace(c: char) {
    c == ' ' || 9 <= c as int <= 13
  }

  /** The value of a digit character in bases up to 36 (letters in either case), if any. */
  function DigitValue(c: char): Option<nat> {
    if '0' <= c <= '9' then Some(c as int - '0' as int)
    else if 'a' <= c <= 'z' then Some(c as int - 'a' as int + 10)
    else if 'A' <= c <= 'Z' then Some(c as int - 'A' as int + 10)
    else None
  }

  predicate IsDigit(c: char, base: nat) {
    DigitValue(c).Some? && DigitValue(c).value < base
  }

  predicate AllDigits(s: string, base: nat) {
    forall i :: 0 <= i < |s| ==> IsDigit(s[i], base)
  }

  /** The value of a string of digits, most significant first. */
  function DigitsValue(s: string, base: nat): (v: nat)
    requires AllDigits(s, base)
  {
    if |s| == 0 then 0
    else DigitsValue(s[..|s| - 1], base) * base + DigitValue(s[|s| - 1]).value
  }

  /** `s[a..b]` is what is left of `s` once white space is cut from both ends. */
  ghost predicate TrimmedTo(s: string, a: int, b: int) {
    && 0 <= a <= b <= |s|
    && (forall i :: 0 <= i < a ==> IsSpace(s[i]))
    && (forall i :: b <= i < |s| ==> IsSpace(s[i]))
  }

  /** The white space `int()` skips, removed from both ends. */
  function TrimSpace(s: string): (t: string)
    ensures |t| <= |s|
    ensures t == [] || (!IsSpace(t[0]) && !IsSpace(t[|t| - 1]))
    decreases |s|
  {
    if |s| > 0 && IsSpace(s[0]) then TrimSpace(s[1..])
    else if |s| > 0 && IsSpace(s[|s| - 1]) then TrimSpace(s[..|s| - 1])
    else s
  }

  /** TrimSpace keeps an infix of its input and drops only white space on either side of it. */
  lemma {:induction false} TrimSpaceInfix(s: string)
    ensures exists a, b :: TrimmedTo(s, a, b) && TrimSpace(s) == s[a..b]
    decreases |s|
  {
    var t := TrimSpace(s);
    if |s| > 0 && IsSpace(s[0]) {
      TrimSpaceInfix(s[1..]);
      var a, b :| TrimmedTo(s[1..], a, b) && t == s[1..][a..b];
      TrimmedFront(s, a, b);
    } else if |s| > 0 && IsSpace(s[|s| - 1]) {
      TrimSpaceInfix(s[..|s| - 1]);
      var a, b :| TrimmedTo(s[..|s| - 1], a, b) && t == s[..|s| - 1][a..b];
      TrimmedBack(s, a, b);
    } else {
      assert TrimmedTo(s, 0, |s|) && t == s[0..|s|];
    }
  }

  lemma TrimmedFront(s: string, a: int, b: int)
    requires |s| > 0 && IsSpace(s[0]) && TrimmedTo(s[1..], a, b)
    ensures TrimmedTo(s, a + 1, b + 1) && s[1..][a..b] == s[a + 1..b + 1]
  {
    forall i | 0 < i < a + 1 ensures IsSpace(s[i]) { assert s[i] == s[1..][i - 1]; }
    forall i | b + 1 <= i < |s| ensures IsSpace(s[i]) { assert s[i] == s[1..][i - 1]; }
  }

  lemma TrimmedBack(s: string, a: int, b: int)
    requires |s| > 0 && IsSpace(s[|s| - 1]) && TrimmedTo(s[..|s| - 1], a, b)
    ensures TrimmedTo(s, a, b) && s[..|s| - 1][a..b] == s[a..b]
  {
    forall i | 0 <= i < a ensures IsSpace(s[i]) { assert s[i] == s[..|s| - 1][i]; }
    forall i | b <= i < |s| - 1 ensures IsSpace(s[i]) { assert s[i] == s[..|s| - 1][i]; }
  }

  /**
    `int(s, base)` for base 10 or 16: surrounding white space, an optional
    sign, in base 16 an optional `0x`/`0X` prefix, then at least one digit.
    `None` stands for the `ValueError` Python raises otherwise.
  */
  function ParseInteger(s: string, base: nat): (r: Option<int>)
    requires base == 10 || base == 16
  {
    var t := TrimSpace(s);
    var negative := |t| > 0 && t[0] == '-';
    var unsigned := if |t| > 0 && (t[0] == '-' || t[0] == '+') then t[1..] else t;
    var digits :=
      if base == 16 && |unsigned| >= 2 && unsigned[0] == '0' && (unsigned[1] == 'x' || unsigned[1] == 'X')
      then unsigned[2..] else unsigned;
    if |digits| > 0 && AllDigits(digits, base) then
      Some(if negative then -(DigitsValue(digits, base) as int) else DigitsValue(digits, base))
    else None
  }

  /** `int(s)`. */
  function ParseInt(s: string): Option<int> {
    ParseInteger(s, 10)
  }

  /** `int(s, 16)`. */
  function ParseHex(s: string): Option<int> {
    ParseInteger(s, 16)
  }

  function HexDigit(d: nat): (c: char)
    requires d < 16
    ensures IsDigit(c, 16) && DigitValue(c) == Some(d)
    ensures c !in "xX+- "
  {
    if d < 10 then ('0' as int + d) as char else ('A' as int + d - 10) as char
  }

  /** `"%02X" % n` for a byte value: two upper-case hex digits. */
  function Hex2(n: nat): (s: string)
    requires n < 256
    ensures |s| == 2 && AllDigits(s, 16)
    ensures forall i :: 0 <= i < 2 ==> s[i] in "0123456789ABCDEF"
  {
    [HexDigit(n / 16), HexDigit(n % 16)]
  }

  /** What `"%02X"` writes, `int(…, 16)` reads back. */
  lemma HexRoundTrip(n: nat)
    requires n < 256
    ensures ParseHex(Hex2(n)) == Some(n)
  {
    var hi, lo := n / 16, n % 16;
    var s := Hex2(n);
    assert s == [HexDigit(hi), HexDigit(lo)];
    assert !IsSpace(s[0]) && !IsSpace(s[1]);
    assert TrimSpace(s) == s;
    assert s[1] != 'x' && s[1] != 'X' && s[0] != '-' && s[0] != '+';
    assert s[..1] == [s[0]] && s[..1][..0] == [];
    assert DigitsValue(s[..1], 16) == hi;
    assert hi * 16 + lo == n;
    assert DigitsValue(s, 16) == n;
    assert s[1] != 'x' && s[1] != 'X';
  }

  /** `int()` of plain decimal digits is their value. */
  lemma ParseIntDigits(s: string)
    requires |s| > 0 && AllDigits(s, 10)
    ensures ParseInt(s) == Some(DigitsValue(s, 10))
  {
    assert !IsSpace(s[0]) && !IsSpace(s[|s| - 1]);
    assert TrimSpace(s) == s;
    assert s[0] != '-' && s[0] != '+';
  }

  /** Two decimal digits are worth less than 100. */
  lemma TwoDigitsBelow100(s: string)
    requires |s| == 2 && AllDigits(s, 10)
    ensures DigitsValue(s, 10) < 100
  {
    assert s[..1][..0] == [];
    assert DigitsValue(s[..1], 10) < 10;
  }
}
