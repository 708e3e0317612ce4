/** strconv.FormatInt, ParseUint and ParseInt, with Go's 64-bit range errors. */
module Numerals {
  const UINT64_LIMIT := 0x1_0000_0000_0000_0000
  const INT64_LIMIT := 0x8000_0000_0000_0000

  datatype Base = Ten | Sixteen

  datatype Parsed = Number(n: int) | Syntax | OutOfRange

  function Radix(b: Base): (r: nat)
  {
    if b.Ten? then 10 else 16
  }

  /** `high` followed by the digit `low`. */
  function Shift(high: nat, b: Base, low: nat): (n: nat)
  {
    if b.Ten? then high * 10 + low else high * 16 + low
  }

  function High(n: nat, b: Base): (h: nat)
    ensures n > 0 ==> h < n
  {
    if b.Ten? then n / 10 else n / 16
  }

  function Low(n: nat, b: Base): (l: nat)
    ensures l < Radix(b) && Shift(High(n, b), b, l) == n
  {
    if b.Ten? then n % 10 else n % 16
  }

  predicate IsHexDigit(c: char)
  {
    '0' <= c <= '9' || 'a' <= c <= 'f'
  }

  function DigitChar(d: nat): (c: char)
    requires d < 16
    ensures IsHexDigit(c)
    ensures DigitValue(c) == d
  {
    if d < 10 then (d + '0' as int) as char else (d - 10 + 'a' as int) as char
  }

  /** The value strconv gives a digit character; 36 for anything else. */
  function DigitValue(c: char): (v: nat)
    ensures v <= 36
  {
    if '0' <= c <= '9' then c as int - '0' as int
    else if 'a' <= c <= 'z' then c as int - 'a' as int + 10
    else if 'A' <= c <= 'Z' then c as int - 'A' as int + 10
    else 36
  }

  /** strconv.FormatInt for a non-negative number. */
  function Format(n: nat, b: Base): (s: string)
    ensures |s| > 0
    ensures forall i :: 0 <= i < |s| ==> IsHexDigit(s[i])
  {
    if n < Radix(b) then [DigitChar(n)] else Format(High(n, b), b) + [DigitChar(Low(n, b))]
  }

  /** The loop of strconv.ParseUint: the first bad digit or overflow ends it. */
  function ParseFrom(s: string, b: Base, acc: nat): (p: Parsed)
    ensures p.Number? && acc < UINT64_LIMIT ==> 0 <= p.n < UINT64_LIMIT
    decreases |s|
  {
    if s == "" then Number(acc)
    else
      var v := DigitValue(s[0]);
      if v >= Radix(b) then Syntax
      else if Shift(acc, b, v) >= UINT64_LIMIT then OutOfRange
      else ParseFrom(s[1..], b, Shift(acc, b, v))
  }

  function ParseUint(s: string, b: Base): (p: Parsed)
    ensures p.Number? ==> 0 <= p.n < UINT64_LIMIT
  {
    if s == "" then Syntax else ParseFrom(s, b, 0)
  }

  /** strconv.ParseInt(s, 10, 64). */
  function ParseInt(s: string): (p: Parsed)
    ensures p.Number? ==> -INT64_LIMIT <= p.n < INT64_LIMIT
  {
    if s == "" then Syntax
    else
      var neg := s[0] == '-';
      var u := ParseUint(if neg || s[0] == '+' then s[1..] else s, Ten);
      if !u.Number? then u
      else if !neg && u.n >= INT64_LIMIT then OutOfRange
      else if neg && u.n > INT64_LIMIT then OutOfRange
      else Number(if neg then -u.n else u.n)
  }

  /** Numbers are parsed left to right: a prefix's value is the accumulator for the rest. */
  lemma {:induction false} ParseSplit(s: string, t: string, b: Base, acc: nat)
    requires acc < UINT64_LIMIT && ParseFrom(s, b, acc).Number?
    ensures ParseFrom(s + t, b, acc) == ParseFrom(t, b, ParseFrom(s, b, acc).n)
    decreases |s|
  {
    if s == "" {
      assert s + t == t;
    } else {
      assert (s + t)[1..] == s[1..] + t;
      ParseSplit(s[1..], t, b, Shift(acc, b, DigitValue(s[0])));
    }
  }

  /** Parsing undoes printing below the 64-bit limit. */
  lemma {:induction false} FormatParse(n: nat, b: Base)
    requires n < UINT64_LIMIT
    ensures ParseUint(Format(n, b), b) == Number(n)
  {
    if n < Radix(b) {
      var s := [DigitChar(n)];
      assert Format(n, b) == s && s[1..] == "";
      assert ParseFrom(s, b, 0) == ParseFrom(s[1..], b, Shift(0, b, n));
    } else {
      var low := [DigitChar(Low(n, b))];
      FormatParse(High(n, b), b);
      ParseSplit(Format(High(n, b), b), low, b, 0);
      assert low[1..] == "";
    }
  }

  /** A non-negative int64 printed in decimal is read back by ParseInt. */
  lemma FormatParseInt(n: nat)
    requires n < INT64_LIMIT
    ensures ParseInt(Format(n, Ten)) == Number(n)
  {
    FormatParse(n, Ten);
    var s := Format(n, Ten);
    assert IsHexDigit(s[0]);
  }

  /** The first printed digit is not zero unless the number is. */
  lemma {:induction false} FormatNoLeadingZero(n: nat, b: Base)
    requires n > 0
    ensures Format(n, b)[0] != '0'
  {
    if n >= Radix(b) {
      FormatNoLeadingZero(High(n, b), b);
    }
  }

  function Pow16(k: nat): nat { if k == 0 then 1 else 16 * Pow16(k - 1) }

  lemma {:induction false} FormatLength(n: nat, k: nat)
    requires k > 0 && n < Pow16(k)
    ensures |Format(n, Sixteen)| <= k
  {
    if n >= 16 {
      assert Pow16(1) == 16 * Pow16(0);
      FormatLength(n / 16, k - 1);
    }
  }

  /** A 64-bit number prints in at most sixteen hexadecimal digits. */
  lemma HexLength(n: nat)
    requires n < UINT64_LIMIT
    ensures |Format(n, Sixteen)| <= 16
  {
    assert Pow16(4) == 0x1_0000;
    assert Pow16(8) == 0x1_0000 * Pow16(4);
    assert Pow16(12) == 0x1_0000 * Pow16(8);
    assert Pow16(16) == 0x1_0000 * Pow16(12);
    FormatLength(n, 16);
  }
}
