/**
 * The pieces of the Java platform the partition entity relies on to turn
 * numbers and flags into node data and back: the 32-bit `int`,
 * `Integer.toString` / `Integer.parseInt`, `Boolean.toString` /
 * `Boolean.parseBoolean`, and `String.getBytes()` / `new String(byte[])`.
 */
module JavaText {
  import opened Wrappers

  const INT_MIN: int := -0x8000_0000
  const INT_MAX: int := 0x7fff_ffff

  /** Java's `int`. */
  type int32 = x: int | INT_MIN <= x <= INT_MAX

  newtype byte = x: int | 0 <= x < 256

  /** The content of a node: a Java `byte[]`. */
  type Bytes = seq<byte>

  predicate IsDigit(c: char) {
    '0' <= c <= '9'
  }

  predicate AllDigits(s: string) {
    forall i | 0 <= i < |s| :: IsDigit(s[i])
  }

  function DigitChar(d: nat): (c: char)
    requires d < 10
    ensures IsDigit(c)
  {
    ('0' as int + d) as char
  }

  function DigitValue(c: char): (d: nat)
    requires IsDigit(c)
    ensures d < 10
  {
    c as int - '0' as int
  }

  /** The decimal numeral of `n`: at least one digit, most significant first. */
  function NatToDecimal(n: nat): (s: string)
    ensures 1 <= |s| && AllDigits(s)
    ensures n < 10 <==> |s| == 1
    decreases n
  {
    if n < 10 then [DigitChar(n)] else NatToDecimal(n / 10) + [DigitChar(n % 10)]
  }

  /** The number a string of decimal digits denotes (leading zeros allowed). */
  function DecimalValue(s: string): nat
    requires AllDigits(s)
  {
    if s == [] then 0 else DecimalValue(s[..|s| - 1]) * 10 + DigitValue(s[|s| - 1])
  }

  lemma {:induction false} DecimalRoundTrip(n: nat)
    ensures DecimalValue(NatToDecimal(n)) == n
  {
    if n >= 10 {
      var s := NatToDecimal(n);
      assert s[..|s| - 1] == NatToDecimal(n / 10);
      DecimalRoundTrip(n / 10);
    }
  }

  /** `Integer.toString(n)`: an optional minus sign followed by the decimal numeral. */
  function IntToString(n: int32): (s: string)
    ensures 1 <= |s|
    ensures IsDigit(s[0]) || s[0] == '-'
    ensures forall i | 0 < i < |s| :: IsDigit(s[i])
    ensures (n < 0) <==> s[0] == '-'
  {
    if n < 0 then "-" + NatToDecimal(-(n as int)) else NatToDecimal(n as int)
  }

  /**
   * `Integer.parseInt(s)`: an optional sign, then one or more decimal digits,
   * denoting a value within the range of `int`; `None` stands for the
   * `NumberFormatException` thrown on any other string.
   */
  function ParseInt(s: string): (r: Option<int32>)
    ensures r.Some? ==> |s| >= 1 && (IsDigit(s[0]) || s[0] == '-' || s[0] == '+')
    ensures r.Some? ==> forall i | 0 < i < |s| :: IsDigit(s[i])
    ensures r.Some? && s[0] == '+' ==> |s| >= 2
    ensures r.Some? && r.value < 0 ==> s[0] == '-'
  {
    if |s| == 0 then None
    else
      var digits := if s[0] == '-' || s[0] == '+' then s[1..] else s;
      if |digits| == 0 || !AllDigits(digits) then None
      else
        var v: int := if s[0] == '-' then 0 - DecimalValue(digits) as int else DecimalValue(digits);
        if INT_MIN <= v <= INT_MAX then Some(v) else None
  }

  /** `Integer.parseInt(Integer.toString(n)) == n` for every `int`. */
  lemma ParseIntToString(n: int32)
    ensures ParseInt(IntToString(n)) == Some(n)
  {
    var s := IntToString(n);
    if n < 0 {
      var digits := NatToDecimal(-(n as int));
      assert s[1..] == digits;
      DecimalRoundTrip(-(n as int));
    } else {
      assert s == NatToDecimal(n as int);
      assert IsDigit(s[0]);
      DecimalRoundTrip(n as int);
    }
  }

  /** A string with no sign and no digit in front is rejected by `Integer.parseInt`. */
  lemma ParseIntNeedsNumeral(s: string)
    requires |s| > 0 && !IsDigit(s[0]) && s[0] != '-' && s[0] != '+'
    ensures ParseInt(s) == None
  {
  }

  /** Text made of ASCII characters only, which every common charset encodes one byte per character. */
  predicate IsAscii(s: string) {
    forall i | 0 <= i < |s| :: s[i] as int < 128
  }

  /**
   * `new String(bytes)`, reading each byte as one character. This is exact
   * for ASCII bytes in every common default charset; other bytes are read as
   * Latin-1.
   */
  function BytesToString(b: Bytes): (s: string)
    ensures |s| == |b|
    ensures forall i | 0 <= i < |b| :: s[i] as int == b[i] as int
    ensures (forall i | 0 <= i < |b| :: b[i] < 128) <==> IsAscii(s)
  {
    seq(|b|, i requires 0 <= i < |b| => b[i] as int as char)
  }

  /** `s.getBytes()` for ASCII text: one byte per character, with the character's code. */
  function StringToBytes(s: string): (b: Bytes)
    requires IsAscii(s)
    ensures |b| == |s|
    ensures forall i | 0 <= i < |s| :: b[i] as int == s[i] as int && b[i] < 128
  {
    seq(|s|, i requires 0 <= i < |s| => s[i] as int as byte)
  }

  lemma BytesRoundTrip(s: string)
    requires IsAscii(s)
    ensures BytesToString(StringToBytes(s)) == s
  {
    var t := BytesToString(StringToBytes(s));
    assert forall i | 0 <= i < |s| :: t[i] == s[i];
  }

  /** `Boolean.toString(b)`: ASCII text that `Boolean.parseBoolean` reads back as `b`. */
  function BooleanToString(b: bool): (s: string)
    ensures IsAscii(s)
    ensures ParseBoolean(s) == b
  {
    if b then "true" else "false"
  }

  function ToLowerAscii(c: char): char {
    if 'A' <= c <= 'Z' then (c as int + 32) as char else c
  }

  /** `Boolean.parseBoolean(s)`: true exactly when `s` reads "true" in any letter case. */
  function ParseBoolean(s: string): (b: bool)
    ensures b ==> |s| == 4
  {
    |s| == 4 && forall i | 0 <= i < 4 :: ToLowerAscii(s[i]) == "true"[i]
  }
}
