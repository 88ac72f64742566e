/** Numbers as text, printed and read the way the options code does it. */
module EnvText {

  predicate IsDigit(c: char) { '0' <= c <= '9' }

  function DigitValue(c: char): nat
    requires IsDigit(c)
  {
    c as int - '0' as int
  }

  function Digit(d: nat): (c: char)
    requires d < 10
    ensures IsDigit(c) && DigitValue(c) == d
  {
    ('0' as int + d) as char
  }

  /** The value of a hexadecimal digit; 16 for any other character. */
  function HexValueOf(c: char): (v: nat)
    ensures v <= 16
  {
    if '0' <= c <= '9' then c as int - '0' as int
    else if 'a' <= c <= 'f' then c as int - 'a' as int + 10
    else if 'A' <= c <= 'F' then c as int - 'A' as int + 10
    else 16
  }

  function HexDigit(d: nat): (c: char)
    requires d < 16
    ensures HexValueOf(c) == d
  {
    if d < 10 then ('0' as int + d) as char else ('a' as int + (d - 10)) as char
  }

  // ---------------------------------------------------------------- printing

  /** %lu and %d. */
  function Decimal(n: nat): (s: string)
    ensures |s| > 0 && forall i :: 0 <= i < |s| ==> IsDigit(s[i])
  {
    if n < 10 then [Digit(n)] else Decimal(n / 10) + [Digit(n % 10)]
  }

  function HexDigits(n: nat): (s: string)
    ensures |s| > 0 && forall i :: 0 <= i < |s| ==> HexValueOf(s[i]) < 16
  {
    if n < 16 then [HexDigit(n)] else HexDigits(n / 16) + [HexDigit(n % 16)]
  }

  /** %#x and %#lx of a number other than 0. */
  function Hexadecimal(n: nat): string
  {
    "0x" + HexDigits(n)
  }

  // ---------------------------------------------------------------- reading

  predicate IsBlank(c: char) { c == ' ' || c == '\t' }

  /** Where the characters that satisfy the test stop. */
  function Blanks(s: string, i: nat): (j: nat)
    requires i <= |s|
    decreases |s| - i
    ensures i <= j <= |s|
  {
    if i < |s| && IsBlank(s[i]) then Blanks(s, i + 1) else i
  }

  /** The decimal number that starts at i, added to what was read before. */
  function DecFrom(s: string, i: nat, sofar: nat): nat
    requires i <= |s|
    decreases |s| - i
  {
    if i < |s| && IsDigit(s[i]) then DecFrom(s, i + 1, 10 * sofar + DigitValue(s[i])) else sofar
  }

  function HexFrom(s: string, i: nat, sofar: nat): nat
    requires i <= |s|
    decreases |s| - i
  {
    if i < |s| && HexValueOf(s[i]) < 16 then HexFrom(s, i + 1, 16 * sofar + HexValueOf(s[i])) else sofar
  }

  /** loc_atoul. */
  function DecValue(s: string): nat
  {
    DecFrom(s, Blanks(s, 0), 0)
  }

  /** The optional 0x. */
  function HexStart(s: string): (j: nat)
    ensures j <= |s|
  {
    var i := Blanks(s, 0);
    if i + 1 < |s| && s[i] == '0' && (s[i + 1] == 'x' || s[i + 1] == 'X') then i + 2 else i
  }

  /** hex_to_long. */
  function HexValue(s: string): nat
  {
    HexFrom(s, HexStart(s), 0)
  }

  /** atoi: like loc_atoul, with a sign. */
  function Signed(s: string): int
  {
    var i := Blanks(s, 0);
    if i < |s| && s[i] == '-' then 0 - DecFrom(s, i + 1, 0)
    else if i < |s| && s[i] == '+' then DecFrom(s, i + 1, 0)
    else DecFrom(s, i, 0)
  }

  // ---------------------------------------------------------------- round trips

  lemma {:induction false} DecOfConcat(s: string, t: string, i: nat, sofar: nat)
    requires i <= |s| && forall k :: i <= k < |s| ==> IsDigit(s[k])
    decreases |s| - i
    ensures DecFrom(s + t, i, sofar) == DecFrom(s + t, |s|, DecFrom(s, i, sofar))
  {
    if i < |s| {
      assert (s + t)[i] == s[i];
      DecOfConcat(s, t, i + 1, 10 * sofar + DigitValue(s[i]));
    }
  }

  /** Printed decimal numbers are read back, whatever follows that is no digit. */
  lemma {:induction false} DecimalRead(n: nat)
    decreases n
    ensures DecFrom(Decimal(n), 0, 0) == n
  {
    if n < 10 {
      assert DecFrom(Decimal(n), 1, n) == n;
      assert Decimal(n)[0] == Digit(n);
    } else {
      var s, t := Decimal(n / 10), [Digit(n % 10)];
      DecimalRead(n / 10);
      DecOfConcat(s, t, 0, 0);
      assert (s + t)[|s|] == t[0];
      assert DecFrom(s + t, |s| + 1, n) == n;
    }
  }

  lemma {:induction false} DecimalRoundTrip(n: nat)
    ensures DecValue(Decimal(n)) == n && Signed(Decimal(n)) == n
  {
    DecimalRead(n);
    assert IsDigit(Decimal(n)[0]);
  }

  lemma {:induction false} HexOfConcat(s: string, t: string, i: nat, sofar: nat)
    requires i <= |s| && forall k :: i <= k < |s| ==> HexValueOf(s[k]) < 16
    decreases |s| - i
    ensures HexFrom(s + t, i, sofar) == HexFrom(s + t, |s|, HexFrom(s, i, sofar))
  {
    if i < |s| {
      assert (s + t)[i] == s[i];
      HexOfConcat(s, t, i + 1, 16 * sofar + HexValueOf(s[i]));
    }
  }

  lemma {:induction false} HexRead(n: nat)
    decreases n
    ensures HexFrom(HexDigits(n), 0, 0) == n
  {
    if n < 16 {
      assert HexFrom(HexDigits(n), 1, n) == n;
      assert HexDigits(n)[0] == HexDigit(n);
    } else {
      var s, t := HexDigits(n / 16), [HexDigit(n % 16)];
      HexRead(n / 16);
      HexOfConcat(s, t, 0, 0);
      assert (s + t)[|s|] == t[0];
      assert HexFrom(s + t, |s| + 1, n) == n;
    }
  }

  lemma {:induction false} HexPrefixed(pre: string, s: string, i: nat, sofar: nat)
    requires i <= |s|
    decreases |s| - i
    ensures HexFrom(pre + s, |pre| + i, sofar) == HexFrom(s, i, sofar)
  {
    if i < |s| {
      assert (pre + s)[|pre| + i] == s[i];
      if HexValueOf(s[i]) < 16 { HexPrefixed(pre, s, i + 1, 16 * sofar + HexValueOf(s[i])); }
    }
  }

  /** Printed hexadecimal numbers are read back, up to anything that is no digit. */
  lemma {:induction false} HexRoundTrip(n: nat, rest: string)
    requires rest != "" ==> HexValueOf(rest[0]) == 16
    ensures HexValue(Hexadecimal(n) + rest) == n
  {
    var digits := HexDigits(n);
    var s := Hexadecimal(n) + rest;
    assert s == "0x" + (digits + rest);
    HexRead(n);
    HexOfConcat(digits, rest, 0, 0);
    HexPrefixed("0x", digits + rest, 0, 0);
    if rest != "" { assert (digits + rest)[|digits|] == rest[0]; }
  }

  // ---------------------------------------------------------------- the loops

  /** loc_atoul. */
  method ReadDecimal(s: string) returns (result: nat)
    ensures result == DecValue(s)
  {
    var i := 0;
    while i < |s| && IsBlank(s[i])
      invariant 0 <= i <= |s| && Blanks(s, 0) == Blanks(s, i)
    {
      i := i + 1;
    }
    result := 0;
    while i < |s| && IsDigit(s[i])
      invariant 0 <= i <= |s| && DecValue(s) == DecFrom(s, i, result)
    {
      result := result * 10 + DigitValue(s[i]);
      i := i + 1;
    }
  }

  /** hex_to_long. */
  method HexToLong(s: string) returns (ret: nat)
    ensures ret == HexValue(s)
  {
    var i := 0;
    while i < |s| && IsBlank(s[i])
      invariant 0 <= i <= |s| && Blanks(s, 0) == Blanks(s, i)
    {
      i := i + 1;
    }
    if i + 1 < |s| && s[i] == '0' && (s[i + 1] == 'x' || s[i + 1] == 'X') {
      i := i + 2;
    }
    ret := 0;
    while i < |s|
      invariant 0 <= i <= |s| && HexValue(s) == HexFrom(s, i, ret)
    {
      if '0' <= s[i] <= '9' {
        ret := ret * 16 + (s[i] as int - '0' as int);
      } else if 'a' <= s[i] <= 'f' {
        ret := ret * 16 + (s[i] as int - 'a' as int + 10);
      } else if 'A' <= s[i] <= 'F' {
        ret := ret * 16 + (s[i] as int - 'A' as int + 10);
      } else {
        break;
      }
      i := i + 1;
    }
  }
}
