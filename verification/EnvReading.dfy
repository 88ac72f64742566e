/** How numbers and settings are read, whoever wrote them: digits of either case, blanks in front,
    signs, whatever stands behind. */
module EnvReading {
  import opened Basics
  import opened EnvText
  import opened EnvOptions

  const LOWER: string := "0123456789abcdef"
  const UPPER: string := "0123456789ABCDEF"

  // ---------------------------------------------------------------- positional numbers

  function Pow(b: nat, n: nat): nat
  {
    if n == 0 then 1 else b * Pow(b, n - 1)
  }

  /** The number that the digits stand for, the first one being worth most. */
  function Positional(digits: seq<nat>, b: nat): nat
  {
    if digits == [] then 0 else digits[0] * Pow(b, |digits| - 1) + Positional(digits[1..], b)
  }

  predicate HexChar(c: char, d: nat) {
    d < 16 && (c == LOWER[d] || c == UPPER[d])
  }

  predicate DecChar(c: char, d: nat) {
    d < 10 && c == LOWER[d]
  }

  /** The characters are digits of base 16 with these values, each in lower or upper case. */
  predicate HexOf(t: string, digits: seq<nat>) {
    |t| == |digits| && forall i :: 0 <= i < |t| ==> HexChar(t[i], digits[i])
  }

  predicate DecOf(t: string, digits: seq<nat>) {
    |t| == |digits| && forall i :: 0 <= i < |t| ==> DecChar(t[i], digits[i])
  }

  /** What follows does not go on with a digit. */
  predicate NoHex(rest: string) {
    rest == "" || (rest[0] !in LOWER && rest[0] !in UPPER)
  }

  predicate NoDec(rest: string) {
    rest == "" || rest[0] !in LOWER[..10]
  }

  predicate AllBlank(t: string) {
    forall i :: 0 <= i < |t| ==> t[i] == ' ' || t[i] == '\t'
  }

  /** Every hexadecimal digit has its value in either case, and no other character has one. */
  lemma {:induction false} HexDigitValues(d: nat, c: char)
    ensures d < 16 ==> HexValueOf(LOWER[d]) == d && HexValueOf(UPPER[d]) == d
    ensures HexValueOf(c) < 16 <==> c in LOWER || c in UPPER
  {
    var v := HexValueOf(c);
    if v < 16 {
      assert LOWER[v] == c || UPPER[v] == c;
    } else {
      assert c !in LOWER && c !in UPPER;
    }
  }

  lemma {:induction false} DecDigitValues(d: nat, c: char)
    ensures d < 10 ==> IsDigit(LOWER[d]) && DigitValue(LOWER[d]) == d
    ensures IsDigit(c) <==> c in LOWER[..10]
  {
    if IsDigit(c) {
      assert LOWER[..10][DigitValue(c)] == c;
    }
  }

  lemma {:induction false} BlanksSkipped(pre: string, s: string)
    requires AllBlank(pre) && (s == "" || (s[0] != ' ' && s[0] != '\t'))
    ensures Blanks(pre + s, 0) == |pre|
  {
    BlanksFrom(pre, s, 0);
  }

  lemma {:induction false} BlanksFrom(pre: string, s: string, i: nat)
    requires AllBlank(pre) && (s == "" || (s[0] != ' ' && s[0] != '\t')) && i <= |pre|
    decreases |pre| - i
    ensures Blanks(pre + s, i) == |pre|
  {
    if i < |pre| {
      assert (pre + s)[i] == pre[i];
      BlanksFrom(pre, s, i + 1);
    } else if s != "" {
      assert (pre + s)[i] == s[0];
    }
  }

  lemma {:induction false} HexCharRead(c: char, d: nat)
    requires HexChar(c, d)
    ensures HexValueOf(c) == d < 16 && c != ' ' && c != '\t' && c != 'x' && c != 'X' && (c == '0' <==> d == 0)
  {
    HexDigitValues(d, c);
  }

  lemma {:induction false} DecCharRead(c: char, d: nat)
    requires DecChar(c, d)
    ensures IsDigit(c) && DigitValue(c) == d && c != ' ' && c != '\t' && c != '+' && c != '-'
  {
    DecDigitValues(d, c);
  }

  lemma {:induction false} HexStops(rest: string)
    requires NoHex(rest)
    ensures rest != "" ==> HexValueOf(rest[0]) == 16
  {
    if rest != "" { HexDigitValues(0, rest[0]); }
  }

  lemma {:induction false} DecStops(rest: string)
    requires NoDec(rest)
    ensures rest != "" ==> !IsDigit(rest[0])
  {
    if rest != "" { DecDigitValues(0, rest[0]); }
  }

  lemma {:induction false} HexReadOn(pre: string, t: string, digits: seq<nat>, rest: string, sofar: nat)
    requires HexOf(t, digits) && NoHex(rest)
    decreases |t|
    ensures HexFrom(pre + t + rest, |pre|, sofar) == sofar * Pow(16, |t|) + Positional(digits, 16)
  {
    hide HexChar, NoHex, HexValueOf;
    var s := pre + t + rest;
    if t == "" {
      HexStops(rest);
      if rest != "" { assert s[|pre|] == rest[0]; }
    } else {
      assert s[|pre|] == t[0];
      HexCharRead(t[0], digits[0]);
      assert s == (pre + [t[0]]) + t[1..] + rest;
      HexReadOn(pre + [t[0]], t[1..], digits[1..], rest, 16 * sofar + digits[0]);
      Shifted(sofar, digits[0], 16, |t| - 1);
      hide Pow;
    }
  }

  lemma {:induction false} DecReadOn(pre: string, t: string, digits: seq<nat>, rest: string, sofar: nat)
    requires DecOf(t, digits) && NoDec(rest)
    decreases |t|
    ensures DecFrom(pre + t + rest, |pre|, sofar) == sofar * Pow(10, |t|) + Positional(digits, 10)
  {
    hide DecChar, NoDec;
    var s := pre + t + rest;
    if t == "" {
      DecStops(rest);
      if rest != "" { assert s[|pre|] == rest[0]; }
    } else {
      assert s[|pre|] == t[0];
      DecCharRead(t[0], digits[0]);
      assert s == (pre + [t[0]]) + t[1..] + rest;
      DecReadOn(pre + [t[0]], t[1..], digits[1..], rest, 10 * sofar + digits[0]);
      Shifted(sofar, digits[0], 10, |t| - 1);
      hide Pow;
    }
  }

  lemma {:induction false} Shifted(sofar: nat, d: nat, b: nat, n: nat)
    ensures (b * sofar + d) * Pow(b, n) == sofar * Pow(b, n + 1) + d * Pow(b, n)
  {
    var p := Pow(b, n);
    assert (b * sofar + d) * p == b * sofar * p + d * p;
    assert sofar * (b * p) == b * sofar * p;
  }

  /** A hexadecimal number in either case or mixed, after blanks and 0x, 0X or nothing, is read as the
      sum of its digits by position, up to the first character that is no digit.  (A lone 0 without
      prefix in front of an x would be taken for a prefix.) */
  lemma {:induction false} HexIsRead(blanks: string, prefix: string, t: string, digits: seq<nat>, rest: string)
    requires AllBlank(blanks) && prefix in ["", "0x", "0X"] && HexOf(t, digits) && NoHex(rest)
    requires prefix == "" ==> t != "" && !(t == "0" && rest != "" && rest[0] in "xX")
    ensures HexValue(blanks + prefix + t + rest) == Positional(digits, 16)
  {
    hide HexChar, NoHex, HexValueOf, Positional, HexFrom;
    if prefix == "" {
      assert blanks + prefix + t + rest == blanks + t + rest;
      NoPrefix(blanks, t, digits, rest);
      HexReadOn(blanks, t, digits, rest, 0);
    } else {
      Prefixed(blanks, prefix, t + rest);
      assert blanks + prefix + t + rest == blanks + prefix + (t + rest) == (blanks + prefix) + t + rest;
      HexReadOn(blanks + prefix, t, digits, rest, 0);
    }
  }

  lemma {:induction false} Prefixed(blanks: string, prefix: string, rest: string)
    requires AllBlank(blanks) && prefix in ["0x", "0X"]
    ensures HexStart(blanks + prefix + rest) == |blanks| + 2
  {
    var s := blanks + prefix + rest;
    assert s == blanks + (prefix + rest);
    BlanksSkipped(blanks, prefix + rest);
    assert s[|blanks|] == prefix[0] && s[|blanks| + 1] == prefix[1];
  }

  lemma {:induction false} NoPrefix(blanks: string, t: string, digits: seq<nat>, rest: string)
    requires AllBlank(blanks) && HexOf(t, digits) && t != "" && !(t == "0" && rest != "" && rest[0] in "xX")
    ensures HexStart(blanks + t + rest) == |blanks|
  {
    hide HexChar;
    var s := blanks + t + rest;
    HexCharRead(t[0], digits[0]);
    assert s == blanks + (t + rest) && (t + rest)[0] == t[0];
    BlanksSkipped(blanks, t + rest);
    assert s[|blanks|] == t[0];
    if |t| > 1 {
      HexCharRead(t[1], digits[1]);
      assert s[|blanks| + 1] == t[1];
    } else if rest != "" {
      assert s[|blanks| + 1] == rest[0];
      assert t == [t[0]];
    }
  }

  /** A decimal number after blanks, up to the first character that is no digit. */
  lemma {:induction false} DecimalIsRead(blanks: string, t: string, digits: seq<nat>, rest: string)
    requires AllBlank(blanks) && DecOf(t, digits) && t != "" && NoDec(rest)
    ensures DecValue(blanks + t + rest) == Positional(digits, 10)
  {
    hide DecChar, NoDec, Positional, DecFrom;
    DecCharRead(t[0], digits[0]);
    assert blanks + t + rest == blanks + (t + rest) && (t + rest)[0] == t[0];
    BlanksSkipped(blanks, t + rest);
    DecReadOn(blanks, t, digits, rest, 0);
  }

  /** What atoi reads: the same with an optional sign. */
  lemma {:induction false} SignedIsRead(blanks: string, sign: string, t: string, digits: seq<nat>, rest: string)
    requires AllBlank(blanks) && sign in ["", "+", "-"] && DecOf(t, digits) && t != "" && NoDec(rest)
    ensures Signed(blanks + sign + t + rest)
      == if sign == "-" then 0 - Positional(digits, 10) else Positional(digits, 10)
  {
    hide DecChar, NoDec, Positional, DecFrom;
    var s := blanks + sign + t + rest;
    var body := sign + t + rest;
    DecCharRead(t[0], digits[0]);
    assert s == blanks + body && body[0] == if sign == "" then t[0] else sign[0];
    BlanksSkipped(blanks, body);
    assert s[|blanks|] == body[0];
    if sign == "" {
      assert s == blanks + t + rest;
      DecReadOn(blanks, t, digits, rest, 0);
    } else {
      assert s == (blanks + sign) + t + rest;
      DecReadOn(blanks + sign, t, digits, rest, 0);
    }
  }

  /** Without a digit where the number should be the value is 0. */
  lemma {:induction false} NothingToRead(blanks: string, rest: string)
    requires AllBlank(blanks) && (rest == "" || (rest[0] !in LOWER && rest[0] !in UPPER && rest[0] !in " \t+-"))
    ensures DecValue(blanks + rest) == HexValue(blanks + rest) == 0 && Signed(blanks + rest) == 0
  {
    BlanksSkipped(blanks, rest);
    if rest != "" {
      assert (blanks + rest)[|blanks|] == rest[0];
      HexDigitValues(0, rest[0]);
      DecDigitValues(0, rest[0]);
    }
  }

  // ---------------------------------------------------------------- settings

  /** The first colon splits an address from its count; without one the count stays as it was. */
  lemma {:induction false} AddressIsSplit(c: Config, left: string, right: string)
    requires NoChar(left, ':')
    ensures AddressBreak(c, left + ":" + right)
      == c.(addr := HexValue(left + ":" + right), addrCount := DecValue(right))
    ensures AddressBreak(c, left) == c.(addr := HexValue(left))
  {
    var v := left + ":" + right;
    IndexSkips(v, ':', 0, |left|);
    assert v[|left| + 1..] == right;
    IndexSkips(left, ':', 0, |left|);
  }

  /** A start without colon: s and a size, c and a count, or a count alone; whatever was set before is
      gone. */
  lemma {:induction false} StartIsRead(c: Config, v: string)
    requires NoChar(v, ':')
    ensures var d := c.(startFile := None, startLine := 0, startIter := 0, startSize := 0);
      && StartBreak(c, "s" + v) == d.(startSize := DecValue(v))
      && StartBreak(c, "c" + v) == d.(startIter := DecValue(v))
      && (v == "" || (v[0] != 's' && v[0] != 'c') ==> StartBreak(c, v) == d.(startIter := DecValue(v)))
  {
    IndexSkips(v, ':', 0, |v|);
    IndexSkips("s" + v, ':', 0, |v| + 1);
    IndexSkips("c" + v, ':', 0, |v| + 1);
    assert ("s" + v)[1..] == v && ("c" + v)[1..] == v;
  }

  /** A start with a colon, if it fits the buffer: what is before the first one is the file. */
  lemma {:induction false} StartFileIsRead(c: Config, left: string, right: string)
    requires NoChar(left, ':') && |left + ":" + right| <= PATH_ROOM
    ensures StartBreak(c, left + ":" + right)
      == c.(startFile := Some(left), startLine := Signed(right), startIter := 0, startSize := 0)
  {
    var v := left + ":" + right;
    IndexSkips(v, ':', 0, |left|);
    assert v[..|left|] == left && v[|left| + 1..] == right;
  }

  /** A token without label sets its bit if the table has it, and is ignored otherwise. */
  lemma {:induction false} TokenIsRead(p: Parsed, t: string, table: seq<Attr>)
    requires NoChar(t, '=')
    ensures Apply(p, t, table) == p.(flags := Apply(p, t, table).flags)
    ensures (forall k :: 0 <= k < |table| ==> table[k].name != t) ==> Apply(p, t, table) == p
    ensures forall k, b: nat :: 0 <= k < |table| && TableOk(table) && table[k].name == t && table[k].bit == Some(b) ==>
      forall j: nat :: Bit(Apply(p, t, table).flags, j) <==> j == b || Bit(p.flags, j)
  {
    if forall k :: 0 <= k < |table| ==> table[k].name != t {
      NotInTable(table, t);
    }
    forall k, b: nat | 0 <= k < |table| && TableOk(table) && table[k].name == t && table[k].bit == Some(b)
      ensures forall j: nat :: Bit(Apply(p, t, table).flags, j) <==> j == b || Bit(p.flags, j)
    {
      AppliesName(p, table, k, b);
      forall j: nat ensures Bit(Apply(p, t, table).flags, j) <==> j == b || Bit(p.flags, j) {
        WithBitBits(p.flags, b, j);
      }
    }
    NameHasNoLabel(t, ADDRESS_LABEL);
    NameHasNoLabel(t, DEBUG_LABEL);
    NameHasNoLabel(t, INTERVAL_LABEL);
    NameHasNoLabel(t, LOCK_ON_LABEL);
    NameHasNoLabel(t, LOGFILE_LABEL);
    NameHasNoLabel(t, START_LABEL);
    NameHasNoLabel(t, LIMIT_LABEL);
  }

  lemma {:induction false} NotInTable(table: seq<Attr>, t: string)
    requires forall k :: 0 <= k < |table| ==> table[k].name != t
    ensures Lookup(table, t) == None
  {
    if table != [] {
      NotInTable(table[1..], t);
    }
  }

  /** The debug tokens are added to the debug setting, bit by bit. */
  lemma {:induction false} BitsAreAdded(p: Parsed, k: nat)
    ensures Bit(Finish(p).debug, k) <==> Bit(p.config.debug, k) || Bit(p.flags, k)
    ensures Finish(p) == p.config.(debug := Finish(p).debug)
  {
    NoBits(k);
    OrBits(p.config.debug, p.flags, k);
  }

  lemma {:induction false} OrBits(d: nat, f: nat, k: nat)
    decreases d, k
    ensures Bit(Or(d, f), k) <==> Bit(d, k) || Bit(f, k)
  {
    if d == 0 {
      NoBits(k);
    } else {
      var r := Or(d, f);
      assert r / 2 == Or(d / 2, f / 2) && (r % 2 == 1 <==> d % 2 == 1 || f % 2 == 1);
      if k > 0 { OrBits(d / 2, f / 2, k - 1); }
    }
  }

  /** The last of several settings with one label counts. */
  lemma {:induction false} LastOneCounts(p: Parsed, tag: string, v: string, w: string, table: seq<Attr>)
    requires tag in [DEBUG_LABEL, INTERVAL_LABEL, LOCK_ON_LABEL, LOGFILE_LABEL, LIMIT_LABEL, START_LABEL]
    ensures ApplyAll(p, [Setting(tag, v), Setting(tag, w)], table) == ApplyAll(p, [Setting(tag, w)], table)
  {
    var first, second := Setting(tag, v), Setting(tag, w);
    assert [first, second] == [first] + [second];
    ApplyTwice(p, [first], [second], table);
    ApplyOne(p, first, table);
    ApplyOne(p, second, table);
    ApplyOne(Apply(p, first, table), second, table);
    AppliesSetting(p, tag, v, table);
    AppliesSetting(p, tag, w, table);
    AppliesSetting(Apply(p, first, table), tag, w, table);
    hide Setting, Apply, ApplyAll, HexValue, DecValue, Signed, Clip;
  }

  // ---------------------------------------------------------------- tokens

  function NonEmpty(items: seq<string>): seq<string>
  {
    if items == [] then [] else (if items[0] == "" then [] else [items[0]]) + NonEmpty(items[1..])
  }

  /** Texts between commas are the tokens, the empty ones left out, wherever in a text they stand. */
  lemma {:induction false} EmptyTokensAreSkipped(pre: string, items: seq<string>)
    requires pre == "" || pre[|pre| - 1] == ','
    requires forall k :: 0 <= k < |items| ==> Escaped(items[k])
    requires forall k :: 0 <= k < |items| - 1 ==> !Swallows(items[k])
    decreases |items|
    ensures Tokens(pre + Joined(items), |pre|, |pre|) == NonEmpty(items)
  {
    var s, from := pre + Joined(items), |pre|;
    if items != [] {
      var n := |items[0]|;
      assert s[from..from + n] == items[0];
      assert Escaped(items[0]);
      ScanItem(s, from, from, n);
      if |items| == 1 {
        assert s[from..] == items[0];
      } else {
        assert s[from + n] == ',' && (n > 0 ==> s[from + n - 1] == items[0][n - 1]);
        var next := pre + items[0] + ",";
        assert s == next + Joined(items[1..]);
        EmptyTokensAreSkipped(next, items[1..]);
      }
    }
  }

  // ---------------------------------------------------------------- what is printed

  /** Numbers are printed in lower case and without a zero in front. */
  lemma {:induction false} PrintedDigits(n: nat)
    ensures forall i :: 0 <= i < |HexDigits(n)| ==> HexDigits(n)[i] in LOWER
    ensures forall i :: 0 <= i < |Decimal(n)| ==> Decimal(n)[i] in LOWER[..10]
    ensures n > 0 ==> HexDigits(n)[0] != '0' && Decimal(n)[0] != '0'
  {
    if n >= 16 { PrintedDigits(n / 16); }
    if n >= 10 { PrintedDigits(n / 10); }
    LowerDigit(n % 16);
    DecDigitValues(n % 10, Digit(n % 10));
    if n < 16 { LowerDigit(n); }
    if n < 10 { DecDigitValues(n, Digit(n)); }
  }

  lemma {:induction false} LowerDigit(d: nat)
    requires d < 16
    ensures HexDigit(d) in LOWER && (HexDigit(d) == '0' <==> d == 0)
  {
    assert LOWER[d] == HexDigit(d);
  }

  /** The settings of a configuration with everything set, in their order, with commas between them. */
  lemma {:induction false} PrintedInFull(c: Config, table: seq<Attr>, room: nat)
    requires c.debug > 0 && c.addr > 0 && c.addrCount > 0 && c.interval > 0 && c.lockOn > 0 && c.limit > 0
    requires c.logpath.Some? && c.startFile.Some? && c.startLine > 0
    requires |Terminated(Items(c, false, table))| <= room
    ensures Printed(c, false, table, room) == Joined([
      Setting("debug", "0x" + HexDigits(c.debug)),
      Setting("addr", "0x" + HexDigits(c.addr) + (":" + Decimal(c.addrCount))),
      Setting("inter", Decimal(c.interval)),
      Setting("lockon", Decimal(c.lockOn)),
      Setting("log", c.logpath.value),
      Setting("start", c.startFile.value + (":" + Decimal(c.startLine))),
      Setting("limit", Decimal(c.limit))])
  {
    TerminatedIsJoined(Items(c, false, table));
    var i1, i3 := Setting("debug", "0x" + HexDigits(c.debug)), Setting("inter", Decimal(c.interval));
    var i2 := Setting("addr", "0x" + HexDigits(c.addr) + (":" + Decimal(c.addrCount)));
    var i4, i5 := Setting("lockon", Decimal(c.lockOn)), Setting("log", c.logpath.value);
    var i6 := Setting("start", c.startFile.value + (":" + Decimal(c.startLine)));
    var i7 := Setting("limit", Decimal(c.limit));
    hide Setting, Joined, Terminated, CutLast, HexDigits, Decimal;
    assert DebugItems(c, false, table) == [i1] && AddressItems(c) == [i2];
    assert NumberItems(INTERVAL_LABEL, c.interval) == [i3] && NumberItems(LOCK_ON_LABEL, c.lockOn) == [i4];
    assert PathItems(c) == [i5] && StartItems(c) == [i6] && NumberItems(LIMIT_LABEL, c.limit) == [i7];
    assert Items(c, false, table) == [i1, i2, i3, i4, i5, i6, i7];
  }

  /** Without any of them but a start count or a start size, that alone. */
  lemma {:induction false} PrintedStart(c: Config, longTokens: bool, table: seq<Attr>, room: nat)
    requires c == DEFAULTS.(startIter := c.startIter, startSize := c.startSize) && (c.startIter > 0 || c.startSize > 0)
    requires |Terminated(Items(c, longTokens, table))| <= room
    ensures Printed(c, longTokens, table, room)
      == Setting("start", if c.startIter > 0 then "c" + Decimal(c.startIter) else "s" + Decimal(c.startSize))
  {
    TerminatedIsJoined(Items(c, longTokens, table));
    hide Setting, Terminated, CutLast, Decimal;
  }
}
