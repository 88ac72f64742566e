/** The options string: what configuration a text stands for, and what text a configuration is printed
    as. */
module EnvOptions {
  import opened Basics
  import opened EnvText

  const ADDRESS_LABEL: string := "addr"
  const DEBUG_LABEL: string := "debug"
  const INTERVAL_LABEL: string := "inter"
  const LOCK_ON_LABEL: string := "lockon"
  const LOGFILE_LABEL: string := "log"
  const START_LABEL: string := "start"
  const LIMIT_LABEL: string := "limit"
  const ASSIGNMENT_CHAR: char := '='

  /** Room for the text itself in the parser's copy, for the log path and for the start file. */
  const TEXT_ROOM: nat := 1023
  const PATH_ROOM: nat := 511

  /** A debug token and the bit it stands for; some tokens stand for none. */
  datatype Attr = Attr(name: string, bit: Option<nat>)

  datatype Config = Config(
    addr: nat, addrCount: nat, debug: nat, interval: nat, lockOn: int,
    logpath: Option<string>,
    startFile: Option<string>, startLine: int, startIter: nat, startSize: nat,
    limit: nat)

  const DEFAULTS: Config := Config(0, 0, 0, 0, 0, None, None, 0, 0, 0, 0)

  // ---------------------------------------------------------------- bits

  /** BIT_IS_SET(d, 1 << k). */
  predicate Bit(d: nat, k: nat)
    decreases k
  {
    if k == 0 then d % 2 == 1 else Bit(d / 2, k - 1)
  }

  /** d | (1 << k). */
  function WithBit(d: nat, k: nat): nat
    decreases k
  {
    if k == 0 then (if d % 2 == 1 then d else d + 1) else 2 * WithBit(d / 2, k - 1) + d % 2
  }

  /** d | f. */
  function Or(d: nat, f: nat): nat
    decreases d
  {
    if d == 0 then f else 2 * Or(d / 2, f / 2) + if d % 2 == 1 || f % 2 == 1 then 1 else 0
  }

  lemma {:induction false} WithBitBits(d: nat, k: nat, j: nat)
    decreases k
    ensures Bit(WithBit(d, k), j) <==> j == k || Bit(d, j)
  {
    if k > 0 {
      assert WithBit(d, k) / 2 == WithBit(d / 2, k - 1) && WithBit(d, k) % 2 == d % 2;
      if j > 0 { WithBitBits(d / 2, k - 1, j - 1); }
    } else if j > 0 {
      assert WithBit(d, 0) / 2 == d / 2;
    }
  }

  lemma {:induction false} SameBits(d: nat, e: nat)
    requires forall k: nat :: Bit(d, k) <==> Bit(e, k)
    decreases d + e
    ensures d == e
  {
    assert Bit(d, 0) <==> Bit(e, 0);
    if d + e > 0 {
      forall k: nat ensures Bit(d / 2, k) <==> Bit(e / 2, k) {
        assert Bit(d, k + 1) <==> Bit(e, k + 1);
      }
      SameBits(d / 2, e / 2);
    }
  }

  lemma {:induction false} NoBits(k: nat)
    ensures !Bit(0, k)
  {
    if k > 0 { NoBits(k - 1); }
  }

  lemma {:induction false} OrNothing(d: nat)
    ensures Or(d, 0) == d
  {
    if d > 0 { OrNothing(d / 2); }
  }

  // ---------------------------------------------------------------- parsing

  /** strncpy into a buffer with room for n characters. */
  function Clip(s: string, n: nat): (r: string)
    ensures |r| <= n
  {
    if |s| <= n then s else s[..n]
  }

  function IndexOf(s: string, c: char, i: nat): (j: nat)
    requires i <= |s|
    decreases |s| - i
    ensures i <= j <= |s| && (j < |s| ==> s[j] == c)
  {
    if i == |s| || s[i] == c then i else IndexOf(s, c, i + 1)
  }

  /** _dmalloc_address_break. */
  function AddressBreak(c: Config, v: string): Config
  {
    var colon := IndexOf(v, ':', 0);
    var c := c.(addr := HexValue(v));
    if colon < |v| then c.(addrCount := DecValue(v[colon + 1..])) else c
  }

  /** _dmalloc_start_break: file:line, s and a size, or a count with or without a c. */
  function StartBreak(c: Config, v: string): Config
  {
    var colon := IndexOf(v, ':', 0);
    if colon < |v| then
      var copy := Clip(v, PATH_ROOM);
      c.(startFile := Some(Clip(v[..colon], PATH_ROOM)),
         startLine := if colon + 1 <= |copy| then Signed(copy[colon + 1..]) else 0,
         startIter := 0, startSize := 0)
    else if v != "" && v[0] == 's' then
      c.(startFile := None, startLine := 0, startIter := 0, startSize := DecValue(v[1..]))
    else
      c.(startFile := None, startLine := 0,
         startIter := if v != "" && v[0] == 'c' then DecValue(v[1..]) else DecValue(v), startSize := 0)
  }

  /** The first token of the table that equals the text. */
  function Lookup(table: seq<Attr>, name: string): Option<nat>
  {
    if table == [] then None
    else if table[0].name == name then table[0].bit
    else Lookup(table[1..], name)
  }

  predicate HasLabel(token: string, tag: string) {
    |tag| < |token| && token[..|tag|] == tag && token[|tag|] == ASSIGNMENT_CHAR
  }

  function Argument(token: string, tag: string): string
    requires HasLabel(token, tag)
  {
    token[|tag| + 1..]
  }

  /** The settings so far and the debug bits of the tokens met so far. */
  datatype Parsed = Parsed(config: Config, flags: nat)

  /** The body of the parser's loop. */
  function Apply(p: Parsed, token: string, table: seq<Attr>): Parsed
  {
    var c := p.config;
    if HasLabel(token, ADDRESS_LABEL) then p.(config := AddressBreak(c, Argument(token, ADDRESS_LABEL)))
    else if HasLabel(token, DEBUG_LABEL) then p.(config := c.(debug := HexValue(Argument(token, DEBUG_LABEL))))
    else if HasLabel(token, INTERVAL_LABEL) then p.(config := c.(interval := DecValue(Argument(token, INTERVAL_LABEL))))
    else if HasLabel(token, LOCK_ON_LABEL) then p.(config := c.(lockOn := Signed(Argument(token, LOCK_ON_LABEL))))
    else if HasLabel(token, LOGFILE_LABEL) then
      p.(config := c.(logpath := Some(Clip(Argument(token, LOGFILE_LABEL), PATH_ROOM))))
    else if HasLabel(token, START_LABEL) then p.(config := StartBreak(c, Argument(token, START_LABEL)))
    else if HasLabel(token, LIMIT_LABEL) then p.(config := c.(limit := DecValue(Argument(token, LIMIT_LABEL))))
    else match Lookup(table, token)
      case Some(k) => p.(flags := WithBit(p.flags, k))
      case None => p
  }

  /** A comma that ends a token: not preceded by a backslash. */
  predicate Ends(s: string, i: nat)
    requires i < |s|
  {
    s[i] == ',' && (i == 0 || s[i - 1] != '\\')
  }

  /** The tokens of s from `from` on, of which the characters before i are known to end none. */
  function Tokens(s: string, from: nat, i: nat): seq<string>
    requires from <= i <= |s|
    decreases |s| - i
  {
    var piece := if from == i then [] else [s[from..i]];
    if i == |s| then piece
    else if Ends(s, i) then piece + Tokens(s, i + 1, i + 1)
    else Tokens(s, from, i + 1)
  }

  function ApplyAll(p: Parsed, tokens: seq<string>, table: seq<Attr>): Parsed
    decreases |tokens|
  {
    if tokens == [] then p else ApplyAll(Apply(p, tokens[0], table), tokens[1..], table)
  }

  /** The debug tokens are added to the debug setting. */
  function Finish(p: Parsed): Config
  {
    p.config.(debug := if p.config.debug == 0 then p.flags else Or(p.config.debug, p.flags))
  }

  /** _dmalloc_environ_process. */
  function Parse(env: string, table: seq<Attr>): Config
  {
    Finish(ApplyAll(Parsed(DEFAULTS, 0), Tokens(Clip(env, TEXT_ROOM), 0, 0), table))
  }

  // ---------------------------------------------------------------- printing

  function Setting(tag: string, v: string): string
  {
    tag + [ASSIGNMENT_CHAR] + v
  }

  function DebugTokens(d: nat, table: seq<Attr>): seq<string>
  {
    if table == [] then []
    else (if table[0].bit.Some? && Bit(d, table[0].bit.value) then [table[0].name] else []) + DebugTokens(d, table[1..])
  }

  function DebugItems(c: Config, longTokens: bool, table: seq<Attr>): seq<string>
  {
    if c.debug == 0 then []
    else if longTokens then DebugTokens(c.debug, table)
    else [Setting(DEBUG_LABEL, Hexadecimal(c.debug))]
  }

  function AddressItems(c: Config): seq<string>
  {
    if c.addr == 0 then []
    else [Setting(ADDRESS_LABEL, Hexadecimal(c.addr) + if c.addrCount > 0 then ":" + Decimal(c.addrCount) else "")]
  }

  function NumberItems(tag: string, n: int): seq<string>
  {
    if n <= 0 then [] else [Setting(tag, Decimal(n))]
  }

  function PathItems(c: Config): seq<string>
  {
    if c.logpath.None? then [] else [Setting(LOGFILE_LABEL, c.logpath.value)]
  }

  function StartItems(c: Config): seq<string>
  {
    if c.startFile.Some? then
      [Setting(START_LABEL, c.startFile.value + if c.startLine > 0 then ":" + Decimal(c.startLine) else "")]
    else if c.startIter > 0 then [Setting(START_LABEL, "c" + Decimal(c.startIter))]
    else if c.startSize > 0 then [Setting(START_LABEL, "s" + Decimal(c.startSize))]
    else []
  }

  /** The items before the path. */
  function Front(c: Config, longTokens: bool, table: seq<Attr>): seq<string>
  {
    DebugItems(c, longTokens, table) + AddressItems(c) + NumberItems(INTERVAL_LABEL, c.interval)
      + NumberItems(LOCK_ON_LABEL, c.lockOn)
  }

  function Items(c: Config, longTokens: bool, table: seq<Attr>): seq<string>
  {
    Front(c, longTokens, table) + PathItems(c) + StartItems(c) + NumberItems(LIMIT_LABEL, c.limit)
  }

  /** Each item and a comma. */
  function Terminated(items: seq<string>): string
  {
    if items == [] then "" else items[0] + "," + Terminated(items[1..])
  }

  function CutLast(s: string): string
  {
    if s == "" then "" else s[..|s| - 1]
  }

  /** What _dmalloc_environ_set leaves in a buffer with room for `room` characters. */
  function Printed(c: Config, longTokens: bool, table: seq<Attr>, room: nat): string
  {
    CutLast(Clip(Terminated(Items(c, longTokens, table)), room))
  }

  // ---------------------------------------------------------------- items are tokens again

  /** Every comma is behind a backslash. */
  predicate Escaped(t: string) {
    forall i :: 0 <= i < |t| && t[i] == ',' ==> i > 0 && t[i - 1] == '\\'
  }

  /** A comma written after the text would not end it. */
  predicate Swallows(t: string) {
    t != "" && t[|t| - 1] == '\\'
  }

  /** A text that the parser takes as one token, wherever it stands. */
  predicate OneToken(t: string) {
    t != "" && Escaped(t) && !Swallows(t)
  }

  predicate AllTokens(items: seq<string>) {
    forall k :: 0 <= k < |items| ==> OneToken(items[k])
  }

  /** Items that the parser tells apart: only the last may end in a backslash. */
  predicate Separable(items: seq<string>) {
    && (forall k :: 0 <= k < |items| ==> items[k] != "" && Escaped(items[k]))
    && forall k :: 0 <= k < |items| - 1 ==> !Swallows(items[k])
  }

  /** The items with commas between them. */
  function Joined(items: seq<string>): string
  {
    if items == [] then "" else if |items| == 1 then items[0] else items[0] + "," + Joined(items[1..])
  }

  lemma {:induction false} TerminatedIsJoined(items: seq<string>)
    ensures CutLast(Terminated(items)) == Joined(items)
    ensures items != [] ==> Terminated(items) != ""
  {
    if items == [] {
    } else if |items| == 1 {
      assert Terminated(items[1..]) == "";
      assert Terminated(items) == items[0] + ",";
    } else {
      TerminatedIsJoined(items[1..]);
      var t := Terminated(items[1..]);
      assert items[0] + "," + t == (items[0] + ",") + t;
      assert CutLast(Terminated(items)) == items[0] + "," + CutLast(t);
    }
  }

  /** The scan passes over an item. */
  lemma {:induction false} ScanItem(s: string, from: nat, i: nat, n: nat)
    requires from <= i <= from + n <= |s| && Escaped(s[from..from + n])
    decreases from + n - i
    ensures Tokens(s, from, i) == Tokens(s, from, from + n)
  {
    if i < from + n {
      var item := s[from..from + n];
      assert item[i - from] == s[i];
      if s[i] == ',' { assert item[i - from - 1] == s[i - 1]; }
      ScanItem(s, from, i + 1, n);
    }
  }

  /** Joined items are split into the items. */
  lemma {:induction false} SplitsBack(pre: string, items: seq<string>)
    requires Separable(items)
    decreases |items|
    ensures Tokens(pre + Joined(items), |pre|, |pre|) == items
  {
    var s, from := pre + Joined(items), |pre|;
    if items != [] {
      var n := |items[0]|;
      assert s[from..from + n] == items[0];
      assert Escaped(items[0]);
      ScanItem(s, from, from, n);
      if |items| == 1 {
        assert s[from..] == items[0];
      } else {
        assert s[from + n] == ',' && s[from + n - 1] == items[0][n - 1];
        var next := pre + items[0] + ",";
        assert s == next + Joined(items[1..]);
        SplitsBack(next, items[1..]);
        assert items == [items[0]] + items[1..];
      }
    }
  }

  // ---------------------------------------------------------------- labels

  predicate NoChar(t: string, c: char) {
    forall i :: 0 <= i < |t| ==> t[i] != c
  }

  lemma {:induction false} LabelsPlain()
    ensures NoChar(ADDRESS_LABEL, '=') && NoChar(DEBUG_LABEL, '=') && NoChar(INTERVAL_LABEL, '=')
    ensures NoChar(LOCK_ON_LABEL, '=') && NoChar(LOGFILE_LABEL, '=') && NoChar(START_LABEL, '=')
      && NoChar(LIMIT_LABEL, '=')
  {
  }

  lemma {:induction false} ItsOwnLabel(tag: string, v: string)
    ensures HasLabel(Setting(tag, v), tag) && Argument(Setting(tag, v), tag) == v
  {
    assert Setting(tag, v)[..|tag|] == tag;
  }

  lemma {:induction false} NoOtherLabel(tag: string, v: string, other: string)
    requires NoChar(tag, '=') && NoChar(other, '=') && tag != other
    ensures !HasLabel(Setting(tag, v), other)
  {
    var t := Setting(tag, v);
    assert t[|tag|] == '=' && t[..|tag|] == tag;
    if |other| < |tag| {
      assert t[|other|] == tag[|other|];
    } else if |tag| < |other| < |t| {
      assert t[..|other|][|tag|] == '=';
    }
  }

  lemma {:induction false} NameHasNoLabel(name: string, tag: string)
    requires NoChar(name, '=')
    ensures !HasLabel(name, tag)
  {
  }

  /** The labels differ, by length or by their first character. */
  lemma {:induction false} LabelsDiffer()
    ensures |ADDRESS_LABEL| == 4 && |DEBUG_LABEL| == |INTERVAL_LABEL| == |START_LABEL| == |LIMIT_LABEL| == 5
    ensures |LOCK_ON_LABEL| == 6 && |LOGFILE_LABEL| == 3
    ensures DEBUG_LABEL[0] == 'd' && INTERVAL_LABEL[0] == 'i' && START_LABEL[0] == 's' && LIMIT_LABEL[0] == 'l'
  {
  }

  /** The parser hands a setting to the branch of its label. */
  lemma {:induction false} AppliesSetting(p: Parsed, tag: string, v: string, table: seq<Attr>)
    requires tag in [ADDRESS_LABEL, DEBUG_LABEL, INTERVAL_LABEL, LOCK_ON_LABEL, LOGFILE_LABEL, START_LABEL, LIMIT_LABEL]
    ensures var q, c := Apply(p, Setting(tag, v), table), p.config;
      && (tag == ADDRESS_LABEL ==> q == p.(config := AddressBreak(c, v)))
      && (tag == DEBUG_LABEL ==> q == p.(config := c.(debug := HexValue(v))))
      && (tag == INTERVAL_LABEL ==> q == p.(config := c.(interval := DecValue(v))))
      && (tag == LOCK_ON_LABEL ==> q == p.(config := c.(lockOn := Signed(v))))
      && (tag == LOGFILE_LABEL ==> q == p.(config := c.(logpath := Some(Clip(v, PATH_ROOM)))))
      && (tag == START_LABEL ==> q == p.(config := StartBreak(c, v)))
      && (tag == LIMIT_LABEL ==> q == p.(config := c.(limit := DecValue(v))))
  {
    LabelsPlain();
    LabelsDiffer();
    ItsOwnLabel(tag, v);
    hide HasLabel, Argument, Setting, AddressBreak, StartBreak, HexValue, DecValue, Signed, Clip, Lookup, NoChar;
    if tag != ADDRESS_LABEL { NoOtherLabel(tag, v, ADDRESS_LABEL); }
    if tag != DEBUG_LABEL { NoOtherLabel(tag, v, DEBUG_LABEL); }
    if tag != INTERVAL_LABEL { NoOtherLabel(tag, v, INTERVAL_LABEL); }
    if tag != LOCK_ON_LABEL { NoOtherLabel(tag, v, LOCK_ON_LABEL); }
    if tag != LOGFILE_LABEL { NoOtherLabel(tag, v, LOGFILE_LABEL); }
    if tag != START_LABEL { NoOtherLabel(tag, v, START_LABEL); }
  }

  // ---------------------------------------------------------------- debug tokens

  /** A name the parser can take for nothing else. */
  predicate PlainName(name: string) {
    name != "" && NoChar(name, '=') && NoChar(name, ',') && NoChar(name, '\\')
  }

  /** The table gives each name once, all of them plain. */
  predicate TableOk(table: seq<Attr>) {
    && (forall k :: 0 <= k < |table| ==> PlainName(table[k].name))
    && (forall j, k :: 0 <= j < k < |table| ==> table[j].name != table[k].name)
  }

  lemma {:induction false} FoundAgain(table: seq<Attr>, k: nat)
    requires TableOk(table) && k < |table|
    ensures Lookup(table, table[k].name) == table[k].bit
  {
    if k > 0 {
      assert table[0].name != table[k].name;
      FoundAgain(table[1..], k - 1);
    }
  }

  lemma {:induction false} AppliesName(p: Parsed, table: seq<Attr>, k: nat, b: nat)
    requires TableOk(table) && k < |table| && table[k].bit == Some(b)
    ensures Apply(p, table[k].name, table) == p.(flags := WithBit(p.flags, b))
  {
    var name := table[k].name;
    assert PlainName(name);
    FoundAgain(table, k);
    NameHasNoLabel(name, ADDRESS_LABEL);
    NameHasNoLabel(name, DEBUG_LABEL);
    NameHasNoLabel(name, INTERVAL_LABEL);
    NameHasNoLabel(name, LOCK_ON_LABEL);
    NameHasNoLabel(name, LOGFILE_LABEL);
    NameHasNoLabel(name, START_LABEL);
    NameHasNoLabel(name, LIMIT_LABEL);
    hide HasLabel, Lookup, NoChar;
  }

  /** Bit b is the bit of a token from entry i on. */
  predicate NamedFrom(table: seq<Attr>, i: nat, b: nat)
    requires i <= |table|
  {
    exists k :: i <= k < |table| && table[k].bit == Some(b)
  }

  /** Reading the tokens printed from entry i on sets exactly the bits of those entries. */
  lemma {:induction false} TokensSetBits(p: Parsed, d: nat, table: seq<Attr>, i: nat)
    requires TableOk(table) && i <= |table|
    decreases |table| - i
    ensures var q := ApplyAll(p, DebugTokens(d, table[i..]), table);
      && q.config == p.config
      && forall b: nat :: Bit(q.flags, b) <==> Bit(p.flags, b) || (NamedFrom(table, i, b) && Bit(d, b))
  {
    if i < |table| {
      assert table[i..][0] == table[i] && table[i..][1..] == table[i + 1..];
      var rest := DebugTokens(d, table[i + 1..]);
      var chosen := table[i].bit.Some? && Bit(d, table[i].bit.value);
      var p1 := if chosen then p.(flags := WithBit(p.flags, table[i].bit.value)) else p;
      if chosen {
        AppliesName(p, table, i, table[i].bit.value);
        assert ([table[i].name] + rest)[1..] == rest;
      } else {
        assert [] + rest == rest;
      }
      assert ApplyAll(p, DebugTokens(d, table[i..]), table) == ApplyAll(p1, rest, table);
      TokensSetBits(p1, d, table, i + 1);
      hide ApplyAll, DebugTokens, Bit;
      forall b: nat
        ensures Bit(p1.flags, b) || (NamedFrom(table, i + 1, b) && Bit(d, b))
          <==> Bit(p.flags, b) || (NamedFrom(table, i, b) && Bit(d, b))
      {
        NamedNext(table, i, b);
        if chosen { WithBitBits(p.flags, table[i].bit.value, b); }
      }
    } else {
      assert table[i..] == [];
    }
  }

  lemma {:induction false} NamedNext(table: seq<Attr>, i: nat, b: nat)
    requires i < |table|
    ensures NamedFrom(table, i, b) <==> table[i].bit == Some(b) || NamedFrom(table, i + 1, b)
  {
  }

  /** Every bit of d has a token. */
  ghost predicate AllNamed(d: nat, table: seq<Attr>) {
    forall b: nat :: Bit(d, b) ==> NamedFrom(table, 0, b)
  }

  lemma {:induction false} TokensRoundTrip(d: nat, table: seq<Attr>)
    requires TableOk(table) && AllNamed(d, table)
    ensures ApplyAll(Parsed(DEFAULTS, 0), DebugTokens(d, table), table) == Parsed(DEFAULTS, d)
  {
    assert table[0..] == table;
    TokensSetBits(Parsed(DEFAULTS, 0), d, table, 0);
    var q := ApplyAll(Parsed(DEFAULTS, 0), DebugTokens(d, table), table);
    hide ApplyAll, DebugTokens, Bit;
    forall b: nat ensures Bit(q.flags, b) <==> Bit(d, b) {
      NoBits(b);
    }
    SameBits(q.flags, d);
  }

  // ---------------------------------------------------------------- the round trip

  /** There is an item after the path. */
  predicate MoreAfterPath(c: Config) {
    c.startFile.Some? || c.startIter > 0 || c.startSize > 0 || c.limit > 0
  }

  /** The items of c are told apart when they are read. */
  predicate ItemsStayApart(c: Config) {
    && (c.logpath.Some? ==> Escaped(c.logpath.value) && !(Swallows(c.logpath.value) && MoreAfterPath(c)))
    && (c.startFile.Some? ==> Escaped(c.startFile.value) && c.startLine > 0)
  }

  /** What is read back as it was printed; nothing else is, as EnvExact.RoundTripExactly shows. */
  ghost predicate Printable(c: Config, longTokens: bool, table: seq<Attr>) {
    && (longTokens ==> AllNamed(c.debug, table))
    && (c.addr == 0 ==> c.addrCount == 0)
    && c.lockOn >= 0
    && ItemsStayApart(c)
    && (c.logpath.Some? ==> |c.logpath.value| <= PATH_ROOM)
    && (match c.startFile
        case Some(f) =>
          && NoChar(f, ':') && c.startIter == 0 && c.startSize == 0
          && |f + ":" + Decimal(c.startLine)| <= PATH_ROOM
        case None => c.startLine == 0 && (c.startIter == 0 || c.startSize == 0))
  }

  lemma {:induction false} ApplyTwice(p: Parsed, a: seq<string>, b: seq<string>, table: seq<Attr>)
    decreases |a|
    ensures ApplyAll(p, a + b, table) == ApplyAll(ApplyAll(p, a, table), b, table)
  {
    if a == [] {
      assert a + b == b;
    } else {
      assert (a + b)[1..] == a[1..] + b;
      ApplyTwice(Apply(p, a[0], table), a[1..], b, table);
    }
  }

  lemma {:induction false} ApplyOne(p: Parsed, t: string, table: seq<Attr>)
    ensures ApplyAll(p, [t], table) == Apply(p, t, table)
  {
    assert [t][1..] == [];
  }

  lemma {:induction false} IndexSkips(s: string, c: char, i: nat, j: nat)
    requires i <= j <= |s| && (forall k :: i <= k < j ==> s[k] != c) && (j < |s| ==> s[j] == c)
    decreases j - i
    ensures IndexOf(s, c, i) == j
  {
    if i < j { IndexSkips(s, c, i + 1, j); }
  }

  lemma {:induction false} AddressRoundTrip(c: Config, addr: nat, count: nat)
    requires addr > 0 && c.addrCount == 0
    ensures AddressBreak(c, Hexadecimal(addr) + if count > 0 then ":" + Decimal(count) else "")
      == c.(addr := addr, addrCount := count)
  {
    var hex, tail := Hexadecimal(addr), if count > 0 then ":" + Decimal(count) else "";
    var v := hex + tail;
    HexRoundTrip(addr, tail);
    forall k | 0 <= k < |hex| ensures v[k] != ':' {
      if k >= 2 { assert v[k] == HexDigits(addr)[k - 2]; }
    }
    IndexSkips(v, ':', 0, |hex|);
    if count > 0 {
      DecimalRoundTrip(count);
      assert v[|hex| + 1..] == Decimal(count);
    }
  }

  lemma {:induction false} StartRoundTrip(c: Config, v: string, n: nat, mark: char)
    requires n > 0 && (mark == 'c' || mark == 's') && v == [mark] + Decimal(n)
    ensures StartBreak(c, v) == c.(startFile := None, startLine := 0,
      startIter := if mark == 'c' then n else 0, startSize := if mark == 's' then n else 0)
  {
    DecimalRoundTrip(n);
    assert v[1..] == Decimal(n);
    IndexSkips(v, ':', 0, |v|);
  }

  lemma {:induction false} StartFileRoundTrip(c: Config, f: string, line: nat)
    requires NoChar(f, ':') && line > 0 && |f + ":" + Decimal(line)| <= PATH_ROOM
    ensures StartBreak(c, f + ":" + Decimal(line))
      == c.(startFile := Some(f), startLine := line, startIter := 0, startSize := 0)
  {
    var v := f + ":" + Decimal(line);
    IndexSkips(v, ':', 0, |f|);
    DecimalRoundTrip(line);
    assert v[..|f|] == f && v[|f| + 1..] == Decimal(line);
  }

  // Each group of items sets the fields it was printed from.

  function WithDebug(p: Parsed, d: nat, longTokens: bool): Parsed
  {
    if longTokens then p.(flags := d) else p.(config := p.config.(debug := d))
  }

  lemma {:induction false} DebugApplied(c: Config, longTokens: bool, table: seq<Attr>)
    requires TableOk(table) && Printable(c, longTokens, table)
    ensures ApplyAll(Parsed(DEFAULTS, 0), DebugItems(c, longTokens, table), table)
      == WithDebug(Parsed(DEFAULTS, 0), c.debug, longTokens)
  {
    if c.debug > 0 {
      if longTokens {
        TokensRoundTrip(c.debug, table);
      } else {
        var v := Hexadecimal(c.debug);
        ApplyOne(Parsed(DEFAULTS, 0), Setting(DEBUG_LABEL, v), table);
        AppliesSetting(Parsed(DEFAULTS, 0), DEBUG_LABEL, v, table);
        HexRoundTrip(c.debug, "");
        assert v + "" == v;
      }
    }
  }

  lemma {:induction false} AddressApplied(p: Parsed, c: Config, table: seq<Attr>)
    requires p.config.addr == p.config.addrCount == 0 && (c.addr == 0 ==> c.addrCount == 0)
    ensures ApplyAll(p, AddressItems(c), table) == p.(config := p.config.(addr := c.addr, addrCount := c.addrCount))
  {
    if c.addr > 0 {
      var v := Hexadecimal(c.addr) + if c.addrCount > 0 then ":" + Decimal(c.addrCount) else "";
      ApplyOne(p, Setting(ADDRESS_LABEL, v), table);
      AppliesSetting(p, ADDRESS_LABEL, v, table);
      AddressRoundTrip(p.config, c.addr, c.addrCount);
    }
  }

  lemma {:induction false} IntervalApplied(p: Parsed, c: Config, table: seq<Attr>)
    requires p.config.interval == 0
    ensures ApplyAll(p, NumberItems(INTERVAL_LABEL, c.interval), table)
      == p.(config := p.config.(interval := c.interval))
  {
    DecimalRoundTrip(c.interval);
    ApplyOne(p, Setting(INTERVAL_LABEL, Decimal(c.interval)), table);
    AppliesSetting(p, INTERVAL_LABEL, Decimal(c.interval), table);
  }

  lemma {:induction false} PathApplied(p: Parsed, c: Config, table: seq<Attr>)
    requires p.config.logpath == None && (c.logpath.Some? ==> |c.logpath.value| <= PATH_ROOM)
    ensures ApplyAll(p, PathItems(c), table) == p.(config := p.config.(logpath := c.logpath))
  {
    if c.logpath.Some? {
      ApplyOne(p, Setting(LOGFILE_LABEL, c.logpath.value), table);
      AppliesSetting(p, LOGFILE_LABEL, c.logpath.value, table);
    }
  }

  lemma {:induction false} StartApplied(p: Parsed, c: Config, longTokens: bool, table: seq<Attr>)
    requires Printable(c, longTokens, table) && p.config.startFile == None
    requires p.config.startLine == 0 && p.config.startIter == 0 && p.config.startSize == 0
    ensures ApplyAll(p, StartItems(c), table) == p.(config := p.config.(
      startFile := c.startFile, startLine := c.startLine, startIter := c.startIter, startSize := c.startSize))
  {
    var items := StartItems(c);
    if items != [] {
      var v := if c.startFile.Some? then c.startFile.value + ":" + Decimal(c.startLine)
               else if c.startIter > 0 then "c" + Decimal(c.startIter) else "s" + Decimal(c.startSize);
      if c.startFile.Some? {
        assert c.startFile.value + (":" + Decimal(c.startLine)) == v;
        StartFileRoundTrip(p.config, c.startFile.value, c.startLine);
      } else if c.startIter > 0 {
        StartRoundTrip(p.config, v, c.startIter, 'c');
      } else {
        StartRoundTrip(p.config, v, c.startSize, 's');
      }
      assert items == [Setting(START_LABEL, v)];
      ApplyOne(p, Setting(START_LABEL, v), table);
      AppliesSetting(p, START_LABEL, v, table);
    }
  }

  /** Reading the items back, one group after the other. */
  lemma {:induction false} ItemsRoundTrip(c: Config, longTokens: bool, table: seq<Attr>)
    requires TableOk(table) && Printable(c, longTokens, table)
    ensures Finish(ApplyAll(Parsed(DEFAULTS, 0), Items(c, longTokens, table), table)) == c
  {
    var p0 := Parsed(DEFAULTS, 0);
    var i1, i2, i3 := DebugItems(c, longTokens, table), AddressItems(c), NumberItems(INTERVAL_LABEL, c.interval);
    var i4, i5, i6 := NumberItems(LOCK_ON_LABEL, c.lockOn), PathItems(c), StartItems(c);
    var i7 := NumberItems(LIMIT_LABEL, c.limit);
    ApplyTwice(p0, i1 + i2 + i3 + i4 + i5 + i6, i7, table);
    ApplyTwice(p0, i1 + i2 + i3 + i4 + i5, i6, table);
    ApplyTwice(p0, i1 + i2 + i3 + i4, i5, table);
    ApplyTwice(p0, i1 + i2 + i3, i4, table);
    ApplyTwice(p0, i1 + i2, i3, table);
    ApplyTwice(p0, i1, i2, table);
    hide ApplyAll, DebugItems, AddressItems, NumberItems, PathItems, StartItems;
    DebugApplied(c, longTokens, table);
    var p1 := WithDebug(p0, c.debug, longTokens);
    AddressApplied(p1, c, table);
    var p2 := p1.(config := p1.config.(addr := c.addr, addrCount := c.addrCount));
    IntervalApplied(p2, c, table);
    var p3 := p2.(config := p2.config.(interval := c.interval));
    LockApplied(p3, c, table);
    var p4 := p3.(config := p3.config.(lockOn := c.lockOn));
    PathApplied(p4, c, table);
    var p5 := p4.(config := p4.config.(logpath := c.logpath));
    StartApplied(p5, c, longTokens, table);
    var p6 := p5.(config := p5.config.(
      startFile := c.startFile, startLine := c.startLine, startIter := c.startIter, startSize := c.startSize));
    LimitApplied(p6, c, table);
    OrNothing(c.debug);
  }

  lemma {:induction false} LockApplied(p: Parsed, c: Config, table: seq<Attr>)
    requires c.lockOn >= 0 && p.config.lockOn == 0
    ensures ApplyAll(p, NumberItems(LOCK_ON_LABEL, c.lockOn), table) == p.(config := p.config.(lockOn := c.lockOn))
  {
    DecimalRoundTrip(c.lockOn);
    ApplyOne(p, Setting(LOCK_ON_LABEL, Decimal(c.lockOn)), table);
    AppliesSetting(p, LOCK_ON_LABEL, Decimal(c.lockOn), table);
  }

  lemma {:induction false} LimitApplied(p: Parsed, c: Config, table: seq<Attr>)
    requires p.config.limit == 0
    ensures ApplyAll(p, NumberItems(LIMIT_LABEL, c.limit), table) == p.(config := p.config.(limit := c.limit))
  {
    DecimalRoundTrip(c.limit);
    ApplyOne(p, Setting(LIMIT_LABEL, Decimal(c.limit)), table);
    AppliesSetting(p, LIMIT_LABEL, Decimal(c.limit), table);
  }

  // Each item is one token.

  predicate PlainText(t: string) {
    NoChar(t, ',') && NoChar(t, '\\')
  }

  lemma {:induction false} PlainIsToken(t: string)
    requires t != "" && PlainText(t)
    ensures OneToken(t)
  {
  }

  lemma {:induction false} PlainConcat(t: string, u: string)
    requires PlainText(t) && PlainText(u)
    ensures PlainText(t + u)
  {
  }

  lemma {:induction false} NumbersPlain(n: nat)
    ensures PlainText(Decimal(n)) && PlainText(Hexadecimal(n))
  {
    assert forall i :: 0 <= i < |Decimal(n)| ==> IsDigit(Decimal(n)[i]);
    assert forall i :: 0 <= i < |HexDigits(n)| ==> HexValueOf(HexDigits(n)[i]) < 16;
    assert PlainText("0x") && PlainText(HexDigits(n));
    PlainConcat("0x", HexDigits(n));
  }

  lemma {:induction false} SettingPlain(tag: string, v: string)
    requires PlainText(tag) && PlainText(v)
    ensures OneToken(Setting(tag, v))
  {
    PlainConcat(tag, [ASSIGNMENT_CHAR]);
    PlainConcat(tag + [ASSIGNMENT_CHAR], v);
    PlainIsToken(Setting(tag, v));
  }

  lemma {:induction false} DebugTokensPlain(d: nat, table: seq<Attr>)
    requires TableOk(table)
    ensures AllTokens(DebugTokens(d, table))
  {
    if table != [] {
      DebugTokensPlain(d, table[1..]);
      assert PlainName(table[0].name);
      PlainIsToken(table[0].name);
    }
  }

  lemma {:induction false} MarkedPlain(mark: string, n: nat)
    requires mark in [":", "c", "s"]
    ensures PlainText(mark + Decimal(n))
  {
    NumbersPlain(n);
    PlainConcat(mark, Decimal(n));
  }

  lemma {:induction false} TagsPlain()
    ensures PlainText(ADDRESS_LABEL) && PlainText(DEBUG_LABEL) && PlainText(INTERVAL_LABEL) && PlainText(LOCK_ON_LABEL)
    ensures PlainText(LOGFILE_LABEL) && PlainText(START_LABEL) && PlainText(LIMIT_LABEL)
  {
  }

  lemma {:induction false} StartIsToken(c: Config)
    requires ItemsStayApart(c)
    ensures AllTokens(StartItems(c))
  {
    TagsPlain();
    MarkedPlain("c", c.startIter);
    MarkedPlain("s", c.startSize);
    if c.startFile.Some? {
      FileIsToken(c.startFile.value, c.startLine);
    } else {
      SettingPlain(START_LABEL, "c" + Decimal(c.startIter));
      SettingPlain(START_LABEL, "s" + Decimal(c.startSize));
    }
  }

  lemma {:induction false} EscapedConcat(t: string, u: string)
    requires Escaped(t) && Escaped(u)
    ensures Escaped(t + u)
  {
  }

  lemma {:induction false} SettingEscaped(tag: string, v: string)
    requires PlainText(tag) && Escaped(v)
    ensures Setting(tag, v) != "" && Escaped(Setting(tag, v)) && (Swallows(Setting(tag, v)) <==> Swallows(v))
  {
    EscapedConcat(tag + [ASSIGNMENT_CHAR], v);
  }

  /** A file may end in a backslash: the line number behind it ends the token. */
  lemma {:induction false} FileIsToken(f: string, line: nat)
    requires Escaped(f)
    ensures OneToken(Setting(START_LABEL, f + (":" + Decimal(line))))
  {
    TagsPlain();
    MarkedPlain(":", line);
    EscapedConcat(f, ":" + Decimal(line));
    SettingEscaped(START_LABEL, f + (":" + Decimal(line)));
    assert IsDigit(Decimal(line)[|Decimal(line)| - 1]);
  }

  lemma {:induction false} FrontAreTokens(c: Config, longTokens: bool, table: seq<Attr>)
    requires TableOk(table)
    ensures AllTokens(Front(c, longTokens, table))
  {
    TagsPlain();
    assert AllTokens(DebugItems(c, longTokens, table)) by {
      DebugTokensPlain(c.debug, table);
      NumbersPlain(c.debug);
      SettingPlain(DEBUG_LABEL, Hexadecimal(c.debug));
    }
    assert AllTokens(AddressItems(c)) by {
      NumbersPlain(c.addr);
      MarkedPlain(":", c.addrCount);
      var tail := if c.addrCount > 0 then ":" + Decimal(c.addrCount) else "";
      PlainConcat(Hexadecimal(c.addr), tail);
      SettingPlain(ADDRESS_LABEL, Hexadecimal(c.addr) + tail);
    }
    NumberIsToken(INTERVAL_LABEL, c.interval);
    NumberIsToken(LOCK_ON_LABEL, c.lockOn);
    hide DebugItems, AddressItems, NumberItems, OneToken;
  }

  lemma {:induction false} SeparableParts(front: seq<string>, path: seq<string>, rest: seq<string>)
    requires AllTokens(front) && AllTokens(rest) && |path| <= 1
    requires path != [] ==> path[0] != "" && Escaped(path[0]) && (Swallows(path[0]) ==> rest == [])
    ensures Separable(front + path + rest)
  {
    hide Escaped, Swallows;
  }

  lemma {:induction false} ItemsAreSeparable(c: Config, longTokens: bool, table: seq<Attr>)
    requires TableOk(table) && ItemsStayApart(c)
    ensures Separable(Items(c, longTokens, table))
  {
    var front, rest := Front(c, longTokens, table), StartItems(c) + NumberItems(LIMIT_LABEL, c.limit);
    assert AllTokens(front) by { FrontAreTokens(c, longTokens, table); }
    TagsPlain();
    if c.logpath.Some? { SettingEscaped(LOGFILE_LABEL, c.logpath.value); }
    assert AllTokens(rest) by {
      StartIsToken(c);
      NumberIsToken(LIMIT_LABEL, c.limit);
      hide OneToken;
    }
    assert !MoreAfterPath(c) ==> rest == [];
    hide OneToken, AllTokens, Escaped, Swallows;
    SeparableParts(front, PathItems(c), rest);
    hide StartItems, NumberItems, PathItems, Separable;
    assert Items(c, longTokens, table) == front + PathItems(c) + rest;
  }

  lemma {:induction false} NumberIsToken(tag: string, n: int)
    requires PlainText(tag)
    ensures AllTokens(NumberItems(tag, n))
  {
    if n > 0 {
      NumbersPlain(n);
      SettingPlain(tag, Decimal(n));
    }
  }

  /** Parsing what was printed gives back the configuration, in hexadecimal and in long form. */
  lemma {:induction false} RoundTrip(c: Config, longTokens: bool, table: seq<Attr>, room: nat)
    requires TableOk(table) && Printable(c, longTokens, table)
    requires |Terminated(Items(c, longTokens, table))| <= room
      && |Terminated(Items(c, longTokens, table))| <= TEXT_ROOM + 1
    ensures Parse(Printed(c, longTokens, table, room), table) == c
  {
    var items := Items(c, longTokens, table);
    ItemsRoundTrip(c, longTokens, table);
    ItemsAreSeparable(c, longTokens, table);
    hide Items, Separable, Apply;
    TerminatedIsJoined(items);
    SplitsBack("", items);
    assert "" + Joined(items) == Joined(items);
  }
}
