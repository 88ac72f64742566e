/** The debug tokens, and the two loops over a text buffer: printing into it and parsing it in place. */
module EnvBuffers {
  import opened Basics
  import opened EnvText
  import opened EnvOptions

  /** The attributes of debug_tok.h, in their order. */
  function AttributeAt(k: nat): Attr
    requires k < 32
  {
    if k == 0 then Attr("none", None)
    else if k == 1 then Attr("log-stats", Some(0))
    else if k == 2 then Attr("log-non-free", Some(1))
    else if k == 3 then Attr("log-known", Some(2))
    else if k == 4 then Attr("log-trans", Some(3))
    else if k == 5 then Attr("log-admin", Some(5))
    else if k == 6 then Attr("log-bad-space", Some(8))
    else if k == 7 then Attr("log-nonfree-space", Some(9))
    else if k == 8 then Attr("log-elapsed-time", Some(18))
    else if k == 9 then Attr("log-current-time", Some(19))
    else if k == 10 then Attr("check-fence", Some(10))
    else if k == 11 then Attr("check-heap", Some(11))
    else if k == 12 then Attr("check-blank", Some(13))
    else if k == 13 then Attr("check-funcs", Some(14))
    else if k == 14 then Attr("check-shutdown", Some(15))
    else if k == 15 then Attr("catch-signals", Some(17))
    else if k == 16 then Attr("realloc-copy", Some(20))
    else if k == 17 then Attr("free-blank", Some(21))
    else if k == 18 then Attr("error-abort", Some(22))
    else if k == 19 then Attr("alloc-blank", Some(23))
    else if k == 20 then Attr("print-messages", Some(25))
    else if k == 21 then Attr("catch-null", Some(26))
    else if k == 22 then Attr("never-reuse", Some(27))
    else if k == 23 then Attr("error-dump", Some(30))
    else if k == 24 then Attr("error-free-null", Some(28))
    else if k == 25 then Attr("log-unknown", None)
    else if k == 26 then Attr("log-blocks", None)
    else if k == 27 then Attr("allow-nonlinear", None)
    else if k == 28 then Attr("allow-free-null", None)
    else if k == 29 then Attr("heap-check-map", None)
    else if k == 30 then Attr("check-lists", None)
    else Attr("force-linear", None)
  }

  const ATTRIBUTES: seq<Attr> := seq(32, k requires 0 <= k < 32 => AttributeAt(k))

  // ---------------------------------------------------------------- the table is in order

  /** Three characters that tell the names apart. */
  function NameKey(name: string): int
    requires |name| >= 3
  {
    name[0] as int * 65536 + name[|name| - 2] as int * 256 + name[2 * |name| / 3] as int
  }

  function PositionOf(x: int): nat
  {
    if x == 7237230 then 0
    else if x == 7107681 then 1
    else if x == 7103846 then 2
    else if x == 7108463 then 3
    else if x == 7106145 then 4
    else if x == 7104877 then 5
    else if x == 7103347 then 6
    else if x == 7103277 then 7
    else if x == 7105892 then 8
    else if x == 7105908 then 9
    else if x == 6513509 then 10
    else if x == 6513000 then 11
    else if x == 6516332 then 12
    else if x == 6513525 then 13
    else if x == 6518644 then 14
    else if x == 6515815 then 15
    else if x == 7499875 then 16
    else if x == 6712940 then 17
    else if x == 6648418 then 18
    else if x == 6385260 then 19
    else if x == 7366003 then 20
    else if x == 6515822 then 21
    else if x == 7238501 then 22
    else if x == 6647140 then 23
    else if x == 6646829 then 24
    else if x == 7108462 then 25
    else if x == 7105391 then 26
    else if x == 6381929 then 27
    else if x == 6384685 then 28
    else if x == 6840683 then 29
    else if x == 6517865 then 30
    else if x == 6709614 then 31
    else 32
  }

  /** A plain name, told from the others by its three characters. */
  predicate Good(name: string, k: nat) {
    PlainName(name) && |name| >= 3 && PositionOf(NameKey(name)) == k
  }

  lemma {:induction false} Names0To4()
    ensures Good("none", 0)
    ensures Good("log-stats", 1)
    ensures Good("log-non-free", 2)
    ensures Good("log-known", 3)
  {
  }

  lemma {:induction false} Names4To8()
    ensures Good("log-trans", 4)
    ensures Good("log-admin", 5)
    ensures Good("log-bad-space", 6)
    ensures Good("log-nonfree-space", 7)
  {
  }

  lemma {:induction false} Names8To12()
    ensures Good("log-elapsed-time", 8)
    ensures Good("log-current-time", 9)
    ensures Good("check-fence", 10)
    ensures Good("check-heap", 11)
  {
  }

  lemma {:induction false} Names12To16()
    ensures Good("check-blank", 12)
    ensures Good("check-funcs", 13)
    ensures Good("check-shutdown", 14)
    ensures Good("catch-signals", 15)
  {
  }

  lemma {:induction false} Names16To20()
    ensures Good("realloc-copy", 16)
    ensures Good("free-blank", 17)
    ensures Good("error-abort", 18)
    ensures Good("alloc-blank", 19)
  {
  }

  lemma {:induction false} Names20To24()
    ensures Good("print-messages", 20)
    ensures Good("catch-null", 21)
    ensures Good("never-reuse", 22)
    ensures Good("error-dump", 23)
  {
  }

  lemma {:induction false} Names24To28()
    ensures Good("error-free-null", 24)
    ensures Good("log-unknown", 25)
    ensures Good("log-blocks", 26)
    ensures Good("allow-nonlinear", 27)
  {
  }

  lemma {:induction false} Names28To32()
    ensures Good("allow-free-null", 28)
    ensures Good("heap-check-map", 29)
    ensures Good("check-lists", 30)
    ensures Good("force-linear", 31)
  {
  }

  lemma {:induction false} NameOk(k: nat)
    requires k < 32
    ensures Good(AttributeAt(k).name, k)
  {
    hide Good;
    Names0To4();
    Names4To8();
    Names8To12();
    Names12To16();
    Names16To20();
    Names20To24();
    Names24To28();
    Names28To32();
  }

  /** Every debug token has its own plain name. */
  lemma {:induction false} AttributesAreOk()
    ensures TableOk(ATTRIBUTES)
  {
    hide AttributeAt;
    forall k | 0 <= k < |ATTRIBUTES| ensures PlainName(ATTRIBUTES[k].name) {
      NameOk(k);
    }
    hide PlainName, PositionOf, NameKey;
    forall j, k | 0 <= j < k < |ATTRIBUTES| ensures ATTRIBUTES[j].name != ATTRIBUTES[k].name {
      NameOk(j);
      NameOk(k);
    }
  }

  // ---------------------------------------------------------------- printing into a buffer

  lemma {:induction false} ClipAppend(a: string, b: string, n: nat)
    ensures Clip(Clip(a, n) + b, n) == Clip(a + b, n)
  {
  }

  lemma {:induction false} TerminatedPlus(a: seq<string>, b: seq<string>)
    ensures Terminated(a + b) == Terminated(a) + Terminated(b)
  {
    if a == [] {
      assert a + b == b;
    } else {
      assert (a + b)[1..] == a[1..] + b;
      TerminatedPlus(a[1..], b);
    }
  }

  /** The buffer holds the text and its end. */
  predicate HoldsText(b: seq<char>, at: int, t: string) {
    0 <= at == |t| < |b| && b[..at] == t
  }

  /** loc_snprintf at a place in the buffer: as much of the text as there is room for. */
  method Append(buf: array<char>, at: nat, text: string, ghost sofar: string) returns (end: nat)
    requires buf.Length > 0 && HoldsText(buf[..], at, Clip(sofar, buf.Length - 1))
    modifies buf
    ensures HoldsText(buf[..], end, Clip(sofar + text, buf.Length - 1))
  {
    ghost var room := buf.Length - 1;
    end := at;
    var i := 0;
    while i < |text| && end < buf.Length - 1
      invariant 0 <= i <= |text| && end == at + i < buf.Length
      invariant buf[..end] == Clip(sofar, room) + text[..i]
    {
      buf[end] := text[i];
      end := end + 1;
      i := i + 1;
    }
    buf[end] := '\0';
    ClipAppend(sofar, text, room);
  }

  /** The text of a group of at most one item. */
  method AppendGroup(buf: array<char>, at: nat, items: seq<string>, ghost done: seq<string>) returns (end: nat)
    requires |items| <= 1 && buf.Length > 0 && HoldsText(buf[..], at, Clip(Terminated(done), buf.Length - 1))
    modifies buf
    ensures HoldsText(buf[..], end, Clip(Terminated(done + items), buf.Length - 1))
  {
    hide HoldsText, Clip;
    TerminatedPlus(done, items);
    if |items| == 1 {
      assert Terminated(items[1..]) == "";
      assert items[0] + "," + "" == items[0] + ",";
      end := Append(buf, at, items[0] + ",", Terminated(done));
    } else {
      assert Terminated(done) + "" == Terminated(done);
      end := at;
    }
  }

  /** The loop over the debug tokens. */
  method AppendTokens(buf: array<char>, d: nat) returns (end: nat)
    requires buf.Length > 0
    modifies buf
    ensures HoldsText(buf[..], end, Clip(Terminated(DebugTokens(d, ATTRIBUTES)), buf.Length - 1))
  {
    hide ATTRIBUTES, Bit, DebugTokens;
    end := 0;
    var k := 0;
    ghost var done: seq<string> := [];
    assert HoldsText(buf[..], end, Clip(Terminated(done), buf.Length - 1));
    hide HoldsText, Clip, Terminated;
    FirstTokens(d);
    while k < |ATTRIBUTES|
      invariant 0 <= k <= |ATTRIBUTES|
      invariant HoldsText(buf[..], end, Clip(Terminated(done), buf.Length - 1))
      invariant done + DebugTokens(d, ATTRIBUTES[k..]) == DebugTokens(d, ATTRIBUTES)
    {
      var attr := ATTRIBUTES[k];
      NextToken(d, k, done);
      if attr.bit.Some? && Bit(d, attr.bit.value) {
        end := AppendGroup(buf, end, [attr.name], done);
        done := done + [attr.name];
      }
      k := k + 1;
    }
    LastTokens(d, done);
  }

  lemma {:induction false} FirstTokens(d: nat)
    ensures [] + DebugTokens(d, ATTRIBUTES[0..]) == DebugTokens(d, ATTRIBUTES)
  {
    hide ATTRIBUTES, Bit, DebugTokens;
    assert ATTRIBUTES[0..] == ATTRIBUTES;
  }

  lemma {:induction false} NextToken(d: nat, k: nat, done: seq<string>)
    requires k < |ATTRIBUTES|
    ensures done + DebugTokens(d, ATTRIBUTES[k..])
      == (if ATTRIBUTES[k].bit.Some? && Bit(d, ATTRIBUTES[k].bit.value) then done + [ATTRIBUTES[k].name] else done)
         + DebugTokens(d, ATTRIBUTES[k + 1..])
  {
    hide ATTRIBUTES, Bit;
    var table := ATTRIBUTES[k..];
    assert table[0] == ATTRIBUTES[k] && table[1..] == ATTRIBUTES[k + 1..];
  }

  lemma {:induction false} LastTokens(d: nat, done: seq<string>)
    ensures done + DebugTokens(d, ATTRIBUTES[|ATTRIBUTES|..]) == done
  {
    hide ATTRIBUTES, Bit;
    assert ATTRIBUTES[|ATTRIBUTES|..] == [];
  }

  /** _dmalloc_environ_set. */
  method EnvironSet(buf: array<char>, c: Config, longTokens: bool)
    requires buf.Length > 0
    modifies buf
    ensures var text := Printed(c, longTokens, ATTRIBUTES, buf.Length - 1);
      |text| < buf.Length && buf[..|text|] == text && buf[|text|] == '\0'
  {
    var at: nat := 0;
    ghost var done: seq<string> := [];
    assert HoldsText(buf[..], at, Clip(Terminated(done), buf.Length - 1));
    hide Terminated, DebugTokens, ATTRIBUTES, HoldsText, Clip;
    if c.debug > 0 && longTokens {
      at := AppendTokens(buf, c.debug);
      done := DebugTokens(c.debug, ATTRIBUTES);
    } else {
      at := AppendGroup(buf, at, DebugItems(c, false, ATTRIBUTES), done);
      done := done + DebugItems(c, false, ATTRIBUTES);
    }
    assert done == DebugItems(c, longTokens, ATTRIBUTES);
    hide DebugItems, AddressItems, NumberItems, PathItems, StartItems;
    at := AppendRest(buf, at, c, done);
    CutHeld(buf[..], at, Clip(Terminated(Items(c, longTokens, ATTRIBUTES)), buf.Length - 1));
    if at > 0 {
      at := at - 1;
    }
    buf[at] := '\0';
  }

  lemma {:induction false} CutHeld(b: seq<char>, at: nat, t: string)
    requires HoldsText(b, at, t)
    ensures var n := if at > 0 then at - 1 else 0;
      n < |b| && |CutLast(t)| == n && b[..n] == CutLast(t)
  {
  }

  /** The settings after the debug setting. */
  method AppendRest(buf: array<char>, start: nat, c: Config, ghost debugItems: seq<string>) returns (at: nat)
    requires buf.Length > 0 && HoldsText(buf[..], start, Clip(Terminated(debugItems), buf.Length - 1))
    modifies buf
    ensures
      var items := debugItems + AddressItems(c) + NumberItems(INTERVAL_LABEL, c.interval)
        + NumberItems(LOCK_ON_LABEL, c.lockOn) + PathItems(c) + StartItems(c) + NumberItems(LIMIT_LABEL, c.limit);
      HoldsText(buf[..], at, Clip(Terminated(items), buf.Length - 1))
  {
    hide HoldsText, Clip, Terminated;
    ghost var done := debugItems;
    OneItemEach(c);
    hide AddressItems, NumberItems, PathItems, StartItems;
    at := AppendGroup(buf, start, AddressItems(c), done);
    done := done + AddressItems(c);
    at := AppendGroup(buf, at, NumberItems(INTERVAL_LABEL, c.interval), done);
    done := done + NumberItems(INTERVAL_LABEL, c.interval);
    at := AppendGroup(buf, at, NumberItems(LOCK_ON_LABEL, c.lockOn), done);
    done := done + NumberItems(LOCK_ON_LABEL, c.lockOn);
    at := AppendGroup(buf, at, PathItems(c), done);
    done := done + PathItems(c);
    at := AppendGroup(buf, at, StartItems(c), done);
    done := done + StartItems(c);
    at := AppendGroup(buf, at, NumberItems(LIMIT_LABEL, c.limit), done);
  }

  lemma {:induction false} OneItemEach(c: Config)
    ensures |AddressItems(c)| <= 1 && |PathItems(c)| <= 1 && |StartItems(c)| <= 1
    ensures |NumberItems(INTERVAL_LABEL, c.interval)| <= 1 && |NumberItems(LOCK_ON_LABEL, c.lockOn)| <= 1
    ensures |NumberItems(LIMIT_LABEL, c.limit)| <= 1
  {
  }

  // ---------------------------------------------------------------- parsing a buffer in place

  /** From i on the copy is still the text and the NULs behind it. */
  predicate Intact(b: seq<char>, s: string, i: nat) {
    && |s| < |b|
    && forall j :: i <= j < |b| ==> b[j] == if j < |s| then s[j] else '\0'
  }

  /** The loop over the attributes. */
  method FindToken(token: string) returns (bit: Option<nat>)
    ensures bit == Lookup(ATTRIBUTES, token)
  {
    var k := 0;
    assert ATTRIBUTES[0..] == ATTRIBUTES;
    hide ATTRIBUTES;
    while k < |ATTRIBUTES|
      invariant 0 <= k <= |ATTRIBUTES| && Lookup(ATTRIBUTES, token) == Lookup(ATTRIBUTES[k..], token)
    {
      assert ATTRIBUTES[k..][0] == ATTRIBUTES[k] && ATTRIBUTES[k..][1..] == ATTRIBUTES[k + 1..];
      if ATTRIBUTES[k].name == token {
        return ATTRIBUTES[k].bit;
      }
      k := k + 1;
    }
    assert ATTRIBUTES[k..] == [];
    return None;
  }

  /** The chain of label tests for one token. */
  method ApplyToken(p: Parsed, token: string) returns (q: Parsed)
    ensures q == Apply(p, token, ATTRIBUTES)
  {
    hide HasLabel, Argument, AddressBreak, StartBreak, Clip, Lookup, ATTRIBUTES, HexValue, DecValue;
    var c := p.config;
    if HasLabel(token, ADDRESS_LABEL) {
      return p.(config := AddressBreak(c, Argument(token, ADDRESS_LABEL)));
    }
    if HasLabel(token, DEBUG_LABEL) {
      var n := HexToLong(Argument(token, DEBUG_LABEL));
      return p.(config := c.(debug := n));
    }
    if HasLabel(token, INTERVAL_LABEL) {
      var n := ReadDecimal(Argument(token, INTERVAL_LABEL));
      return p.(config := c.(interval := n));
    }
    if HasLabel(token, LOCK_ON_LABEL) {
      return p.(config := c.(lockOn := Signed(Argument(token, LOCK_ON_LABEL))));
    }
    if HasLabel(token, LOGFILE_LABEL) {
      return p.(config := c.(logpath := Some(Clip(Argument(token, LOGFILE_LABEL), PATH_ROOM))));
    }
    if HasLabel(token, START_LABEL) {
      return p.(config := StartBreak(c, Argument(token, START_LABEL)));
    }
    if HasLabel(token, LIMIT_LABEL) {
      var n := ReadDecimal(Argument(token, LIMIT_LABEL));
      return p.(config := c.(limit := n));
    }
    var bit := FindToken(token);
    if bit.Some? {
      return p.(flags := WithBit(p.flags, bit.value));
    }
    return p;
  }

  /** Where the token that starts at `from` ends, and whether the text ends with it. */
  method TokenEnd(buf: array<char>, ghost s: string, from: nat) returns (end: nat, done: bool)
    requires NoChar(s, '\0') && from <= |s| < buf.Length && Intact(buf[..], s, from)
    requires from > 0 ==> buf[from - 1] != '\\' && s[from - 1] != '\\'
    ensures from <= end <= |s| && (done <==> end == |s|) && (!done ==> Ends(s, end))
    ensures Tokens(s, from, from) == Tokens(s, from, end)
  {
    end := from;
    done := false;
    while true
      invariant from <= end <= |s| && Tokens(s, from, from) == Tokens(s, from, end) && !done
      decreases |s| - end
    {
      if buf[end] == '\0' {
        done := true;
        break;
      }
      if buf[end] == ',' && (end == 0 || buf[end - 1] != '\\') {
        break;
      }
      end := end + 1;
    }
  }

  /** _dmalloc_environ_process: the text is copied, and cut into tokens by writing NULs over its commas. */
  method EnvironProcess(env: string) returns (c: Config)
    requires NoChar(env, '\0')
    ensures c == Parse(env, ATTRIBUTES)
  {
    hide ATTRIBUTES, Apply, Tokens, ApplyAll;
    var buf := new char[TEXT_ROOM + 1](_ => '\0');
    var n := if |env| <= TEXT_ROOM then |env| else TEXT_ROOM;
    forall i | 0 <= i < n {
      buf[i] := env[i];
    }
    ghost var s := Clip(env, TEXT_ROOM);
    var p := Parsed(DEFAULTS, 0);
    var envP, done: bool := 0, false;
    while !done
      invariant 0 <= envP && (done || (envP <= |s| && Intact(buf[..], s, envP)))
      invariant !done && envP > 0 ==> buf[envP - 1] != '\\' && s[envP - 1] == ','
      invariant ApplyAll(Parsed(DEFAULTS, 0), Tokens(s, 0, 0), ATTRIBUTES)
        == if done then p else ApplyAll(p, Tokens(s, envP, envP), ATTRIBUTES)
      decreases if done then 0 else |s| + 1 - envP
    {
      ApplyNone(p);
      var thisP := envP;
      envP, done := TokenEnd(buf, s, thisP);
      if thisP != envP {
        buf[envP] := '\0';
        assert buf[thisP..envP] == s[thisP..envP];
        ghost var before := p;
        p := ApplyToken(p, buf[thisP..envP]);
        OneTokenOff(before, s, thisP, envP);
        ApplyNone(p);
      } else {
        EmptyToken(s, envP);
      }
      envP := envP + 1;
    }
    c := Finish(p);
  }

  lemma {:induction false} ApplyNone(p: Parsed)
    ensures ApplyAll(p, [], ATTRIBUTES) == p
  {
    hide ATTRIBUTES;
  }

  lemma {:induction false} EmptyToken(s: string, i: nat)
    requires i <= |s| && (i < |s| ==> Ends(s, i))
    ensures Tokens(s, i, i) == if i == |s| then [] else Tokens(s, i + 1, i + 1)
  {
  }

  lemma {:induction false} OneTokenOff(p: Parsed, s: string, from: nat, end: nat)
    requires from < end <= |s| && (end < |s| ==> Ends(s, end))
    ensures ApplyAll(p, Tokens(s, from, end), ATTRIBUTES)
      == ApplyAll(Apply(p, s[from..end], ATTRIBUTES),
                  if end == |s| then [] else Tokens(s, end + 1, end + 1), ATTRIBUTES)
  {
    hide ATTRIBUTES, Apply;
    var rest := if end == |s| then [] else Tokens(s, end + 1, end + 1);
    assert Tokens(s, from, end) == [s[from..end]] + rest;
    assert ([s[from..end]] + rest)[1..] == rest;
  }

  /** Printing into a buffer and parsing what it then holds. */
  method PrintAndParse(c: Config, longTokens: bool, size: nat) returns (back: Config)
    requires Printable(c, longTokens, ATTRIBUTES) && size > 0
    requires var text := Terminated(Items(c, longTokens, ATTRIBUTES));
      |text| < size && |text| <= TEXT_ROOM + 1 && NoChar(text, '\0')
    ensures back == c
  {
    hide Printable, ATTRIBUTES, Items, Terminated, Clip;
    var buf := new char[size](_ => '\0');
    EnvironSet(buf, c, longTokens);
    AttributesAreOk();
    RoundTrip(c, longTokens, ATTRIBUTES, size - 1);
    ghost var text := Printed(c, longTokens, ATTRIBUTES, size - 1);
    PrintedHasNoNul(c, longTokens, size - 1);
    assert forall i :: 0 <= i < |text| ==> buf[i] == text[i];
    var n := 0;
    while buf[n] != '\0'
      invariant 0 <= n <= |text| && forall i :: 0 <= i < n ==> buf[i] != '\0'
      decreases |text| - n
    {
      n := n + 1;
    }
    back := EnvironProcess(buf[..n]);
  }

  lemma {:induction false} PrintedHasNoNul(c: Config, longTokens: bool, room: nat)
    requires NoChar(Terminated(Items(c, longTokens, ATTRIBUTES)), '\0')
    ensures NoChar(Printed(c, longTokens, ATTRIBUTES, room), '\0')
  {
    hide Items, Terminated, ATTRIBUTES;
  }
}
