/** Which configurations survive being printed and read back: exactly the printable ones. */
module EnvExact {
  import opened Basics
  import opened EnvText
  import opened EnvOptions

  // ---------------------------------------------------------------- what any text can be read as

  /** No text is read as a path or file with a bare comma, as a file with a colon, as anything longer
      than its buffer, or as two kinds of start. */
  ghost predicate Readable(c: Config) {
    && (c.logpath.Some? ==> Escaped(c.logpath.value) && |c.logpath.value| <= PATH_ROOM)
    && (match c.startFile
        case Some(f) => NoChar(f, ':') && Escaped(f) && c.startIter == 0 && c.startSize == 0
        case None => c.startLine == 0 && (c.startIter == 0 || c.startSize == 0))
  }

  lemma {:induction false} ArgumentEscaped(t: string, tag: string)
    requires Escaped(t) && HasLabel(t, tag)
    ensures Escaped(Argument(t, tag))
  {
    var v, n := Argument(t, tag), |tag| + 1;
    forall i | 0 <= i < |v| && v[i] == ',' ensures i > 0 && v[i - 1] == '\\' {
      assert t[n + i] == ',';
    }
  }

  lemma {:induction false} FirstIndex(s: string, c: char, i: nat)
    requires i <= |s|
    decreases |s| - i
    ensures forall k :: i <= k < IndexOf(s, c, i) ==> s[k] != c
  {
    if i < |s| && s[i] != c { FirstIndex(s, c, i + 1); }
  }

  lemma {:induction false} StartReadable(c: Config, v: string)
    requires Readable(c) && Escaped(v)
    ensures Readable(StartBreak(c, v))
  {
    hide DecValue, Signed;
    FirstIndex(v, ':', 0);
  }

  lemma {:induction false} ApplyReadable(p: Parsed, t: string, table: seq<Attr>)
    requires Readable(p.config) && Escaped(t)
    ensures Readable(Apply(p, t, table).config)
  {
    if HasLabel(t, START_LABEL) {
      ArgumentEscaped(t, START_LABEL);
      StartReadable(p.config, Argument(t, START_LABEL));
    }
    if HasLabel(t, LOGFILE_LABEL) { ArgumentEscaped(t, LOGFILE_LABEL); }
    hide StartBreak, HexValue, DecValue, Signed, HasLabel, Argument;
  }

  lemma {:induction false} EscapedNext(t: string, c: char)
    requires Escaped(t) && (c == ',' ==> t != "" && t[|t| - 1] == '\\')
    ensures Escaped(t + [c])
  {
  }

  lemma {:induction false} TokensEscaped(s: string, from: nat, i: nat)
    requires from <= i <= |s| && (from == 0 || s[from - 1] == ',') && Escaped(s[from..i])
    decreases |s| - i
    ensures forall k :: 0 <= k < |Tokens(s, from, i)| ==> Escaped(Tokens(s, from, i)[k])
  {
    if i < |s| {
      if Ends(s, i) {
        TokensEscaped(s, i + 1, i + 1);
      } else {
        EscapedNext(s[from..i], s[i]);
        assert s[from..i] + [s[i]] == s[from..i + 1];
        TokensEscaped(s, from, i + 1);
      }
    }
  }

  lemma {:induction false} AllReadable(p: Parsed, tokens: seq<string>, table: seq<Attr>)
    requires Readable(p.config) && forall k :: 0 <= k < |tokens| ==> Escaped(tokens[k])
    decreases |tokens|
    ensures Readable(ApplyAll(p, tokens, table).config)
  {
    hide Readable, Escaped, Apply;
    if tokens != [] {
      ApplyReadable(p, tokens[0], table);
      AllReadable(Apply(p, tokens[0], table), tokens[1..], table);
    }
  }

  lemma {:induction false} WhatIsReadIsReadable(env: string, table: seq<Attr>)
    ensures Readable(Parse(env, table))
  {
    var s := Clip(env, TEXT_ROOM);
    TokensEscaped(s, 0, 0);
    AllReadable(Parsed(DEFAULTS, 0), Tokens(s, 0, 0), table);
  }

  // ---------------------------------------------------------------- fields no token speaks of

  predicate Mute(tokens: seq<string>, tag: string) {
    forall k :: 0 <= k < |tokens| ==> !HasLabel(tokens[k], tag)
  }

  predicate SameStart(c: Config, d: Config) {
    c.startFile == d.startFile && c.startLine == d.startLine && c.startIter == d.startIter && c.startSize == d.startSize
  }

  lemma {:induction false} MuteKeeps(p: Parsed, tokens: seq<string>, table: seq<Attr>)
    decreases |tokens|
    ensures var c, d := p.config, ApplyAll(p, tokens, table).config;
      && (Mute(tokens, START_LABEL) ==> SameStart(c, d))
      && (Mute(tokens, LIMIT_LABEL) ==> d.limit == c.limit)
      && (Mute(tokens, LOCK_ON_LABEL) ==> d.lockOn == c.lockOn)
      && (Mute(tokens, ADDRESS_LABEL) ==> d.addrCount == c.addrCount)
      && (Mute(tokens, DEBUG_LABEL) ==> d.debug == c.debug)
  {
    hide HasLabel, HexValue, DecValue, Signed;
    if tokens != [] {
      MuteKeeps(Apply(p, tokens[0], table), tokens[1..], table);
    }
  }

  /** Start settings without a colon name no file. */
  predicate NoFileNamed(tokens: seq<string>) {
    forall k :: 0 <= k < |tokens| && HasLabel(tokens[k], START_LABEL) ==> NoChar(Argument(tokens[k], START_LABEL), ':')
  }

  lemma {:induction false} NoFileRead(p: Parsed, tokens: seq<string>, table: seq<Attr>)
    requires NoFileNamed(tokens) && p.config.startFile == None
    decreases |tokens|
    ensures ApplyAll(p, tokens, table).config.startFile == None
  {
    hide HasLabel, Argument, HexValue, DecValue, Signed;
    if tokens != [] {
      NoFileRead(Apply(p, tokens[0], table), tokens[1..], table);
    }
  }

  lemma {:induction false} LookupNamed(table: seq<Attr>, name: string)
    ensures Lookup(table, name).Some? ==> NamedFrom(table, 0, Lookup(table, name).value)
  {
    if table != [] && table[0].name != name {
      LookupNamed(table[1..], name);
      if Lookup(table, name).Some? {
        var k :| 0 <= k < |table[1..]| && table[1..][k].bit == Some(Lookup(table, name).value);
        assert table[k + 1] == table[1..][k];
      }
    }
  }

  lemma {:induction false} FlagsNamed(p: Parsed, tokens: seq<string>, table: seq<Attr>)
    requires AllNamed(p.flags, table)
    decreases |tokens|
    ensures AllNamed(ApplyAll(p, tokens, table).flags, table)
  {
    hide HasLabel, Argument, HexValue, DecValue, Signed, Bit, NamedFrom, Lookup, StartBreak, AddressBreak;
    if tokens != [] {
      var q := Apply(p, tokens[0], table);
      LookupNamed(table, tokens[0]);
      forall b: nat | Bit(q.flags, b) ensures NamedFrom(table, 0, b) {
        if q.flags != p.flags { WithBitBits(p.flags, Lookup(table, tokens[0]).value, b); }
      }
      FlagsNamed(q, tokens[1..], table);
    }
  }

  // ---------------------------------------------------------------- swallowed commas

  /** The tokens that items are read as: one that ends in a backslash runs on into the next. */
  function Merge(items: seq<string>): seq<string>
    decreases |items|
  {
    if |items| <= 1 then items
    else if Swallows(items[0]) then Merge([items[0] + "," + items[1]] + items[2..])
    else [items[0]] + Merge(items[1..])
  }

  predicate AllEscaped(items: seq<string>) {
    forall k :: 0 <= k < |items| ==> items[k] != "" && Escaped(items[k])
  }

  lemma {:induction false} MergeJoins(items: seq<string>)
    requires AllEscaped(items)
    decreases |items|
    ensures Separable(Merge(items)) && Joined(Merge(items)) == Joined(items)
    ensures items != [] ==> Merge(items) != []
  {
    if |items| > 1 {
      if Swallows(items[0]) {
        var x, y := items[0], items[1];
        var next := [x + "," + y] + items[2..];
        assert Escaped(x + "," + y);
        MergeJoins(next);
        assert items[1..][1..] == items[2..] && next[1..] == items[2..];
        assert x + "," + (y + "," + Joined(items[2..])) == (x + "," + y) + "," + Joined(items[2..]);
      } else {
        MergeJoins(items[1..]);
        assert Merge(items)[1..] == Merge(items[1..]);
      }
    }
  }

  /** Whatever the items, reading what was printed applies the merged ones. */
  lemma {:induction false} ReadsMerged(items: seq<string>, table: seq<Attr>)
    requires AllEscaped(items) && |Joined(items)| <= TEXT_ROOM
    ensures Parse(Joined(items), table) == Finish(ApplyAll(Parsed(DEFAULTS, 0), Merge(items), table))
  {
    hide Separable, Apply;
    MergeJoins(items);
    SplitsBack("", Merge(items));
    assert "" + Joined(items) == Joined(items);
  }

  lemma {:induction false} MergeHead(items: seq<string>)
    requires items != [] && !Swallows(items[0])
    ensures Merge(items) == [items[0]] + Merge(items[1..])
  {
  }

  lemma {:induction false} MergePast(front: seq<string>, rest: seq<string>)
    requires AllTokens(front)
    decreases |front|
    ensures Merge(front + rest) == front + Merge(rest)
  {
    if front == [] {
      assert front + rest == rest;
      assert front + Merge(rest) == Merge(rest);
    } else {
      var all := front + rest;
      assert all[0] == front[0] && OneToken(front[0]);
      assert all[1..] == front[1..] + rest;
      assert AllTokens(front[1..]);
      MergePast(front[1..], rest);
      hide OneToken, Escaped, AllTokens;
      MergeHead(all);
      assert front == [front[0]] + front[1..];
      assert [front[0]] + (front[1..] + Merge(rest)) == front + Merge(rest);
    }
  }

  // ---------------------------------------------------------------- the labels of the items

  lemma {:induction false} MuteSetting(items: seq<string>, tag: string, v: string, other: string)
    requires items == [] || items == [Setting(tag, v)]
    requires NoChar(tag, '=') && NoChar(other, '=') && tag != other
    ensures Mute(items, other)
  {
    NoOtherLabel(tag, v, other);
  }

  lemma {:induction false} MuteNames(d: nat, table: seq<Attr>, other: string)
    requires TableOk(table)
    ensures Mute(DebugTokens(d, table), other)
  {
    if table != [] {
      assert PlainName(table[0].name);
      NameHasNoLabel(table[0].name, other);
      MuteNames(d, table[1..], other);
    }
  }

  lemma {:induction false} MuteBoth(a: seq<string>, b: seq<string>, tag: string)
    requires Mute(a, tag) && Mute(b, tag)
    ensures Mute(a + b, tag)
  {
  }

  /** The items before the path say nothing about the label. */
  lemma {:induction false} FrontMute(c: Config, longTokens: bool, table: seq<Attr>, tag: string)
    requires TableOk(table) && NoChar(tag, '=') && tag != INTERVAL_LABEL
    requires tag != DEBUG_LABEL || longTokens
    requires tag != ADDRESS_LABEL || c.addr == 0
    requires tag != LOCK_ON_LABEL || c.lockOn <= 0
    ensures Mute(Front(c, longTokens, table), tag)
  {
    LabelsPlain();
    var i1, i2 := DebugItems(c, longTokens, table), AddressItems(c);
    var i3, i4 := NumberItems(INTERVAL_LABEL, c.interval), NumberItems(LOCK_ON_LABEL, c.lockOn);
    assert Mute(i1, tag) by {
      MuteNames(c.debug, table, tag);
      if !longTokens { MuteSetting(i1, DEBUG_LABEL, Hexadecimal(c.debug), tag); }
    }
    assert Mute(i2, tag) by {
      if c.addr != 0 {
        var count := if c.addrCount > 0 then ":" + Decimal(c.addrCount) else "";
        MuteSetting(i2, ADDRESS_LABEL, Hexadecimal(c.addr) + count, tag);
      }
    }
    MuteSetting(i3, INTERVAL_LABEL, Decimal(c.interval), tag);
    if c.lockOn > 0 { MuteSetting(i4, LOCK_ON_LABEL, Decimal(c.lockOn), tag); }
    MuteBoth(i1, i2, tag);
    MuteBoth(i1 + i2, i3, tag);
    MuteBoth(i1 + i2 + i3, i4, tag);
  }

  // ---------------------------------------------------------------- what is lost

  /** The items after the path. */
  function Rest(c: Config): seq<string> {
    StartItems(c) + NumberItems(LIMIT_LABEL, c.limit)
  }

  lemma {:induction false} TokensAreEscaped(items: seq<string>)
    requires AllTokens(items)
    ensures AllEscaped(items)
  {
  }

  lemma {:induction false} EscapedBoth(a: seq<string>, b: seq<string>)
    requires AllEscaped(a) && AllEscaped(b)
    ensures AllEscaped(a + b)
  {
    hide Escaped;
  }

  lemma {:induction false} ReadableIsEscaped(c: Config, longTokens: bool, table: seq<Attr>)
    requires TableOk(table) && Readable(c)
    ensures AllEscaped(Items(c, longTokens, table))
  {
    FrontAreTokens(c, longTokens, table);
    TagsPlain();
    assert AllEscaped(PathItems(c)) by {
      if c.logpath.Some? { SettingEscaped(LOGFILE_LABEL, c.logpath.value); }
    }
    StartEscaped(c);
    NumberIsToken(LIMIT_LABEL, c.limit);
    hide PathItems, StartItems, NumberItems, Front, AllEscaped, AllTokens, Readable;
    TokensAreEscaped(Front(c, longTokens, table));
    TokensAreEscaped(NumberItems(LIMIT_LABEL, c.limit));
    EscapedBoth(Front(c, longTokens, table), PathItems(c));
    EscapedBoth(Front(c, longTokens, table) + PathItems(c), StartItems(c));
    EscapedBoth(Front(c, longTokens, table) + PathItems(c) + StartItems(c), NumberItems(LIMIT_LABEL, c.limit));
  }

  lemma {:induction false} ItemsByPart(c: Config, longTokens: bool, table: seq<Attr>)
    ensures Items(c, longTokens, table) == Front(c, longTokens, table) + (PathItems(c) + Rest(c))
  {
    hide Front, PathItems, StartItems, NumberItems;
  }

  lemma {:induction false} StartEscaped(c: Config)
    requires Readable(c)
    ensures AllEscaped(StartItems(c))
  {
    TagsPlain();
    if c.startFile.Some? {
      if c.startLine > 0 {
        FileIsToken(c.startFile.value, c.startLine);
        assert c.startFile.value + (":" + Decimal(c.startLine)) == c.startFile.value + ":" + Decimal(c.startLine);
      } else {
        assert c.startFile.value + "" == c.startFile.value;
        SettingEscaped(START_LABEL, c.startFile.value);
      }
    } else {
      StartIsToken(c.(logpath := None));
    }
  }

  lemma {:induction false} LimitMute(c: Config, tag: string)
    requires NoChar(tag, '=') && tag != LIMIT_LABEL
    ensures Mute(NumberItems(LIMIT_LABEL, c.limit), tag)
  {
    LabelsPlain();
    if c.limit > 0 { MuteSetting(NumberItems(LIMIT_LABEL, c.limit), LIMIT_LABEL, Decimal(c.limit), tag); }
  }

  lemma {:induction false} PathMute(c: Config, tag: string)
    requires NoChar(tag, '=') && tag != LOGFILE_LABEL
    ensures Mute(PathItems(c), tag)
  {
    LabelsPlain();
    if c.logpath.Some? { MuteSetting(PathItems(c), LOGFILE_LABEL, c.logpath.value, tag); }
  }

  lemma {:induction false} StartMute(c: Config, tag: string)
    requires NoChar(tag, '=') && tag != START_LABEL
    ensures Mute(StartItems(c), tag)
  {
    LabelsPlain();
    var items := StartItems(c);
    if items != [] {
      var v := items[0][|START_LABEL| + 1..];
      assert items[0] == Setting(START_LABEL, v);
      MuteSetting(items, START_LABEL, v, tag);
    }
  }

  /** A setting in front may take in some of the items behind it, at least one if it ends in a
      backslash. */
  lemma {:induction false} MergedSetting(tag: string, v: string, rest: seq<string>) returns (v': string, k: nat)
    decreases |rest|
    ensures k <= |rest| && Merge([Setting(tag, v)] + rest) == [Setting(tag, v')] + Merge(rest[k..])
    ensures Swallows(Setting(tag, v)) && rest != [] ==> k >= 1
    ensures NoChar(v, ':') && (forall i :: 0 <= i < |rest| ==> NoChar(rest[i], ':')) ==> NoChar(v', ':')
  {
    var items := [Setting(tag, v)] + rest;
    assert items[1..] == rest;
    if rest != [] && Swallows(items[0]) {
      var w := v + "," + rest[0];
      assert Setting(tag, w) == items[0] + "," + items[1];
      assert items[2..] == rest[1..];
      v', k := MergedSetting(tag, w, rest[1..]);
      assert rest[1..][k..] == rest[k + 1..];
      k := k + 1;
    } else {
      v', k := v, 0;
      assert rest[0..] == rest;
    }
  }

  lemma {:induction false} SingleSetting(tag: string, v: string, other: string)
    requires NoChar(tag, '=') && NoChar(other, '=') && tag != other
    ensures Mute([Setting(tag, v)], other)
  {
    MuteSetting([Setting(tag, v)], tag, v, other);
  }

  /** How c is read back, when its items are escaped. */
  function ReadBack(c: Config, longTokens: bool, table: seq<Attr>): Config
  {
    Finish(ApplyAll(Parsed(DEFAULTS, 0), Merge(Items(c, longTokens, table)), table))
  }

  lemma {:induction false} Untouched(tokens: seq<string>, table: seq<Attr>)
    ensures var d := Finish(ApplyAll(Parsed(DEFAULTS, 0), tokens, table));
      && (Mute(tokens, START_LABEL) ==> SameStart(DEFAULTS, d))
      && (Mute(tokens, LIMIT_LABEL) ==> d.limit == 0)
      && (Mute(tokens, LOCK_ON_LABEL) ==> d.lockOn == 0)
      && (Mute(tokens, ADDRESS_LABEL) ==> d.addrCount == 0)
      && (Mute(tokens, DEBUG_LABEL) ==> AllNamed(d.debug, table))
      && (NoFileNamed(tokens) ==> d.startFile == None)
  {
    hide Mute, ApplyAll, AllNamed, Or, NoFileNamed;
    assert AllNamed(0, table) by { NoneNamed(table); }
    MuteKeeps(Parsed(DEFAULTS, 0), tokens, table);
    FlagsNamed(Parsed(DEFAULTS, 0), tokens, table);
    if NoFileNamed(tokens) { NoFileRead(Parsed(DEFAULTS, 0), tokens, table); }
  }

  lemma {:induction false} NoneNamed(table: seq<Attr>)
    ensures AllNamed(0, table)
  {
    forall b: nat ensures !Bit(0, b) { NoBits(b); }
  }

  lemma {:induction false} ShortMerge(items: seq<string>)
    requires |items| <= 1
    ensures Merge(items) == items
  {
  }

  /** A path that ends in a backslash takes the next item with it. */
  lemma {:induction false} PathTakesNext(c: Config, longTokens: bool, table: seq<Attr>)
    requires TableOk(table) && c.logpath.Some? && Swallows(c.logpath.value) && MoreAfterPath(c)
    ensures ReadBack(c, longTokens, table) != c
  {
    LabelsPlain();
    TagsPlain();
    var front, rest := Front(c, longTokens, table), Rest(c);
    var tag := if StartItems(c) != [] then START_LABEL else LIMIT_LABEL;
    FrontAreTokens(c, longTokens, table);
    FrontMute(c, longTokens, table, tag);
    assert Swallows(Setting(LOGFILE_LABEL, c.logpath.value));
    LimitMute(c, START_LABEL);
    var v, k := MergedSetting(LOGFILE_LABEL, c.logpath.value, rest);
    SingleSetting(LOGFILE_LABEL, v, tag);
    assert k >= 1 && Mute(rest[k..], tag) && |rest[k..]| <= 1;
    hide Front, HasLabel, TableOk, Swallows, Setting, AllTokens;
    ItemsByPart(c, longTokens, table);
    MergePast(front, PathItems(c) + rest);
    ShortMerge(rest[k..]);
    MuteBoth([Setting(LOGFILE_LABEL, v)], rest[k..], tag);
    MuteBoth(front, [Setting(LOGFILE_LABEL, v)] + rest[k..], tag);
    Untouched(front + ([Setting(LOGFILE_LABEL, v)] + rest[k..]), table);
  }

  lemma {:induction false} NoFileBoth(a: seq<string>, b: seq<string>)
    requires NoFileNamed(a) && NoFileNamed(b)
    ensures NoFileNamed(a + b)
  {
  }

  lemma {:induction false} MuteNamesNoFile(items: seq<string>)
    requires Mute(items, START_LABEL)
    ensures NoFileNamed(items)
  {
  }

  /** A file without a line number is read as a count. */
  lemma {:induction false} FileTakenForCount(c: Config, longTokens: bool, table: seq<Attr>)
    requires TableOk(table) && c.startFile.Some? && NoChar(c.startFile.value, ':') && c.startLine <= 0
    requires c.logpath.Some? ==> !Swallows(c.logpath.value) && Escaped(c.logpath.value)
    ensures ReadBack(c, longTokens, table) != c
  {
    LabelsPlain();
    TagsPlain();
    var front, limit := Front(c, longTokens, table) + PathItems(c), NumberItems(LIMIT_LABEL, c.limit);
    assert AllTokens(front) by {
      FrontAreTokens(c, longTokens, table);
      if c.logpath.Some? { SettingEscaped(LOGFILE_LABEL, c.logpath.value); }
    }
    FrontMute(c, longTokens, table, START_LABEL);
    PathMute(c, START_LABEL);
    LimitMute(c, START_LABEL);
    assert StartItems(c) == [Setting(START_LABEL, c.startFile.value)] by {
      assert c.startFile.value + "" == c.startFile.value;
    }
    LimitHasNoColon(c);
    assert |limit| <= 1;
    hide Front, PathItems, NumberItems, StartItems, HasLabel, TableOk, Swallows, Escaped, Setting, AllTokens, NoChar;
    assert Items(c, longTokens, table) == front + ([Setting(START_LABEL, c.startFile.value)] + limit);
    MergePast(front, [Setting(START_LABEL, c.startFile.value)] + limit);
    MuteBoth(Front(c, longTokens, table), PathItems(c), START_LABEL);
    MuteNamesNoFile(front);
    NoFileMerged(c.startFile.value, limit);
    NoFileBoth(front, Merge([Setting(START_LABEL, c.startFile.value)] + limit));
    Untouched(front + Merge([Setting(START_LABEL, c.startFile.value)] + limit), table);
  }

  lemma {:induction false} NoFileMerged(f: string, limit: seq<string>)
    requires |limit| <= 1 && Mute(limit, START_LABEL) && NoChar(f, ':')
    requires forall i :: 0 <= i < |limit| ==> NoChar(limit[i], ':')
    ensures NoFileNamed(Merge([Setting(START_LABEL, f)] + limit))
  {
    var v, k := MergedSetting(START_LABEL, f, limit);
    ItsOwnLabel(START_LABEL, v);
    assert NoFileNamed([Setting(START_LABEL, v)]);
    assert Mute(limit[k..], START_LABEL) && |limit[k..]| <= 1;
    hide HasLabel, Swallows, Setting, NoChar;
    ShortMerge(limit[k..]);
    MuteNamesNoFile(limit[k..]);
    NoFileBoth([Setting(START_LABEL, v)], limit[k..]);
  }

  lemma {:induction false} LimitHasNoColon(c: Config)
    ensures forall i :: 0 <= i < |NumberItems(LIMIT_LABEL, c.limit)| ==>
      NoChar(NumberItems(LIMIT_LABEL, c.limit)[i], ':')
  {
    if c.limit > 0 {
      var d := Decimal(c.limit);
      assert forall i :: 0 <= i < |d| ==> IsDigit(d[i]);
      assert NoChar(d, ':') && NoChar(LIMIT_LABEL, ':');
    }
  }

  /** A printed number that was cut short is read as a smaller one. */
  lemma {:induction false} CutNumber(n: nat, k: nat)
    requires n > 0 && k < |Decimal(n)|
    decreases n
    ensures Signed(Decimal(n)[..k]) < n
  {
    if k > 0 {
      var s := Decimal(n / 10);
      assert n >= 10 && Decimal(n) == s + [Digit(n % 10)];
      assert Decimal(n)[..k] == s[..k];
      if k == |s| {
        assert s[..k] == s;
        DecimalRoundTrip(n / 10);
      } else {
        CutNumber(n / 10, k);
      }
    }
  }

  /** A file and line longer than the buffer come back shorter. */
  lemma {:induction false} LongFileIsCut(c: Config, f: string, line: nat)
    requires NoChar(f, ':') && line > 0 && |f + ":" + Decimal(line)| > PATH_ROOM
    ensures var d := StartBreak(c, f + ":" + Decimal(line)); d.startFile == Some(f) ==> d.startLine < line
  {
    var v := f + ":" + Decimal(line);
    IndexSkips(v, ':', 0, |f|);
    assert v[..|f|] == f;
    var copy := Clip(v, PATH_ROOM);
    if |f| + 1 <= |copy| {
      var k := PATH_ROOM - |f| - 1;
      assert copy[|f| + 1..] == Decimal(line)[..k];
      CutNumber(line, k);
    }
  }

  lemma {:induction false} LongFileLost(c: Config, longTokens: bool, table: seq<Attr>)
    requires TableOk(table) && c.startFile.Some? && NoChar(c.startFile.value, ':') && c.startLine > 0
    requires |c.startFile.value + ":" + Decimal(c.startLine)| > PATH_ROOM
    ensures Finish(ApplyAll(Parsed(DEFAULTS, 0), Items(c, longTokens, table), table)) != c
  {
    var f, v := c.startFile.value, c.startFile.value + ":" + Decimal(c.startLine);
    var front, limit := Front(c, longTokens, table) + PathItems(c), NumberItems(LIMIT_LABEL, c.limit);
    LabelsPlain();
    LimitMute(c, START_LABEL);
    assert StartItems(c) == [Setting(START_LABEL, v)] by { assert f + (":" + Decimal(c.startLine)) == v; }
    hide Front, PathItems, NumberItems, StartItems, Setting, NoChar, StartBreak, Decimal, HasLabel;
    var p := ApplyAll(Parsed(DEFAULTS, 0), front, table);
    ApplyTwice(Parsed(DEFAULTS, 0), front + [Setting(START_LABEL, v)], limit, table);
    ApplyTwice(Parsed(DEFAULTS, 0), front, [Setting(START_LABEL, v)], table);
    ApplyOne(p, Setting(START_LABEL, v), table);
    AppliesSetting(p, START_LABEL, v, table);
    MuteKeeps(Apply(p, Setting(START_LABEL, v), table), limit, table);
    LongFileIsCut(p.config, f, c.startLine);
  }

  lemma {:induction false} ItemsMute(c: Config, longTokens: bool, table: seq<Attr>, tag: string)
    requires TableOk(table)
    requires
      || (tag == DEBUG_LABEL && longTokens)
      || (tag == ADDRESS_LABEL && c.addr == 0)
      || (tag == LOCK_ON_LABEL && c.lockOn <= 0)
    ensures Mute(Items(c, longTokens, table), tag)
  {
    LabelsPlain();
    LabelsDiffer();
    FrontMute(c, longTokens, table, tag);
    PathMute(c, tag);
    StartMute(c, tag);
    LimitMute(c, tag);
    hide Front, PathItems, StartItems, NumberItems, Mute;
    MuteBoth(Front(c, longTokens, table), PathItems(c), tag);
    MuteBoth(Front(c, longTokens, table) + PathItems(c), StartItems(c), tag);
    MuteBoth(Front(c, longTokens, table) + PathItems(c) + StartItems(c), NumberItems(LIMIT_LABEL, c.limit), tag);
  }

  /** Items that stay apart are their own tokens. */
  lemma {:induction false} MergeNothing(items: seq<string>)
    requires Separable(items)
    decreases |items|
    ensures Merge(items) == items
  {
    if |items| > 1 {
      MergeNothing(items[1..]);
    }
  }

  lemma {:induction false} ReadsItems(c: Config, longTokens: bool, table: seq<Attr>)
    requires TableOk(table) && ItemsStayApart(c)
    ensures ReadBack(c, longTokens, table) == Finish(ApplyAll(Parsed(DEFAULTS, 0), Items(c, longTokens, table), table))
  {
    hide TableOk, ItemsStayApart, Items, Separable, ApplyAll, Finish;
    ItemsAreSeparable(c, longTokens, table);
    MergeNothing(Items(c, longTokens, table));
  }

  lemma {:induction false} StaysApart(c: Config, longTokens: bool, table: seq<Attr>)
    requires TableOk(table) && Readable(c) && ReadBack(c, longTokens, table) == c
    ensures ItemsStayApart(c)
  {
    hide ReadBack, TableOk, Swallows, Escaped, NoChar;
    if c.logpath.Some? && Swallows(c.logpath.value) && MoreAfterPath(c) {
      PathTakesNext(c, longTokens, table);
    }
    if c.startFile.Some? && c.startLine <= 0 {
      FileTakenForCount(c, longTokens, table);
    }
  }

  lemma {:induction false} FitsStart(c: Config, longTokens: bool, table: seq<Attr>)
    requires TableOk(table) && Readable(c) && ItemsStayApart(c) && c.startFile.Some?
    requires Finish(ApplyAll(Parsed(DEFAULTS, 0), Items(c, longTokens, table), table)) == c
    ensures |c.startFile.value + ":" + Decimal(c.startLine)| <= PATH_ROOM
  {
    hide TableOk, Swallows, Escaped, NoChar, MoreAfterPath, Items, ApplyAll, Finish, Decimal;
    if |c.startFile.value + ":" + Decimal(c.startLine)| > PATH_ROOM {
      LongFileLost(c, longTokens, table);
    }
  }

  /** What is read back as itself is printable. */
  lemma {:induction false} OnlyPrintable(c: Config, longTokens: bool, table: seq<Attr>)
    requires TableOk(table) && Readable(c) && ReadBack(c, longTokens, table) == c
    ensures Printable(c, longTokens, table)
  {
    StaysApart(c, longTokens, table);
    ReadsItems(c, longTokens, table);
    if c.startFile.Some? { FitsStart(c, longTokens, table); }
    hide ReadBack, TableOk, AllNamed, Swallows, Escaped, NoChar, Decimal, MoreAfterPath, Items, ApplyAll, Finish;
    hide Mute, NoFileNamed;
    Untouched(Items(c, longTokens, table), table);
    if longTokens { ItemsMute(c, longTokens, table, DEBUG_LABEL); }
    if c.addr == 0 { ItemsMute(c, longTokens, table, ADDRESS_LABEL); }
    if c.lockOn <= 0 { ItemsMute(c, longTokens, table, LOCK_ON_LABEL); }
  }

  /** A configuration whose text fits the buffers is read back as it was printed exactly when it is
      printable. */
  lemma {:induction false} RoundTripExactly(c: Config, longTokens: bool, table: seq<Attr>, room: nat)
    requires TableOk(table)
    requires |Terminated(Items(c, longTokens, table))| <= room
      && |Terminated(Items(c, longTokens, table))| <= TEXT_ROOM + 1
    ensures Parse(Printed(c, longTokens, table, room), table) == c <==> Printable(c, longTokens, table)
  {
    var s, items := Printed(c, longTokens, table, room), Items(c, longTokens, table);
    hide TableOk, Readable, Printable, Items, Parse;
    if Printable(c, longTokens, table) {
      RoundTrip(c, longTokens, table, room);
    } else if Parse(s, table) == c {
      WhatIsReadIsReadable(s, table);
      ReadableIsEscaped(c, longTokens, table);
      TerminatedIsJoined(items);
      ReadsMerged(items, table);
      OnlyPrintable(c, longTokens, table);
    }
  }
}
