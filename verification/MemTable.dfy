/** The memory table: an open-addressing hash table in an array, with one overflow bucket at its end. */
module MemTables {
  import opened TableModel
  import opened TableSort
  import opened Permutations
  import opened Sums

  /** Entries of the array; the last one collects what does not fit. */
  const ENTRIES: nat := 2 * MEMORY_TABLE_SIZE
  const BUCKETS: nat := ENTRIES - 1

  function KeyOf(e: Entry): Key
  {
    Key(e.file, e.line)
  }

  function TotalsOf(e: Entry): Totals
  {
    Totals(e.totalSize, e.totalC, e.inUseSize, e.inUseC)
  }

  // ---------------------------------------------------------------- probing

  /** The bucket d steps from h, around the end. */
  function At(h: nat, d: nat): nat
    requires h < BUCKETS && d < BUCKETS
  {
    if h + d < BUCKETS then h + d else h + d - BUCKETS
  }

  /** The steps from h to bucket i. */
  function Dist(h: nat, i: nat): (d: nat)
    requires h < BUCKETS && i < BUCKETS
    ensures d < BUCKETS && At(h, d) == i
  {
    if i >= h then i - h else i - h + BUCKETS
  }

  type Home = (nat, nat) -> nat

  function Bucket(home: Home, k: Key): (h: nat)
    ensures h < BUCKETS
  {
    home(k.file, k.line) % BUCKETS
  }

  /** The first d buckets from h on are in use. */
  predicate Filled(s: seq<Entry>, h: nat, d: nat)
    requires |s| == ENTRIES && h < BUCKETS && d <= BUCKETS
  {
    forall j {:trigger At(h, j)} :: 0 <= j < d ==> s[At(h, j)].file != NULL
  }

  /** Blank entries are zero, used ones know their place, and the overflow bucket has no file. */
  predicate Clean(s: seq<Entry>) {
    && |s| == ENTRIES && s[BUCKETS].file == NULL
    && forall i :: 0 <= i < BUCKETS ==> if s[i].file == NULL then s[i] == BLANK else s[i].pos == i
  }

  predicate OneEach(s: seq<Entry>)
    requires |s| == ENTRIES
  {
    forall i, j :: 0 <= i < j < BUCKETS && s[i].file != NULL && s[j].file != NULL ==> KeyOf(s[i]) != KeyOf(s[j])
  }

  /** Every key is reached from its home bucket without meeting a blank. */
  predicate Reachable(s: seq<Entry>, home: Home)
    requires |s| == ENTRIES
  {
    forall i :: 0 <= i < BUCKETS && s[i].file != NULL ==>
      var h := Bucket(home, KeyOf(s[i])); Filled(s, h, Dist(h, i))
  }

  predicate Tidy(s: seq<Entry>, home: Home) {
    Clean(s) && OneEach(s) && Reachable(s, home)
  }

  // ---------------------------------------------------------------- the map the array stands for

  function Contents(s: seq<Entry>, n: nat): map<Key, Totals>
    requires n <= |s|
  {
    if n == 0 then map[]
    else if s[n - 1].file == NULL then Contents(s, n - 1)
    else Contents(s, n - 1)[KeyOf(s[n - 1]) := TotalsOf(s[n - 1])]
  }

  function Occupied(s: seq<Entry>, n: nat): (c: nat)
    requires n <= |s|
    ensures c <= n
  {
    if n == 0 then 0 else Occupied(s, n - 1) + if s[n - 1].file == NULL then 0 else 1
  }

  lemma {:induction false} ContentsAt(s: seq<Entry>, n: nat)
    requires |s| == ENTRIES && OneEach(s) && n <= BUCKETS
    ensures forall i :: 0 <= i < n && s[i].file != NULL ==>
      KeyOf(s[i]) in Contents(s, n) && Contents(s, n)[KeyOf(s[i])] == TotalsOf(s[i])
    ensures forall k :: k in Contents(s, n) ==> exists i :: 0 <= i < n && s[i].file != NULL && KeyOf(s[i]) == k
  {
    if n > 0 {
      ContentsAt(s, n - 1);
      var m' := Contents(s, n);
      if s[n - 1].file != NULL {
        forall k' | k' in m' ensures exists i :: 0 <= i < n && s[i].file != NULL && KeyOf(s[i]) == k' {
          if k' == KeyOf(s[n - 1]) { assert KeyOf(s[n - 1]) == k'; } else { assert k' in Contents(s, n - 1); }
        }
      }
    }
  }

  lemma {:induction false} ContentsCounted(s: seq<Entry>, n: nat)
    requires |s| == ENTRIES && OneEach(s) && n <= BUCKETS
    ensures |Contents(s, n)| == Occupied(s, n)
  {
    if n > 0 {
      ContentsCounted(s, n - 1);
      ContentsAt(s, n - 1);
      if s[n - 1].file != NULL {
        assert Contents(s, n).Keys == Contents(s, n - 1).Keys + {KeyOf(s[n - 1])};
      }
    }
  }

  lemma {:induction false} SameContents(s: seq<Entry>, t: seq<Entry>, n: nat)
    requires n <= |s| && n <= |t| && s[..n] == t[..n]
    ensures Contents(s, n) == Contents(t, n) && Occupied(s, n) == Occupied(t, n)
  {
    if n > 0 {
      assert s[n - 1] == s[..n][n - 1] == t[n - 1];
      assert s[..n - 1] == s[..n][..n - 1] == t[..n - 1];
      SameContents(s, t, n - 1);
    }
  }

  lemma {:induction false} OccupiedUpdate(s: seq<Entry>, n: nat, i: nat, e: Entry)
    requires i < n <= |s|
    ensures Occupied(s[i := e], n) ==
      Occupied(s, n) + (if e.file == NULL then 0 else 1) - (if s[i].file == NULL then 0 else 1)
  {
    if i < n - 1 {
      OccupiedUpdate(s, n - 1, i, e);
    } else {
      assert s[i := e][..n - 1] == s[..n - 1];
      SameContents(s[i := e], s, n - 1);
    }
  }

  /** An entry that changes but keeps its key, or a blank that becomes the entry of a new key. */
  /** The map holds exactly the entries of s. */
  ghost predicate HoldsEntries(m: map<Key, Totals>, s: seq<Entry>)
    requires |s| == ENTRIES
  {
    && (forall i :: 0 <= i < BUCKETS && s[i].file != NULL ==> KeyOf(s[i]) in m && m[KeyOf(s[i])] == TotalsOf(s[i]))
    && (forall k :: k in m ==> exists i :: 0 <= i < BUCKETS && s[i].file != NULL && KeyOf(s[i]) == k)
  }

  lemma {:induction false} EntriesUpdated(m: map<Key, Totals>, s: seq<Entry>, i: nat, e: Entry)
    requires |s| == ENTRIES && i < BUCKETS && OneEach(s[i := e]) && e.file != NULL && HoldsEntries(m, s)
    requires s[i].file == NULL || KeyOf(s[i]) == KeyOf(e)
    ensures HoldsEntries(m[KeyOf(e) := TotalsOf(e)], s[i := e])
  {
    var t, m' := s[i := e], m[KeyOf(e) := TotalsOf(e)];
    hide TotalsOf, KeyOf;
    forall j | 0 <= j < BUCKETS && t[j].file != NULL ensures KeyOf(t[j]) in m' && m'[KeyOf(t[j])] == TotalsOf(t[j]) {
      if j != i {
        assert t[j] == s[j];
        assert KeyOf(t[i]) != KeyOf(t[j]);
      }
    }
    forall k | k in m' ensures exists j :: 0 <= j < BUCKETS && t[j].file != NULL && KeyOf(t[j]) == k {
      if k == KeyOf(e) {
        assert t[i] == e;
      } else {
        var j :| 0 <= j < BUCKETS && s[j].file != NULL && KeyOf(s[j]) == k;
        assert t[j] == s[j];
      }
    }
  }

  lemma {:induction false} SameEntries(m: map<Key, Totals>, m': map<Key, Totals>, s: seq<Entry>)
    requires |s| == ENTRIES && HoldsEntries(m, s) && HoldsEntries(m', s)
    ensures m == m'
  {
    forall k | k in m ensures k in m' && m[k] == m'[k] {
      var i :| 0 <= i < BUCKETS && s[i].file != NULL && KeyOf(s[i]) == k;
    }
    forall k | k in m' ensures k in m {
      var i :| 0 <= i < BUCKETS && s[i].file != NULL && KeyOf(s[i]) == k;
    }
  }

  lemma {:induction false} ContentsUpdate(s: seq<Entry>, i: nat, e: Entry)
    requires |s| == ENTRIES && i < BUCKETS && OneEach(s) && OneEach(s[i := e]) && e.file != NULL
    requires s[i].file == NULL || KeyOf(s[i]) == KeyOf(e)
    ensures Contents(s[i := e], BUCKETS) == Contents(s, BUCKETS)[KeyOf(e) := TotalsOf(e)]
  {
    ContentsAt(s, BUCKETS);
    ContentsAt(s[i := e], BUCKETS);
    EntriesUpdated(Contents(s, BUCKETS), s, i, e);
    SameEntries(Contents(s, BUCKETS)[KeyOf(e) := TotalsOf(e)], Contents(s[i := e], BUCKETS), s[i := e]);
  }

  // ---------------------------------------------------------------- the searches

  lemma {:induction false} AllOccupied(s: seq<Entry>, n: nat)
    requires n <= |s| && forall i :: 0 <= i < n ==> s[i].file != NULL
    ensures Occupied(s, n) == n
  {
    if n > 0 { AllOccupied(s, n - 1); }
  }

  /** A table that is not over-full has a blank bucket, where every search must stop. */
  lemma {:induction false} BlankRemains(s: seq<Entry>) returns (i: nat)
    requires |s| == ENTRIES && Occupied(s, BUCKETS) <= MEMORY_TABLE_SIZE
    ensures i < BUCKETS && s[i].file == NULL
  {
    if forall i :: 0 <= i < BUCKETS ==> s[i].file != NULL {
      AllOccupied(s, BUCKETS);
    }
    i :| 0 <= i < BUCKETS && s[i].file == NULL;
  }

  /** d buckets from the home of k were looked at: all in use, none of them k's. */
  predicate Passed(s: seq<Entry>, h: nat, d: nat, k: Key)
    requires |s| == ENTRIES && h < BUCKETS && d <= BUCKETS
  {
    forall j {:trigger At(h, j)} :: 0 <= j < d ==> s[At(h, j)].file != NULL && KeyOf(s[At(h, j)]) != k
  }

  /** A search that stops at a blank bucket has not missed its key. */
  lemma {:induction false} NotThere(s: seq<Entry>, home: Home, k: Key, d: nat)
    requires Tidy(s, home) && d < BUCKETS && Passed(s, Bucket(home, k), d, k)
    requires s[At(Bucket(home, k), d)].file == NULL
    ensures k !in Contents(s, BUCKETS)
  {
    var h := Bucket(home, k);
    ContentsAt(s, BUCKETS);
    forall i | 0 <= i < BUCKETS && s[i].file != NULL ensures KeyOf(s[i]) != k {
      assert At(h, Dist(h, i)) == i;
      if Dist(h, i) >= d {
        assert s[At(h, d)].file == NULL;
        assert !Filled(s, h, Dist(h, i));
      }
    }
  }

  lemma {:induction false} Found(s: seq<Entry>, home: Home, i: nat)
    requires Tidy(s, home) && i < BUCKETS && s[i].file != NULL
    ensures KeyOf(s[i]) in Contents(s, BUCKETS) && Contents(s, BUCKETS)[KeyOf(s[i])] == TotalsOf(s[i])
  {
    ContentsAt(s, BUCKETS);
  }

  // ---------------------------------------------------------------- updates

  /** The totals of an entry change. */
  lemma {:induction false} TidyInPlace(s: seq<Entry>, home: Home, i: nat, e: Entry)
    requires Tidy(s, home) && i < BUCKETS && s[i].file != NULL
    requires e.file == s[i].file && e.line == s[i].line && e.pos == s[i].pos
    ensures Tidy(s[i := e], home)
    ensures Contents(s[i := e], BUCKETS) == Contents(s, BUCKETS)[KeyOf(e) := TotalsOf(e)]
    ensures Occupied(s[i := e], BUCKETS) == Occupied(s, BUCKETS)
  {
    var t := s[i := e];
    forall j | 0 <= j < BUCKETS && t[j].file != NULL
      ensures var h := Bucket(home, KeyOf(t[j])); Filled(t, h, Dist(h, j))
    {
      var h := Bucket(home, KeyOf(s[j]));
      assert Filled(s, h, Dist(h, j));
    }
    ContentsUpdate(s, i, e);
    OccupiedUpdate(s, BUCKETS, i, e);
  }

  /** A blank bucket becomes the entry of a new key. */
  lemma {:induction false} TidyNew(s: seq<Entry>, home: Home, i: nat, e: Entry)
    requires Tidy(s, home) && i < BUCKETS && s[i].file == NULL && e.file != NULL && e.pos == i
    requires KeyOf(e) !in Contents(s, BUCKETS)
    requires var h := Bucket(home, KeyOf(e)); Filled(s, h, Dist(h, i))
    ensures Tidy(s[i := e], home)
    ensures Contents(s[i := e], BUCKETS) == Contents(s, BUCKETS)[KeyOf(e) := TotalsOf(e)]
    ensures Occupied(s[i := e], BUCKETS) == Occupied(s, BUCKETS) + 1
  {
    var t := s[i := e];
    ContentsAt(s, BUCKETS);
    forall j | 0 <= j < BUCKETS && t[j].file != NULL
      ensures var h := Bucket(home, KeyOf(t[j])); Filled(t, h, Dist(h, j))
    {
      var h := Bucket(home, KeyOf(t[j]));
      assert Filled(s, h, Dist(h, j));
    }
    ContentsUpdate(s, i, e);
    OccupiedUpdate(s, BUCKETS, i, e);
  }

  /** The overflow bucket changes. */
  lemma {:induction false} TidyOther(s: seq<Entry>, home: Home, e: Entry)
    requires Tidy(s, home) && e.file == NULL
    ensures Tidy(s[BUCKETS := e], home)
    ensures Contents(s[BUCKETS := e], BUCKETS) == Contents(s, BUCKETS)
    ensures Occupied(s[BUCKETS := e], BUCKETS) == Occupied(s, BUCKETS)
  {
    var t := s[BUCKETS := e];
    forall j | 0 <= j < BUCKETS && t[j].file != NULL
      ensures var h := Bucket(home, KeyOf(t[j])); Filled(t, h, Dist(h, j))
    {
      var h := Bucket(home, KeyOf(s[j]));
      assert Filled(s, h, Dist(h, j));
    }
    assert t[..BUCKETS] == s[..BUCKETS];
    SameContents(s, t, BUCKETS);
  }

  function Grown(e: Entry, size: nat): Entry
  {
    e.(totalSize := e.totalSize + size, totalC := e.totalC + 1, inUseSize := e.inUseSize + size, inUseC := e.inUseC + 1)
  }

  class MemTable {
    const home: Home
    const entries: array<Entry>
    var count: nat

    ghost function View(): Table
      reads this, entries
      requires entries.Length == ENTRIES
    {
      Table(Contents(entries[..], BUCKETS), TotalsOf(entries[BUCKETS]))
    }

    ghost predicate Valid()
      reads this, entries
    {
      && entries.Length == ENTRIES && Tidy(entries[..], home)
      && count == Occupied(entries[..], BUCKETS) <= MEMORY_TABLE_SIZE
      && (count < MEMORY_TABLE_SIZE ==> TotalsOf(entries[BUCKETS]) == NOTHING)
    }

    constructor (home: Home)
      ensures Valid() && View() == EMPTY && fresh(entries)
    {
      this.home := home;
      entries := new Entry[ENTRIES](_ => BLANK);
      count := 0;
      new;
      BlankTable(entries[..], home);
    }

    /** _dmalloc_table_clear. */
    method Clear()
      requires Valid()
      modifies this, entries
      ensures Valid() && View() == EMPTY
    {
      forall i | 0 <= i < entries.Length {
        entries[i] := BLANK;
      }
      count := 0;
      BlankTable(entries[..], home);
    }

    /** The search of _dmalloc_table_insert: the entry of the key, or the first blank bucket from its
        home on. */
    method Probe(k: Key) returns (tab: nat)
      requires Valid() && k.file != NULL
      ensures tab < BUCKETS
      ensures entries[tab].file != NULL ==> KeyOf(entries[tab]) == k
      ensures entries[tab].file == NULL ==>
        var h := Bucket(home, k);
        k !in Contents(entries[..], BUCKETS) && Filled(entries[..], h, Dist(h, tab))
    {
      hide Tidy, Contents, Occupied;
      tab := Bucket(home, k);
      ghost var s, h := entries[..], tab;
      ghost var blank := BlankRemains(s);
      ghost var d: nat := 0;
      while true
        invariant d <= Dist(h, blank) && tab == At(h, d) && Passed(s, h, d, k)
        decreases BUCKETS - d
      {
        if entries[tab].file == k.file && entries[tab].line == k.line {
          break;
        } else if entries[tab].file == NULL {
          NotThere(s, home, k, d);
          break;
        }
        tab := tab + 1;
        if tab == BUCKETS {
          tab := 0;
        }
        d := d + 1;
      }
    }

    /** Adds a request's size to an entry. */
    method Grow(tab: nat, size: nat)
      requires tab < entries.Length
      modifies entries
      ensures entries[..] == old(entries[..])[tab := Grown(old(entries[tab]), size)]
    {
      entries[tab] := Grown(entries[tab], size);
    }

    /** _dmalloc_table_insert. */
    method Insert(k: Key, size: nat)
      requires Valid() && k.file != NULL
      modifies this, entries
      ensures Valid() && View() == TableModel.Insert(old(View()), k, size)
    {
      hide Tidy, Contents, Occupied, Filled;
      ghost var s := entries[..];
      EntriesCounted(s, home);
      var tab := Probe(k);
      if entries[tab].file == NULL {
        if count >= MEMORY_TABLE_SIZE {
          OtherFile(s, home);
          TidyOther(s, home, Grown(s[BUCKETS], size));
          Grow(BUCKETS, size);
        } else {
          BlankAt(s, home, tab);
          TidyNew(s, home, tab, Grown(BLANK.(file := k.file, line := k.line, pos := tab), size));
          entries[tab] := entries[tab].(file := k.file, line := k.line, pos := tab);
          count := count + 1;
          Grow(tab, size);
          assert entries[..] == s[tab := Grown(BLANK.(file := k.file, line := k.line, pos := tab), size)];
        }
      } else {
        Found(s, home, tab);
        TidyInPlace(s, home, tab, Grown(s[tab], size));
        Grow(tab, size);
      }
    }

    /** The search of _dmalloc_table_delete. */
    method Search(k: Key) returns (found: bool, tab: nat)
      requires Valid() && k.file != NULL
      ensures tab < BUCKETS
      ensures found <==> k in Contents(entries[..], BUCKETS)
      ensures found ==> entries[tab].file != NULL && KeyOf(entries[tab]) == k
    {
      hide Tidy, Contents, Occupied;
      var start := Bucket(home, k);
      tab := start;
      found := false;
      ghost var s, h := entries[..], tab;
      ghost var blank := BlankRemains(s);
      ghost var d: nat := 0;
      while true
        invariant d <= Dist(h, blank) && tab == At(h, d) && Passed(s, h, d, k) && !found
        decreases BUCKETS - d
      {
        if entries[tab].file == k.file && entries[tab].line == k.line {
          Found(s, home, tab);
          found := true;
          break;
        } else if entries[tab].file == NULL {
          NotThere(s, home, k, d);
          break;
        }
        tab := tab + 1;
        if tab == BUCKETS {
          tab := 0;
        }
        d := d + 1;
        if tab == start {
          break;
        }
      }
    }

    /** _dmalloc_table_delete. */
    method Delete(k: Key, size: nat)
      requires Valid() && k.file != NULL
      modifies entries
      ensures Valid() && View() == TableModel.Delete(old(View()), k, size)
    {
      hide Tidy, Contents, Occupied;
      ghost var s := entries[..];
      var found, tab := Search(k);
      if !found {
        tab := BUCKETS;
      }
      var e := entries[tab];
      var less := if e.inUseSize >= size && e.inUseC > 0
                  then e.(inUseSize := e.inUseSize - size, inUseC := e.inUseC - 1) else e;
      if found {
        Found(s, home, tab);
        TidyInPlace(s, home, tab, less);
      } else {
        OtherFile(s, home);
        TidyOther(s, home, less);
      }
      entries[tab] := less;
      assert entries[..] == s[tab := less];
    }

    /** The log lines of _dmalloc_table_log_info: the heaviest entries, and all totals added up. */
    method Report(logN: nat) returns (total: Totals, lines: seq<Entry>)
      requires entries.Length == ENTRIES && Sorted(entries[..], 0, BUCKETS - 1)
      ensures SumsUp(total, entries[..], BUCKETS, count >= MEMORY_TABLE_SIZE)
      ensures |lines| == Shown(logN, Tot(entries[..][..BUCKETS], Used))
      ensures HeaviestFirst(entries[..], BUCKETS, lines)
    {
      ghost var s := entries[..];
      total, lines := NOTHING, [];
      var tab, shown := 0, 0;
      ReportStart(s, logN);
      hide Sorted, Reporting, Added, TotalsOf;
      while tab < BUCKETS
        invariant 0 <= tab <= BUCKETS && shown >= 0 && Reporting(s, tab, shown, total, lines, logN)
      {
        ReportStep(s, tab, shown, total, lines, logN);
        if entries[tab].file != NULL {
          shown := shown + 1;
          if logN == 0 || shown < logN {
            lines := lines + [entries[tab]];
          }
          total := Added(total, TotalsOf(entries[tab]));
        }
        tab := tab + 1;
      }
      ReportDone(s, shown, total, lines, logN);
      if count >= MEMORY_TABLE_SIZE {
        total := Added(total, TotalsOf(entries[BUCKETS]));
      }
    }

    /** The loop at the end of _dmalloc_table_log_info: each entry goes back to where it belongs. */
    method Unsort(ghost orig: seq<Entry>)
      requires entries.Length == ENTRIES && Scattered(entries[..], orig)
      modifies entries
      ensures entries[..] == orig
    {
      hide Scattered;
      var tab := 0;
      while tab < BUCKETS
        invariant 0 <= tab <= BUCKETS && Scattered(entries[..], orig)
        invariant forall i :: 0 <= i < tab ==> Settled(entries[i], i)
        decreases BUCKETS - SettledCount(entries[..], BUCKETS), BUCKETS - tab
      {
        if Settled(entries[tab], tab) {
          tab := tab + 1;
          continue;
        }
        ghost var s := entries[..];
        SwapSettles(s, orig, tab);
        var p := entries[tab].pos;
        var swap := entries[p];
        entries[p] := entries[tab];
        entries[tab] := swap;
        assert entries[..] == Swapped(s, tab, p);
      }
      Restored(entries[..], orig);
    }

    /** _dmalloc_table_log_info: the table is sorted, reported and put back exactly as it was. */
    method LogInfo(logN: nat) returns (total: Totals, lines: seq<Entry>)
      requires Valid()
      modifies entries
      ensures Valid() && entries[..] == old(entries[..])
      ensures count > 0 ==>
        && (forall w :: Field(total, w) == Grand(View(), w))
        && |lines| == (if logN == 0 || count < logN then count else logN - 1)
        && forall e :: e in lines ==> e in entries[..] && e.file != NULL
      ensures forall i, j :: 0 <= i < j < |lines| ==> lines[i] != lines[j] && lines[i].totalSize >= lines[j].totalSize
      ensures forall e, f :: e in lines && f in entries[..BUCKETS] && f.file != NULL && f !in lines ==>
        e.totalSize >= f.totalSize
    {
      hide Tidy, Contents, Occupied, Grand, Field, Weight;
      ghost var s := entries[..];
      if count == 0 {
        return NOTHING, [];
      }
      PowerIsAmple();
      hide Pow2;
      Split(entries, 0, BUCKETS - 1);
      ghost var t := entries[..];
      AfterSort(s, t, home);
      total, lines := Report(logN);
      Unsort(s);
      LogsTheTable(s, t, home, total, lines, logN, count);
      LinesDiffer(s, home, lines);
      HeavierLines(s, lines);
    }
  }

  lemma {:induction false} BlankTable(s: seq<Entry>, home: Home)
    requires |s| == ENTRIES && forall i :: 0 <= i < ENTRIES ==> s[i] == BLANK
    ensures Tidy(s, home) && Contents(s, BUCKETS) == map[] && Occupied(s, BUCKETS) == 0
  {
    BlankPrefix(s, BUCKETS);
  }

  lemma {:induction false} BlankPrefix(s: seq<Entry>, n: nat)
    requires n <= |s| && forall i :: 0 <= i < |s| ==> s[i] == BLANK
    ensures Contents(s, n) == map[] && Occupied(s, n) == 0
  {
    if n > 0 { BlankPrefix(s, n - 1); }
  }

  lemma {:induction false} OtherFile(s: seq<Entry>, home: Home)
    requires Tidy(s, home)
    ensures |s| == ENTRIES && s[BUCKETS].file == NULL
  {
  }

  lemma {:induction false} BlankAt(s: seq<Entry>, home: Home, i: nat)
    requires Tidy(s, home) && i < BUCKETS && s[i].file == NULL
    ensures s[i] == BLANK
  {
  }

  lemma {:induction false} EntriesCounted(s: seq<Entry>, home: Home)
    requires Tidy(s, home)
    ensures |Contents(s, BUCKETS)| == Occupied(s, BUCKETS)
  {
    ContentsCounted(s, BUCKETS);
  }

  // ---------------------------------------------------------------- sums over the array

  datatype What = Used | Of(w: Measure)

  function Value(e: Entry, x: What): nat
  {
    if e.file == NULL then 0 else match x case Used => 1 case Of(w) => Field(TotalsOf(e), w)
  }

  function Tot(s: seq<Entry>, x: What): nat
  {
    if s == [] then 0 else Tot(s[..|s| - 1], x) + Value(s[|s| - 1], x)
  }

  lemma {:induction false} TotNext(s: seq<Entry>, n: nat, x: What)
    requires n < |s|
    ensures Tot(s[..n + 1], x) == Tot(s[..n], x) + Value(s[n], x)
  {
    assert s[..n + 1][..n] == s[..n];
  }

  lemma {:induction false} TotConcat(a: seq<Entry>, b: seq<Entry>, x: What)
    ensures Tot(a + b, x) == Tot(a, x) + Tot(b, x)
  {
    if b == [] {
      assert a + b == a;
    } else {
      assert (a + b)[..|a + b| - 1] == a + b[..|b| - 1];
      TotConcat(a, b[..|b| - 1], x);
    }
  }

  lemma {:induction false} TotWithout(s: seq<Entry>, j: nat, x: What)
    requires j < |s|
    ensures Tot(s, x) == Tot(s[..j] + s[j + 1..], x) + Value(s[j], x)
  {
    assert s == s[..j + 1] + s[j + 1..];
    TotConcat(s[..j + 1], s[j + 1..], x);
    TotNext(s, j, x);
    TotConcat(s[..j], s[j + 1..], x);
  }

  /** The order of the entries does not matter. */
  lemma {:induction false} TotOfPermutation(s: seq<Entry>, t: seq<Entry>, x: What)
    requires multiset(s) == multiset(t)
    decreases |s|
    ensures Tot(s, x) == Tot(t, x)
  {
    if s == [] {
      NoElements(t);
    } else {
      var j := FirstElement(s, t);
      TotOfPermutation(s[1..], t[..j] + t[j + 1..], x);
      TotWithout(s, 0, x);
      TotWithout(t, j, x);
      assert s[..0] + s[1..] == s[1..];
    }
  }

  /** The array holds what the map holds. */
  lemma {:induction false} TotOfContents(s: seq<Entry>, n: nat, w: Measure)
    requires |s| == ENTRIES && OneEach(s) && n <= BUCKETS
    ensures Sum(Fields(Contents(s, n), w)) == Tot(s[..n], Of(w))
    ensures Occupied(s, n) == Tot(s[..n], Used)
  {
    if n == 0 {
      assert Fields(Contents(s, 0), w) == map[];
    } else {
      TotOfContents(s, n - 1, w);
      TotNext(s, n - 1, Of(w));
      TotNext(s, n - 1, Used);
      if s[n - 1].file != NULL {
        NewKey(s, n - 1);
        GrandUpdate(Contents(s, n - 1), KeyOf(s[n - 1]), TotalsOf(s[n - 1]), w);
      }
    }
  }

  lemma {:induction false} NewKey(s: seq<Entry>, n: nat)
    requires |s| == ENTRIES && OneEach(s) && n < BUCKETS && s[n].file != NULL
    ensures KeyOf(s[n]) !in Contents(s, n)
  {
    ContentsAt(s, n);
  }

  // ---------------------------------------------------------------- the log

  function Added(t: Totals, u: Totals): Totals
  {
    Totals(t.size + u.size, t.count + u.count, t.inUse + u.inUse, t.inUseC + u.inUseC)
  }

  lemma {:induction false} AddedField(t: Totals, e: Entry, w: Measure)
    requires e.file != NULL
    ensures Field(Added(t, TotalsOf(e)), w) == Field(t, w) + Value(e, Of(w))
    ensures Value(e, Of(w)) == Field(TotalsOf(e), w)
  {
  }

  /** The total is the sum of the first n entries, and of the overflow bucket. */
  ghost predicate SumsUp(total: Totals, s: seq<Entry>, n: nat, withOther: bool)
    requires n <= BUCKETS && |s| == ENTRIES
  {
    forall w ::
      Field(total, w) == Tot(s[..n], Of(w)) + (if withOther then Field(TotalsOf(s[BUCKETS]), w) else 0)
  }

  lemma {:induction false} SumsNext(total: Totals, s: seq<Entry>, n: nat)
    requires n < BUCKETS && |s| == ENTRIES && SumsUp(total, s, n, false)
    ensures SumsUp(if s[n].file == NULL then total else Added(total, TotalsOf(s[n])), s, n + 1, false)
  {
    var more := if s[n].file == NULL then total else Added(total, TotalsOf(s[n]));
    forall w ensures Field(more, w) == Tot(s[..n + 1], Of(w)) {
      TotNext(s, n, Of(w));
      if s[n].file != NULL { AddedField(total, s[n], w); }
    }
  }

  lemma {:induction false} SumsWithOther(total: Totals, s: seq<Entry>)
    requires |s| == ENTRIES && SumsUp(total, s, BUCKETS, false)
    ensures SumsUp(Added(total, TotalsOf(s[BUCKETS])), s, BUCKETS, true)
  {
    forall w ensures Field(Added(total, TotalsOf(s[BUCKETS])), w) == Field(total, w) + Field(TotalsOf(s[BUCKETS]), w) {}
  }

  /** How many of n entries are logged: all if no number was given, else one less than the number. */
  function Shown(logN: nat, n: nat): nat
  {
    if logN == 0 || n < logN then n else logN - 1
  }

  /** The lines are used entries among the first n, heaviest first, and no lighter than the rest. */
  predicate HeaviestFirst(s: seq<Entry>, n: nat, lines: seq<Entry>)
    requires n <= |s|
  {
    && (forall i, j :: 0 <= i < j < |lines| ==> EntryCmp(lines[i], lines[j]) <= 0)
    && (forall i :: 0 <= i < |lines| ==> lines[i].file != NULL && lines[i] in s[..n])
    && multiset(lines) <= multiset(s[..n])
    && (forall i, k :: 0 <= i < |lines| && 0 <= k < n && s[k].file != NULL && s[k] !in lines ==>
          EntryCmp(lines[i], s[k]) <= 0)
    && (forall k :: 0 <= k < n && s[k].file != NULL && s[k] !in lines ==> |lines| < Tot(s[..n], Used))
  }

  lemma {:induction false} BlankLine(s: seq<Entry>, n: nat, lines: seq<Entry>)
    requires n < |s| && s[n].file == NULL && HeaviestFirst(s, n, lines)
    ensures HeaviestFirst(s, n + 1, lines)
  {
    TotNext(s, n, Used);
    PrefixGrows(s, n);
    hide EntryCmp, Tot;
  }

  lemma {:induction false} PrefixGrows(s: seq<Entry>, n: nat)
    requires n < |s|
    ensures multiset(s[..n]) <= multiset(s[..n + 1]) && forall e :: e in s[..n] ==> e in s[..n + 1]
  {
    assert s[..n + 1] == s[..n] + [s[n]];
  }

  lemma {:induction false} NoLines(s: seq<Entry>)
    ensures HeaviestFirst(s, 0, [])
  {
  }

  lemma {:induction false} HeavierBefore(s: seq<Entry>, n: nat, lines: seq<Entry>)
    requires n < BUCKETS <= |s| && Sorted(s, 0, BUCKETS - 1)
    requires forall i :: 0 <= i < |lines| ==> lines[i] in s[..n]
    ensures forall i :: 0 <= i < |lines| ==> EntryCmp(lines[i], s[n]) <= 0
  {
    forall i | 0 <= i < |lines| ensures EntryCmp(lines[i], s[n]) <= 0 {
      var before := s[..n];
      assert lines[i] in before;
      var k :| 0 <= k < |before| && before[k] == lines[i];
      assert EntryCmp(s[k], s[n]) <= 0;
    }
  }

  lemma {:induction false} LineAdded(s: seq<Entry>, n: nat, lines: seq<Entry>)
    requires n < |s| && s[n].file != NULL && HeaviestFirst(s, n, lines) && |lines| == Tot(s[..n], Used)
    requires forall i :: 0 <= i < |lines| ==> EntryCmp(lines[i], s[n]) <= 0
    ensures HeaviestFirst(s, n + 1, lines + [s[n]])
  {
    hide EntryCmp, Tot;
    LineIsThere(s, n, lines);
    AllLogged(s, n, lines);
  }

  lemma {:induction false} LineIsThere(s: seq<Entry>, n: nat, lines: seq<Entry>)
    requires n < |s| && s[n].file != NULL && multiset(lines) <= multiset(s[..n])
    requires forall i :: 0 <= i < |lines| ==> lines[i].file != NULL && lines[i] in s[..n]
    ensures multiset(lines + [s[n]]) <= multiset(s[..n + 1])
    ensures forall i :: 0 <= i <= |lines| ==>
      (lines + [s[n]])[i].file != NULL && (lines + [s[n]])[i] in s[..n + 1]
  {
    assert s[..n + 1] == s[..n] + [s[n]];
  }

  /** When every used entry so far is a line, so it is with the next one. */
  lemma {:induction false} AllLogged(s: seq<Entry>, n: nat, lines: seq<Entry>)
    requires n < |s| && s[n].file != NULL && HeaviestFirst(s, n, lines) && |lines| == Tot(s[..n], Used)
    ensures forall k :: 0 <= k < n + 1 && s[k].file != NULL ==> s[k] in lines + [s[n]]
  {
    hide EntryCmp, Tot;
    forall k | 0 <= k < n + 1 && s[k].file != NULL ensures s[k] in lines + [s[n]] {
      if k < n { assert s[k] in lines; }
    }
  }

  lemma {:induction false} LineSkipped(s: seq<Entry>, n: nat, lines: seq<Entry>)
    requires n < |s| && s[n].file != NULL && HeaviestFirst(s, n, lines) && |lines| < Tot(s[..n + 1], Used)
    requires forall i :: 0 <= i < |lines| ==> EntryCmp(lines[i], s[n]) <= 0
    ensures HeaviestFirst(s, n + 1, lines)
  {
    hide EntryCmp, Tot;
    PrefixGrows(s, n);
  }

  lemma {:induction false} OneMoreLine(s: seq<Entry>, n: nat, lines: seq<Entry>, logN: nat, shown: nat)
    requires n < BUCKETS && |s| == ENTRIES && s[n].file != NULL && HeaviestFirst(s, n, lines)
      && Sorted(s, 0, BUCKETS - 1)
    requires shown == Tot(s[..n], Used) + 1 && |lines| == Shown(logN, shown - 1)
    ensures HeaviestFirst(s, n + 1, if logN == 0 || shown < logN then lines + [s[n]] else lines)
  {
    HeavierBefore(s, n, lines);
    TotNext(s, n, Used);
    hide HeaviestFirst, EntryCmp, Tot;
    if logN == 0 || shown < logN { LineAdded(s, n, lines); } else { LineSkipped(s, n, lines); }
  }

  /** The first n entries have been reported. */
  ghost predicate Reporting(s: seq<Entry>, n: nat, shown: nat, total: Totals, lines: seq<Entry>, logN: nat)
    requires n <= BUCKETS && |s| == ENTRIES
  {
    && shown == Tot(s[..n], Used) && SumsUp(total, s, n, false)
    && |lines| == Shown(logN, shown) && HeaviestFirst(s, n, lines)
  }

  lemma {:induction false} ReportStart(s: seq<Entry>, logN: nat)
    requires |s| == ENTRIES
    ensures Reporting(s, 0, 0, NOTHING, [], logN)
  {
    NoLines(s);
  }

  lemma {:induction false} ReportStep(s: seq<Entry>, n: nat, shown: nat, total: Totals, lines: seq<Entry>, logN: nat)
    requires n < BUCKETS && |s| == ENTRIES && Sorted(s, 0, BUCKETS - 1) && Reporting(s, n, shown, total, lines, logN)
    ensures if s[n].file == NULL then Reporting(s, n + 1, shown, total, lines, logN)
      else Reporting(s, n + 1, shown + 1, Added(total, TotalsOf(s[n])),
                     if logN == 0 || shown + 1 < logN then lines + [s[n]] else lines, logN)
  {
    hide SumsUp, HeaviestFirst, Sorted, Tot;
    TotNext(s, n, Used);
    SumsNext(total, s, n);
    if s[n].file == NULL { BlankLine(s, n, lines); } else { OneMoreLine(s, n, lines, logN, shown + 1); }
  }

  lemma {:induction false} ReportDone(s: seq<Entry>, shown: nat, total: Totals, lines: seq<Entry>, logN: nat)
    requires |s| == ENTRIES && Reporting(s, BUCKETS, shown, total, lines, logN)
    ensures SumsUp(total, s, BUCKETS, false) && SumsUp(Added(total, TotalsOf(s[BUCKETS])), s, BUCKETS, true)
    ensures |lines| == Shown(logN, Tot(s[..BUCKETS], Used)) && HeaviestFirst(s, BUCKETS, lines)
  {
    SumsWithOther(total, s);
  }

  // ---------------------------------------------------------------- putting the entries back

  /** Blank, or where it belongs. */
  predicate Settled(e: Entry, i: int) {
    e.file == NULL || e.pos == i
  }

  predicate PlacesApart(s: seq<Entry>)
    requires |s| == ENTRIES
  {
    forall i, j :: 0 <= i < BUCKETS && 0 <= j < BUCKETS && i != j && s[i].file != NULL && s[j].file != NULL ==>
      s[i].pos != s[j].pos
  }

  predicate Belongs(e: Entry, orig: seq<Entry>)
    requires |orig| == ENTRIES
  {
    if e.file == NULL then e == BLANK else e.pos < BUCKETS && e == orig[e.pos]
  }

  predicate IsThere(s: seq<Entry>, e: Entry)
    requires |s| == ENTRIES
  {
    exists i :: 0 <= i < BUCKETS && s[i] == e
  }

  /** The entries of orig, each exactly once, in any order. */
  ghost predicate Scattered(s: seq<Entry>, orig: seq<Entry>) {
    && |s| == |orig| == ENTRIES && s[BUCKETS] == orig[BUCKETS]
    && (forall p :: 0 <= p < BUCKETS && orig[p].file == NULL ==> orig[p] == BLANK)
    && (forall p :: 0 <= p < BUCKETS && orig[p].file != NULL ==> orig[p].pos == p && IsThere(s, orig[p]))
    && (forall i :: 0 <= i < BUCKETS ==> Belongs(s[i], orig))
    && PlacesApart(s)
  }

  lemma {:induction false} Restored(s: seq<Entry>, orig: seq<Entry>)
    requires Scattered(s, orig) && forall i :: 0 <= i < BUCKETS ==> Settled(s[i], i)
    ensures s == orig
  {
    forall p | 0 <= p < BUCKETS ensures s[p] == orig[p] {
      assert Belongs(s[p], orig) && Settled(s[p], p);
      if orig[p].file != NULL {
        assert IsThere(s, orig[p]);
        var i :| 0 <= i < BUCKETS && s[i] == orig[p];
        assert Settled(s[i], i);
      }
    }
  }

  function SettledCount(s: seq<Entry>, n: nat): (c: nat)
    requires n <= |s|
    ensures c <= n
  {
    if n == 0 then 0
    else SettledCount(s, n - 1) + if s[n - 1].file != NULL && s[n - 1].pos == n - 1 then 1 else 0
  }

  lemma {:induction false} SettledUpdate(s: seq<Entry>, n: nat, i: nat, e: Entry)
    requires i < |s| && n <= |s|
    ensures SettledCount(s[i := e], n) == SettledCount(s, n) +
      if i < n then
        (if e.file != NULL && e.pos == i then 1 else 0) - (if s[i].file != NULL && s[i].pos == i then 1 else 0)
      else 0
  {
    if n > 0 { SettledUpdate(s, n - 1, i, e); }
  }

  lemma {:induction false} SwapScatters(s: seq<Entry>, orig: seq<Entry>, tab: nat, p: nat)
    requires Scattered(s, orig) && tab < BUCKETS && p < BUCKETS
    ensures Scattered(Swapped(s, tab, p), orig)
  {
    var t := Swapped(s, tab, p);
    assert PlacesApart(t) by { SwapApart(s, tab, p); }
    hide PlacesApart, Belongs;
    forall q | 0 <= q < BUCKETS && orig[q].file != NULL ensures IsThere(t, orig[q]) {
      assert IsThere(s, orig[q]);
      var i :| 0 <= i < BUCKETS && s[i] == orig[q];
      assert t[if i == tab then p else if i == p then tab else i] == orig[q];
    }
  }

  lemma {:induction false} SwapApart(s: seq<Entry>, tab: nat, p: nat)
    requires |s| == ENTRIES && tab < BUCKETS && p < BUCKETS && PlacesApart(s)
    ensures PlacesApart(Swapped(s, tab, p))
  {
    var t := Swapped(s, tab, p);
    forall i, j | 0 <= i < BUCKETS && 0 <= j < BUCKETS && i != j && t[i].file != NULL && t[j].file != NULL
      ensures t[i].pos != t[j].pos
    {
      var i0 := if i == tab then p else if i == p then tab else i;
      var j0 := if j == tab then p else if j == p then tab else j;
      assert t[i] == s[i0] && t[j] == s[j0];
    }
  }

  /** Each swap puts one entry where it belongs, for good. */
  lemma {:induction false} SwapSettles(s: seq<Entry>, orig: seq<Entry>, tab: nat)
    requires Scattered(s, orig) && tab < BUCKETS && !Settled(s[tab], tab)
    requires forall i :: 0 <= i < tab ==> Settled(s[i], i)
    ensures |s| == ENTRIES && s[tab].pos < BUCKETS && s[tab].pos != tab
    ensures var t := Swapped(s, tab, s[tab].pos);
      && Scattered(t, orig) && SettledCount(t, BUCKETS) > SettledCount(s, BUCKETS)
      && forall i :: 0 <= i < tab ==> Settled(t[i], i)
  {
    var p := s[tab].pos;
    SwapScatters(s, orig, tab, p);
    SettledUpdate(s, BUCKETS, tab, s[p]);
    SettledUpdate(s[tab := s[p]], BUCKETS, p, s[tab]);
    assert Belongs(s[tab], orig);
    assert s[p].file != NULL ==> s[p].pos != p;
  }

  lemma {:induction false} OnceIn(m: seq<Entry>, i: nat)
    requires i < |m| && forall k :: 0 <= k < |m| && k != i ==> m[k] != m[i]
    ensures multiset(m)[m[i]] == 1
  {
    assert m == m[..i] + [m[i]] + m[i + 1..];
    assert m[i] !in m[..i] && m[i] !in m[i + 1..];
  }

  lemma {:induction false} TwiceIn(m: seq<Entry>, i: nat, j: nat)
    requires i < j < |m| && m[i] == m[j]
    ensures multiset(m)[m[i]] >= 2
  {
    assert m == m[..i] + [m[i]] + m[i + 1..j] + [m[j]] + m[j + 1..];
  }

  lemma {:induction false} AfterSort(s: seq<Entry>, t: seq<Entry>, home: Home)
    requires Tidy(s, home) && Rearranged(s, t, 0, BUCKETS - 1)
    ensures Scattered(t, s)
  {
    forall i | 0 <= i < BUCKETS ensures Belongs(t[i], s) {
      var k := CameFrom(s, t, 0, BUCKETS - 1, i);
    }
    forall i, j | 0 <= i < BUCKETS && 0 <= j < BUCKETS && i != j && t[i].file != NULL && t[j].file != NULL
      ensures t[i].pos != t[j].pos
    {
      assert Belongs(t[i], s) && Belongs(t[j], s);
      if t[i].pos == t[j].pos {
        TwiceIn(t[0..BUCKETS], if i < j then i else j, if i < j then j else i);
        var p := t[i].pos;
        assert s[0..BUCKETS][p] == s[p];
        OnceIn(s[0..BUCKETS], p);
      }
    }
    forall p | 0 <= p < BUCKETS && s[p].file != NULL ensures IsThere(t, s[p]) {
      var i := CameFrom(t, s, 0, BUCKETS - 1, p);
    }
  }

  lemma {:induction false} PowerIsAmple()
    ensures BUCKETS < Pow2(MAX_QSORT_SPLITS)
  {
    PowerGrows(13, MAX_QSORT_SPLITS);
    assert Pow2(13) == 8 * Pow2(10) && Pow2(10) == 8 * Pow2(7) && Pow2(7) == 8 * Pow2(4) && Pow2(4) == 8 * Pow2(1);
  }

  lemma {:induction false} PowerGrows(c: nat, d: nat)
    requires c <= d
    ensures Pow2(c) <= Pow2(d)
  {
    if c < d { PowerGrows(c, d - 1); }
  }

  /** The report of the sorted array is a report of the table. */
  /** No entry is logged twice. */
  lemma {:induction false} LinesDiffer(s: seq<Entry>, home: Home, lines: seq<Entry>)
    requires Tidy(s, home) && multiset(lines) <= multiset(s[..BUCKETS]) && forall e :: e in lines ==> e.file != NULL
    ensures forall i, j :: 0 <= i < j < |lines| ==> lines[i] != lines[j]
  {
    forall i, j | 0 <= i < j < |lines| ensures lines[i] != lines[j] {
      if lines[i] == lines[j] {
        assert lines == lines[..i] + [lines[i]] + lines[i + 1..j] + [lines[j]] + lines[j + 1..];
        assert multiset(s[..BUCKETS])[lines[i]] >= multiset(lines)[lines[i]] >= 2;
        OnceInTable(s, home, lines[i]);
        assert false;
      }
    }
  }

  lemma {:induction false} OnceInTable(s: seq<Entry>, home: Home, e: Entry)
    requires Tidy(s, home) && e.file != NULL
    ensures multiset(s[..BUCKETS])[e] <= 1
  {
    if e in s[..BUCKETS] {
      var k :| 0 <= k < BUCKETS && s[k] == e;
      assert s[..BUCKETS] == s[..k] + [e] + s[k + 1..BUCKETS];
      forall l | 0 <= l < BUCKETS && l != k ensures s[l] != e {
        assert k < l ==> s[l].file == NULL || KeyOf(s[k]) != KeyOf(s[l]);
      }
      assert e !in s[..k] && e !in s[k + 1..BUCKETS];
    }
  }

  lemma {:induction false} HeavierLines(s: seq<Entry>, lines: seq<Entry>)
    requires forall e :: e in lines ==> e.file != NULL
    requires forall i, j :: 0 <= i < j < |lines| ==> EntryCmp(lines[i], lines[j]) <= 0
    ensures forall i, j :: 0 <= i < j < |lines| ==> lines[i].totalSize >= lines[j].totalSize
    ensures forall e: Entry, f: Entry :: e.file != NULL && f.file != NULL && EntryCmp(e, f) <= 0 ==>
      e.totalSize >= f.totalSize
  {
  }

  lemma {:induction false} LogsTheTable(s: seq<Entry>, t: seq<Entry>, home: Home, total: Totals, lines: seq<Entry>,
                                        logN: nat, count: nat)
    requires Tidy(s, home) && Rearranged(s, t, 0, BUCKETS - 1) && count == Occupied(s, BUCKETS)
    requires count < MEMORY_TABLE_SIZE ==> TotalsOf(s[BUCKETS]) == NOTHING
    requires SumsUp(total, t, BUCKETS, count >= MEMORY_TABLE_SIZE)
    requires |lines| == Shown(logN, Tot(t[..BUCKETS], Used)) && HeaviestFirst(t, BUCKETS, lines)
    ensures forall w :: Field(total, w) == Grand(Table(Contents(s, BUCKETS), TotalsOf(s[BUCKETS])), w)
    ensures |lines| == Shown(logN, count)
    ensures forall e :: e in lines ==> e in s && e.file != NULL
    ensures forall e, f :: e in lines && f in s[..BUCKETS] && f.file != NULL && f !in lines ==> EntryCmp(e, f) <= 0
    ensures multiset(lines) <= multiset(s[..BUCKETS])
  {
    TotalsOfTable(s, t, home, total, count);
    LinesOfTable(s, t, lines);
    assert Tot(t[..BUCKETS], Used) == count by {
      assert s[0..BUCKETS] == s[..BUCKETS] && t[0..BUCKETS] == t[..BUCKETS];
      TotOfPermutation(s[..BUCKETS], t[..BUCKETS], Used);
      TotOfContents(s, BUCKETS, Size);
    }
  }

  lemma {:induction false} TotalsOfTable(s: seq<Entry>, t: seq<Entry>, home: Home, total: Totals, count: nat)
    requires Tidy(s, home) && Rearranged(s, t, 0, BUCKETS - 1) && count == Occupied(s, BUCKETS)
    requires count < MEMORY_TABLE_SIZE ==> TotalsOf(s[BUCKETS]) == NOTHING
    requires SumsUp(total, t, BUCKETS, count >= MEMORY_TABLE_SIZE)
    ensures forall w :: Field(total, w) == Grand(Table(Contents(s, BUCKETS), TotalsOf(s[BUCKETS])), w)
  {
    assert s[0..BUCKETS] == s[..BUCKETS] && t[0..BUCKETS] == t[..BUCKETS];
    forall w ensures Field(total, w) == Grand(Table(Contents(s, BUCKETS), TotalsOf(s[BUCKETS])), w) {
      TotOfPermutation(s[..BUCKETS], t[..BUCKETS], Of(w));
      TotOfContents(s, BUCKETS, w);
    }
  }

  lemma {:induction false} LinesOfTable(s: seq<Entry>, t: seq<Entry>, lines: seq<Entry>)
    requires |s| == ENTRIES && Rearranged(s, t, 0, BUCKETS - 1) && HeaviestFirst(t, BUCKETS, lines)
    ensures multiset(lines) <= multiset(s[..BUCKETS])
    ensures forall e :: e in lines ==> e in s && e.file != NULL
    ensures forall e, f :: e in lines && f in s[..BUCKETS] && f.file != NULL && f !in lines ==> EntryCmp(e, f) <= 0
  {
    assert s[0..BUCKETS] == s[..BUCKETS] && t[0..BUCKETS] == t[..BUCKETS];
    hide Tot, EntryCmp;
    forall e | e in lines ensures e in s && e.file != NULL {
      assert e in t[..BUCKETS];
      var k :| 0 <= k < BUCKETS && t[k] == e;
      var j := CameFrom(s, t, 0, BUCKETS - 1, k);
    }
    forall e, f | e in lines && f in s[..BUCKETS] && f.file != NULL && f !in lines ensures EntryCmp(e, f) <= 0 {
      var k :| 0 <= k < BUCKETS && s[k] == f;
      var j := CameFrom(t, s, 0, BUCKETS - 1, k);
    }
  }

  /** A run of the program: the array ends up standing for what the map model says. */
  method Replay(home: Home, ops: seq<Op>) returns (t: MemTable)
    requires forall i :: 0 <= i < |ops| ==> ops[i].key.file != NULL
    ensures t.Valid() && t.View() == Run(ops) && fresh(t) && fresh(t.entries)
  {
    hide Tidy, Contents, Occupied;
    t := new MemTable(home);
    var i := 0;
    while i < |ops|
      invariant 0 <= i <= |ops| && t.Valid() && t.View() == Run(ops[..i])
      invariant fresh(t) && fresh(t.entries)
    {
      assert ops[..i + 1][..i] == ops[..i];
      match ops[i] {
        case Alloc(k, size) => t.Insert(k, size);
        case Release(k, size) => t.Delete(k, size);
      }
      i := i + 1;
    }
    assert ops[..i] == ops;
  }
}
