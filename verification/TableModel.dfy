/** The memory table as a map: four totals for each of the first MEMORY_TABLE_SIZE places that
    allocate, and one more set of totals for all other places together. */
module TableModel {
  import opened Arithmetic
  import opened Sums

  const MEMORY_TABLE_SIZE: nat := 4096

  datatype Key = Key(file: nat, line: nat)

  datatype Totals = Totals(size: nat, count: nat, inUse: nat, inUseC: nat)

  const NOTHING: Totals := Totals(0, 0, 0, 0)

  datatype Table = Table(entries: map<Key, Totals>, other: Totals)

  const EMPTY: Table := Table(map[], NOTHING)

  function Plus(t: Totals, size: nat): Totals
  {
    Totals(t.size + size, t.count + 1, t.inUse + size, t.inUseC + 1)
  }

  function Minus(t: Totals, size: nat): Totals
  {
    if t.inUse >= size && t.inUseC > 0 then t.(inUse := t.inUse - size, inUseC := t.inUseC - 1) else t
  }

  function Insert(t: Table, k: Key, size: nat): Table
  {
    if k in t.entries then t.(entries := t.entries[k := Plus(t.entries[k], size)])
    else if |t.entries| >= MEMORY_TABLE_SIZE then t.(other := Plus(t.other, size))
    else t.(entries := t.entries[k := Plus(NOTHING, size)])
  }

  function Delete(t: Table, k: Key, size: nat): Table
  {
    if k in t.entries then t.(entries := t.entries[k := Minus(t.entries[k], size)])
    else t.(other := Minus(t.other, size))
  }

  datatype Op = Alloc(key: Key, size: nat) | Release(key: Key, size: nat)

  function Step(t: Table, op: Op): Table
  {
    match op
    case Alloc(k, size) => Insert(t, k, size)
    case Release(k, size) => Delete(t, k, size)
  }

  function Run(ops: seq<Op>): Table
  {
    if ops == [] then EMPTY else Step(Run(ops[..|ops| - 1]), ops[|ops| - 1])
  }

  // ---------------------------------------------------------------- the ledger: what really happened

  /** How often a place allocated and released blocks of a size. */
  datatype Tally = Tally(allocs: nat, releases: nat)

  type Ledger = map<(Key, nat), Tally>

  function Line(l: Ledger, k: Key, size: nat): Tally
  {
    if (k, size) in l then l[(k, size)] else Tally(0, 0)
  }

  function Entered(l: Ledger, op: Op): Ledger
  {
    var t := Line(l, op.key, op.size);
    l[(op.key, op.size) := if op.Alloc? then t.(allocs := t.allocs + 1) else t.(releases := t.releases + 1)]
  }

  function History(ops: seq<Op>): Ledger
  {
    if ops == [] then map[] else Entered(History(ops[..|ops| - 1]), ops[|ops| - 1])
  }

  /** Every release is of a block that its place allocated and has not released yet. */
  predicate Matched(ops: seq<Op>)
  {
    ops == [] ||
    (var op, before := ops[|ops| - 1], ops[..|ops| - 1];
     Matched(before) && (op.Release? ==> var t := Line(History(before), op.key, op.size); t.allocs > t.releases))
  }

  datatype Measure = Size | Count | InUse | InUseCount

  function Field(t: Totals, w: Measure): nat
  {
    match w
    case Size => t.size
    case Count => t.count
    case InUse => t.inUse
    case InUseCount => t.inUseC
  }

  function Worth(p: (Key, nat), t: Tally, w: Measure): int
  {
    match w
    case Size => t.allocs * p.1
    case Count => t.allocs
    case InUse => (t.allocs - t.releases) * p.1
    case InUseCount => t.allocs - t.releases
  }

  /** The ledger lines of the places in `keys`, or of all others. */
  function Lines(l: Ledger, keys: set<Key>, inside: bool, w: Measure): map<(Key, nat), int>
  {
    map p | p in l && (p.0 in keys) == inside :: Worth(p, l[p], w)
  }

  ghost function Part(l: Ledger, keys: set<Key>, inside: bool, w: Measure): int
  {
    Sum(Lines(l, keys, inside, w))
  }

  /** The table says what the ledger says. */
  ghost predicate Exact(t: Table, l: Ledger, w: Measure) {
    && (forall k :: k in t.entries ==> Field(t.entries[k], w) == Part(l, {k}, true, w))
    && Field(t.other, w) == Part(l, t.entries.Keys, false, w)
  }

  /** As long as there is room, every place that ever allocated is in the table. */
  ghost predicate AllKnown(t: Table, l: Ledger) {
    |t.entries| < MEMORY_TABLE_SIZE ==> forall p :: p in l && l[p].allocs > 0 ==> p.0 in t.entries
  }

  lemma {:induction false} PartEntered(l: Ledger, p: (Key, nat), t: Tally, keys: set<Key>, inside: bool, w: Measure)
    ensures Part(l[p := t], keys, inside, w) == Part(l, keys, inside, w)
      + if (p.0 in keys) == inside then Worth(p, t, w) - Worth(p, Line(l, p.0, p.1), w) else 0
  {
    var was, now := Lines(l, keys, inside, w), Lines(l[p := t], keys, inside, w);
    if (p.0 in keys) == inside {
      assert now == was[p := Worth(p, t, w)];
      SumUpdate(was, p, Worth(p, t, w));
    } else {
      assert now == was;
    }
  }

  lemma {:induction false} NothingPart(l: Ledger, keys: set<Key>, inside: bool, w: Measure)
    requires forall p :: p in l && (p.0 in keys) == inside ==> Worth(p, l[p], w) == 0
    ensures Part(l, keys, inside, w) == 0
  {
    AllZero(Lines(l, keys, inside, w));
  }

  lemma {:induction false} AllZero<K>(m: map<K, int>)
    requires forall k :: k in m ==> m[k] == 0
    decreases |m|
    ensures Sum(m) == 0
  {
    if m.Keys != {} {
      var k := SumStep(m);
      AllZero(m - {k});
    }
  }

  /** What one place adds to the measure with one operation. */
  function Change(op: Op, w: Measure): int
  {
    match w
    case Size => if op.Alloc? then op.size else 0
    case Count => if op.Alloc? then 1 else 0
    case InUse => if op.Alloc? then op.size else 0 - op.size
    case InUseCount => if op.Alloc? then 1 else -1
  }

  lemma {:induction false} WorthChanges(l: Ledger, op: Op, w: Measure)
    ensures var p := (op.key, op.size);
      Worth(p, Entered(l, op)[p], w) == Worth(p, Line(l, op.key, op.size), w) + Change(op, w)
  {
  }

  lemma {:induction false} PartChanges(l: Ledger, op: Op, keys: set<Key>, inside: bool, w: Measure)
    ensures Part(Entered(l, op), keys, inside, w) == Part(l, keys, inside, w)
      + if (op.key in keys) == inside then Change(op, w) else 0
  {
    hide Part, Worth, Change;
    WorthChanges(l, op, w);
    PartEntered(l, (op.key, op.size), Entered(l, op)[(op.key, op.size)], keys, inside, w);
  }

  lemma {:induction false} PlusField(t: Totals, op: Op, w: Measure)
    requires op.Alloc?
    ensures Field(Plus(t, op.size), w) == Field(t, w) + Change(op, w)
  {
  }

  /** Releases are only entered for places that allocated. */
  ghost predicate NoDebts(l: Ledger) {
    forall p :: p in l ==> l[p].releases <= l[p].allocs
  }

  lemma {:induction false} AllocKeeps(t: Table, l: Ledger, op: Op, w: Measure)
    requires op.Alloc? && Exact(t, l, w) && AllKnown(t, l) && NoDebtsIf(l, w)
    ensures Exact(Insert(t, op.key, op.size), Entered(l, op), w)
  {
    hide Part, Change, Field;
    var l' := Entered(l, op);
    PartChanges(l, op, {op.key}, true, w);
    forall k | k in t.entries
      ensures Part(l', {k}, true, w) == Part(l, {k}, true, w) + if k == op.key then Change(op, w) else 0
    {
      PartChanges(l, op, {k}, true, w);
    }
    if op.key in t.entries {
      PlusField(t.entries[op.key], op, w);
      PartChanges(l, op, t.entries.Keys, false, w);
      assert Insert(t, op.key, op.size).entries.Keys == t.entries.Keys;
    } else if |t.entries| >= MEMORY_TABLE_SIZE {
      PlusField(t.other, op, w);
      PartChanges(l, op, t.entries.Keys, false, w);
    } else {
      NewPlace(t, l, op, w);
    }
  }

  ghost predicate NoDebtsIf(l: Ledger, w: Measure) {
    w.InUse? || w.InUseCount? ==> NoDebts(l)
  }

  lemma {:induction false} NewPlace(t: Table, l: Ledger, op: Op, w: Measure)
    requires op.Alloc? && Exact(t, l, w) && AllKnown(t, l) && NoDebtsIf(l, w)
    requires op.key !in t.entries && |t.entries| < MEMORY_TABLE_SIZE
    ensures var t' := Insert(t, op.key, op.size); var l' := Entered(l, op);
      && Field(t'.entries[op.key], w) == Part(l', {op.key}, true, w)
      && Field(t'.other, w) == Part(l', t'.entries.Keys, false, w)
  {
    hide Part, Change;
    var keys := Insert(t, op.key, op.size).entries.Keys;
    assert keys == t.entries.Keys + {op.key};
    forall p | p in l && p.0 !in t.entries ensures Worth(p, l[p], w) == 0 {
      assert l[p].allocs == 0;
    }
    NothingPart(l, {op.key}, true, w);
    NothingPart(l, keys, false, w);
    NothingPart(l, t.entries.Keys, false, w);
    PartChanges(l, op, {op.key}, true, w);
    PartChanges(l, op, keys, false, w);
    PlusField(NOTHING, op, w);
  }

  lemma {:induction false} KnownKeeps(t: Table, l: Ledger, op: Op)
    requires AllKnown(t, l)
    ensures AllKnown(Step(t, op), Entered(l, op))
  {
    assert t.entries.Keys <= Step(t, op).entries.Keys;
    assert op.Alloc? && op.key !in t.entries && |t.entries| < MEMORY_TABLE_SIZE
      ==> Step(t, op).entries.Keys == t.entries.Keys + {op.key};
    assert op.key in t.entries ==> Step(t, op).entries.Keys == t.entries.Keys;
    assert op.Release? ==> Step(t, op).entries.Keys == t.entries.Keys;
    if |Step(t, op).entries| < MEMORY_TABLE_SIZE {
      assert |t.entries.Keys| <= |Step(t, op).entries.Keys|;
    }
  }

  /** A release leaves the all-time totals alone. */
  lemma {:induction false} ReleaseKeepsTotals(t: Table, l: Ledger, op: Op, w: Measure)
    requires op.Release? && (w.Size? || w.Count?) && Exact(t, l, w)
    ensures Exact(Delete(t, op.key, op.size), Entered(l, op), w)
  {
    hide Part;
    forall k | k in t.entries ensures Part(Entered(l, op), {k}, true, w) == Part(l, {k}, true, w) {
      PartChanges(l, op, {k}, true, w);
    }
    PartChanges(l, op, t.entries.Keys, false, w);
    assert Delete(t, op.key, op.size).entries.Keys == t.entries.Keys;
  }

  lemma {:induction false} PartAtLeast(l: Ledger, p: (Key, nat), keys: set<Key>, inside: bool, w: Measure)
    requires NoDebts(l) && p in l && (p.0 in keys) == inside
    ensures Part(l, keys, inside, w) >= Worth(p, l[p], w)
  {
    var m := Lines(l, keys, inside, w);
    forall q | q in l ensures Worth(q, l[q], w) >= 0 {}
    SumWithout(m, p);
    SumNonNegative(m - {p});
  }

  /** A release of an outstanding block finds at least its bytes in use. */
  lemma {:induction false} ReleaseFits(l: Ledger, op: Op, keys: set<Key>, inside: bool)
    requires NoDebts(l) && op.Release? && (op.key in keys) == inside
    requires var t := Line(l, op.key, op.size); t.allocs > t.releases
    ensures Part(l, keys, inside, InUse) >= op.size && Part(l, keys, inside, InUseCount) > 0
  {
    hide Part;
    var p := (op.key, op.size);
    PartAtLeast(l, p, keys, inside, InUse);
    PartAtLeast(l, p, keys, inside, InUseCount);
    TimesAtLeast(l[p].allocs - l[p].releases, op.size);
  }

  lemma {:induction false} ReleaseKeepsInUse(t: Table, l: Ledger, op: Op)
    requires op.Release? && Exact(t, l, InUse) && Exact(t, l, InUseCount) && NoDebts(l)
    requires var t := Line(l, op.key, op.size); t.allocs > t.releases
    ensures Exact(Delete(t, op.key, op.size), Entered(l, op), InUse)
    ensures Exact(Delete(t, op.key, op.size), Entered(l, op), InUseCount)
  {
    hide Part;
    var l', t' := Entered(l, op), Delete(t, op.key, op.size);
    assert t'.entries.Keys == t.entries.Keys;
    forall k | k in t.entries
      ensures Field(t'.entries[k], InUse) == Part(l', {k}, true, InUse)
      ensures Field(t'.entries[k], InUseCount) == Part(l', {k}, true, InUseCount)
    {
      PartChanges(l, op, {k}, true, InUse);
      PartChanges(l, op, {k}, true, InUseCount);
      if k == op.key { ReleaseFits(l, op, {k}, true); }
    }
    PartChanges(l, op, t.entries.Keys, false, InUse);
    PartChanges(l, op, t.entries.Keys, false, InUseCount);
    if op.key !in t.entries { ReleaseFits(l, op, t.entries.Keys, false); }
  }

  // ---------------------------------------------------------------- whole runs

  lemma {:induction false} EmptyIsExact(w: Measure)
    ensures Exact(EMPTY, map[], w) && AllKnown(EMPTY, map[])
  {
    NothingPart(map[], {}, false, w);
    assert EMPTY.entries.Keys == {};
  }

  lemma {:induction false} RunKnows(ops: seq<Op>)
    ensures AllKnown(Run(ops), History(ops)) && |Run(ops).entries| <= MEMORY_TABLE_SIZE
  {
    hide AllKnown;
    if ops == [] {
      EmptyIsExact(Size);
    } else {
      var before, op := ops[..|ops| - 1], ops[|ops| - 1];
      RunKnows(before);
      KnownKeeps(Run(before), History(before), op);
      StepSize(Run(before), op);
    }
  }

  lemma {:induction false} StepSize(t: Table, op: Op)
    requires |t.entries| <= MEMORY_TABLE_SIZE
    ensures |Step(t, op).entries| <= MEMORY_TABLE_SIZE
  {
    var t' := Step(t, op);
    assert op.key in t.entries ==> t'.entries.Keys == t.entries.Keys;
    assert t'.entries != t.entries && op.key !in t.entries ==> t'.entries.Keys == t.entries.Keys + {op.key};
  }

  /** All-time totals, over every run: each entry has exactly what its place allocated, the overflow
      bucket exactly what all other places allocated, in bytes and in number. */
  lemma {:induction false} TotalsAreExact(ops: seq<Op>, w: Measure)
    requires w.Size? || w.Count?
    ensures Exact(Run(ops), History(ops), w)
  {
    hide Exact;
    if ops == [] {
      EmptyIsExact(w);
    } else {
      var before, op := ops[..|ops| - 1], ops[|ops| - 1];
      TotalsAreExact(before, w);
      RunKnows(before);
      if op.Alloc? {
        AllocKeeps(Run(before), History(before), op, w);
      } else {
        ReleaseKeepsTotals(Run(before), History(before), op, w);
      }
    }
  }

  lemma {:induction false} MatchedOwesNothing(ops: seq<Op>)
    requires Matched(ops)
    ensures NoDebts(History(ops))
  {
    if ops != [] { MatchedOwesNothing(ops[..|ops| - 1]); }
  }

  /** In-use numbers, over every run of matched releases: exactly what is allocated and not yet
      released. */
  lemma {:induction false} InUseIsExact(ops: seq<Op>)
    requires Matched(ops)
    ensures Exact(Run(ops), History(ops), InUse) && Exact(Run(ops), History(ops), InUseCount)
  {
    hide Exact, NoDebts;
    if ops == [] {
      EmptyIsExact(InUse);
      EmptyIsExact(InUseCount);
    } else {
      var before, op := ops[..|ops| - 1], ops[|ops| - 1];
      InUseIsExact(before);
      MatchedOwesNothing(before);
      RunKnows(before);
      if op.Alloc? {
        AllocKeeps(Run(before), History(before), op, InUse);
        AllocKeeps(Run(before), History(before), op, InUseCount);
      } else {
        ReleaseKeepsInUse(Run(before), History(before), op);
      }
    }
  }

  // ---------------------------------------------------------------- the sum over the table

  function Fields(entries: map<Key, Totals>, w: Measure): map<Key, int>
  {
    map k | k in entries :: Field(entries[k], w)
  }

  ghost function Grand(t: Table, w: Measure): int
  {
    Sum(Fields(t.entries, w)) + Field(t.other, w)
  }

  lemma {:induction false} GrandUpdate(entries: map<Key, Totals>, k: Key, t: Totals, w: Measure)
    ensures Sum(Fields(entries[k := t], w))
      == Sum(Fields(entries, w)) + Field(t, w) - if k in entries then Field(entries[k], w) else 0
  {
    assert Fields(entries[k := t], w) == Fields(entries, w)[k := Field(t, w)];
    SumUpdate(Fields(entries, w), k, Field(t, w));
  }

  /** What all operations together changed. */
  function NetChange(ops: seq<Op>, w: Measure): int
  {
    if ops == [] then 0 else NetChange(ops[..|ops| - 1], w) + Change(ops[|ops| - 1], w)
  }

  lemma {:induction false} AllocGrand(t: Table, op: Op, w: Measure)
    requires op.Alloc?
    ensures Grand(Step(t, op), w) == Grand(t, w) + Change(op, w)
  {
    var was := if op.key in t.entries then t.entries[op.key] else NOTHING;
    PlusField(was, op, w);
    PlusField(t.other, op, w);
    GrandUpdate(t.entries, op.key, Plus(was, op.size), w);
  }

  lemma {:induction false} ReleaseGrand(t: Table, op: Op, w: Measure)
    requires op.Release?
    requires w.Size? || w.Count? ||
      (var was := if op.key in t.entries then t.entries[op.key] else t.other; was.inUse >= op.size && was.inUseC > 0)
    ensures Grand(Step(t, op), w) == Grand(t, w) + Change(op, w)
  {
    if op.key in t.entries { GrandUpdate(t.entries, op.key, Minus(t.entries[op.key], op.size), w); }
  }

  /** The table as a whole: its sizes and counts add up to everything ever allocated, and, when
      releases are matched, its in-use numbers to everything not released. */
  lemma {:induction false} TableIsConserved(ops: seq<Op>, w: Measure)
    requires w.Size? || w.Count? || Matched(ops)
    ensures Grand(Run(ops), w) == NetChange(ops, w)
  {
    hide Grand, Change;
    if ops == [] {
      assert Grand(EMPTY, w) == 0 by { EmptyGrand(w); }
    } else {
      var before, op := ops[..|ops| - 1], ops[|ops| - 1];
      TableIsConserved(before, w);
      if op.Alloc? {
        AllocGrand(Run(before), op, w);
      } else {
        if !(w.Size? || w.Count?) { ReleasePasses(before, op); }
        ReleaseGrand(Run(before), op, w);
      }
    }
  }

  lemma {:induction false} EmptyGrand(w: Measure)
    ensures Grand(EMPTY, w) == 0
  {
    AllZero(Fields(EMPTY.entries, w));
  }

  lemma {:induction false} ReleasePasses(before: seq<Op>, op: Op)
    requires op.Release? && Matched(before)
    requires var t := Line(History(before), op.key, op.size); t.allocs > t.releases
    ensures var t := Run(before);
      var was := if op.key in t.entries then t.entries[op.key] else t.other;
      was.inUse >= op.size && was.inUseC > 0
  {
    hide Part;
    var t, l := Run(before), History(before);
    InUseIsExact(before);
    MatchedOwesNothing(before);
    if op.key in t.entries {
      ReleaseFits(l, op, {op.key}, true);
      assert Field(t.entries[op.key], InUse) == Part(l, {op.key}, true, InUse);
      assert Field(t.entries[op.key], InUseCount) == Part(l, {op.key}, true, InUseCount);
    } else {
      ReleaseFits(l, op, t.entries.Keys, false);
    }
  }

  // ---------------------------------------------------------------- releases that match nothing

  /** The entry of a place, or the overflow bucket if the place has none. */
  function EntryOf(t: Table, k: Key): Totals
  {
    if k in t.entries then t.entries[k] else t.other
  }

  /** A release takes its bytes and one block off the in-use numbers of the place if both can be taken,
      and changes nothing at all otherwise; the all-time totals and all other entries stay. */
  lemma {:induction false} AnyRelease(t: Table, k: Key, size: nat)
    ensures var t', e := Delete(t, k, size), EntryOf(t, k);
      && (e.inUse < size || e.inUseC == 0 ==> t' == t)
      && (e.inUse >= size && e.inUseC > 0 ==>
            EntryOf(t', k) == Totals(e.size, e.count, e.inUse - size, e.inUseC - 1))
      && t'.entries.Keys == t.entries.Keys
      && (forall j :: j in t.entries && j != k ==> t'.entries[j] == t.entries[j])
      && (k in t.entries ==> t'.other == t.other)
  {
  }

  ghost predicate WithinTotals(t: Totals) {
    t.inUse <= t.size && t.inUseC <= t.count
  }

  /** In every run, releases matched or not, nothing has more in use than it ever allocated. */
  lemma {:induction false} InUseWithinTotals(ops: seq<Op>)
    ensures WithinTotals(Run(ops).other) && forall k :: k in Run(ops).entries ==> WithinTotals(Run(ops).entries[k])
  {
    if ops != [] {
      InUseWithinTotals(ops[..|ops| - 1]);
    }
  }
}
