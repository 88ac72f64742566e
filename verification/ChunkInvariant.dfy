/** What every operation of the chunk manager keeps: disjoint slots, well-kept lists, untouched
    fences and blank bytes, exact counters. */
module ChunkInvariant {
  import opened Basics
  import opened ChunkModel
  import opened Sums

  // ---------------------------------------------------------------- geometry

  predicate ChunkSize(t: nat) {
    t in {16, 32, 64, 128, 256, 512, 1024, 2048, 4096, 8192, 16384}
  }

  /** Divided chunks lie on their 16-byte grid, everything larger on whole blocks. */
  predicate InPlace(size: nat, a: int, t: nat) {
    && BLOCK <= a && a + t <= size && a % 16 == 0
    && (ChunkSize(t) || (t > 0 && t % BLOCK == 0 && a % BLOCK == 0))
  }

  predicate RegionOk(size: nat, r: Grant) {
    BLOCK <= r.base && r.base % BLOCK == 0 && r.base + r.size <= size
  }

  predicate GrantsApart(grants: seq<Grant>, a: int, n: nat) {
    forall i :: 0 <= i < |grants| ==> Apart(grants[i].base, grants[i].size, a, n)
  }

  ghost predicate SlotsApart(slots: map<int, Slot>, a: int, n: nat) {
    forall b :: b in slots ==> Apart(b, slots[b].total, a, n)
  }

  /** All slots, and all memory the system has yet to grant, are pairwise disjoint. */
  ghost predicate Geometry(size: nat, slots: map<int, Slot>, grants: seq<Grant>) {
    && (forall a :: a in slots ==> InPlace(size, a, slots[a].total))
    && (forall a, b :: a in slots && b in slots && a != b ==> Apart(a, slots[a].total, b, slots[b].total))
    && (forall i :: 0 <= i < |grants| ==> RegionOk(size, grants[i]))
    && (forall a :: a in slots ==> GrantsApart(grants, a, slots[a].total))
    && (forall i, j :: 0 <= i < j < |grants| ==>
          Apart(grants[i].base, grants[i].size, grants[j].base, grants[j].size))
  }

  /** Memory that belongs to no slot and to no coming grant. */
  ghost predicate Fresh(h: Heap, a: int, n: nat) {
    SlotsApart(h.slots, a, n) && GrantsApart(h.grants, a, n)
  }

  // ---------------------------------------------------------------- lists

  predicate AllFree(slots: map<int, Slot>, s: seq<int>) {
    forall i :: 0 <= i < |s| ==> s[i] in slots && slots[s[i]].kind.Free?
  }

  predicate BySize(slots: map<int, Slot>, s: seq<int>)
    requires AllFree(slots, s)
  {
    forall i, j :: 0 <= i < j < |s| ==> slots[s[i]].total <= slots[s[j]].total
  }

  /** The waiting slots are in the order they were freed. */
  predicate ByAge(slots: map<int, Slot>, s: seq<int>, iter: nat)
    requires AllFree(slots, s)
  {
    && (forall i, j :: 0 <= i < j < |s| ==> slots[s[i]].useIter <= slots[s[j]].useIter)
    && (forall i :: 0 <= i < |s| ==> slots[s[i]].useIter <= iter)
  }

  /** Never handed out before, or freed at least the reuse delay ago. */
  predicate Rested(s: Slot, iter: nat) {
    s.seen == 0 || s.useIter + REUSE_DELAY <= iter
  }

  predicate AllRested(slots: map<int, Slot>, s: seq<int>, iter: nat)
    requires AllFree(slots, s)
  {
    forall i :: 0 <= i < |s| ==> Rested(slots[s[i]], iter)
  }

  ghost predicate ListsOk(slots: map<int, Slot>, free: seq<int>, wait: seq<int>, iter: nat) {
    && NoRepeats(free) && NoRepeats(wait)
    && AllFree(slots, free) && AllFree(slots, wait)
    && (forall i, j :: 0 <= i < |free| && 0 <= j < |wait| ==> free[i] != wait[j])
    && BySize(slots, free)
    && ByAge(slots, wait, iter)
    && AllRested(slots, free, iter)
  }

  ghost predicate Lists(h: Heap) {
    ListsOk(h.slots, h.free, h.wait, h.iter)
  }

  // ---------------------------------------------------------------- contents

  /** A slot is in the state its last operation left it in: a user slot holds its user area and
      passes the overwrite check, a blanked free slot is blank. */
  predicate SlotFine(mem: seq<Byte>, a: int, s: Slot) {
    match s.kind
    case User => Fits(s) && s.user <= LARGEST_ALLOCATION && OverwriteError(mem, a, s) == NoError
    case Free => s.blank ==> BytesAre(mem, a, a + s.total, FREE_BLANK)
    case Admin => s == ADMIN_SLOT
  }

  ghost predicate Intact(mem: seq<Byte>, slots: map<int, Slot>) {
    forall a :: a in slots ==> SlotFine(mem, a, slots[a])
  }

  // ---------------------------------------------------------------- counters

  datatype Measure = UserBytes | Pointers | Given | FreeBytes

  function Weight(s: Slot, w: Measure): int
  {
    match w
    case UserBytes => if s.kind.User? then s.user else 0
    case Pointers => if s.kind.User? then 1 else 0
    case Given => if s.kind.User? then s.total else 0
    case FreeBytes => if s.kind.Free? then s.total else 0
  }

  function Weights(slots: map<int, Slot>, w: Measure): map<int, int>
  {
    map a | a in slots :: Weight(slots[a], w)
  }

  ghost function Tally(slots: map<int, Slot>, w: Measure): int
  {
    Sum(Weights(slots, w))
  }

  ghost predicate CountedOk(current: int, pointers: int, given: int, freeBytes: int, slots: map<int, Slot>) {
    && current == Tally(slots, UserBytes)
    && pointers == Tally(slots, Pointers)
    && given == Tally(slots, Given)
    && freeBytes == Tally(slots, FreeBytes)
  }

  ghost predicate Counted(h: Heap, slots: map<int, Slot>) {
    CountedOk(h.current, h.pointers, h.given, h.freeBytes, slots)
  }

  lemma {:induction false} TallyUpdate(slots: map<int, Slot>, a: int, s: Slot, w: Measure)
    ensures Tally(slots[a := s], w) == Tally(slots - {a}, w) + Weight(s, w)
    ensures Tally(slots - {a}, w) == Tally(slots, w) - if a in slots then Weight(slots[a], w) else 0
  {
    assert Weights(slots[a := s], w) == Weights(slots, w)[a := Weight(s, w)];
    assert Weights(slots - {a}, w) == Weights(slots, w) - {a};
    SumUpdate(Weights(slots, w), a, Weight(s, w));
  }

  // ---------------------------------------------------------------- the invariant

  /** The invariant, with the slots in `out` left out of the contents and the counters: they have
      been taken for a request that is not finished yet. */
  ghost predicate InvBut(h: Heap, out: set<int>) {
    && !h.corrupt
    && Geometry(|h.mem|, h.slots, h.grants)
    && Lists(h)
    && Intact(h.mem, h.slots - out)
    && Counted(h, h.slots - out)
  }

  ghost predicate Inv(h: Heap) {
    InvBut(h, {})
  }

  /** The fields the invariant speaks of. */
  predicate SameCore(h: Heap, h': Heap) {
    && h'.mem == h.mem && h'.slots == h.slots && h'.free == h.free && h'.wait == h.wait
    && h'.grants == h.grants && h'.iter == h.iter && h'.corrupt == h.corrupt
    && h'.current == h.current && h'.given == h.given
    && h'.pointers == h.pointers && h'.freeBytes == h.freeBytes
  }

  lemma {:induction false} SameCoreKeeps(h: Heap, h': Heap, out: set<int>)
    requires InvBut(h, out) && SameCore(h, h')
    ensures InvBut(h', out)
  {
  }

  // ---------------------------------------------------------------- getting memory

  lemma {:induction false} GrantTaken(size: nat, slots: map<int, Slot>, grants: seq<Grant>)
    requires Geometry(size, slots, grants) && grants != []
    ensures Geometry(size, slots, grants[1..])
    ensures SlotsApart(slots, grants[0].base, grants[0].size)
    ensures GrantsApart(grants[1..], grants[0].base, grants[0].size)
    ensures RegionOk(size, grants[0])
  {
    assert forall i :: 0 <= i < |grants| - 1 ==> grants[1..][i] == grants[i + 1];
    assert forall a :: a in slots ==> Apart(grants[0].base, grants[0].size, a, slots[a].total);
  }

  lemma {:induction false} HeapAllocKeeps(h: Heap, size: nat, out: set<int>)
    requires InvBut(h, out)
    ensures var (h', mem) := HeapAlloc(h, size);
      && InvBut(h', out)
      && (mem.Some? ==> Fresh(h', mem.value, size) && RegionOk(|h.mem|, Grant(mem.value, size)))
  {
    hide Intact, CountedOk, ListsOk;
    if h.grants != [] {
      GrantTaken(|h.mem|, h.slots, h.grants);
      hide Geometry, SlotsApart, GrantsApart;
      if size <= h.grants[0].size { GrantPart(h.slots, h.grants[1..], h.grants[0], size); }
    }
  }

  lemma {:induction false} GrantPart(slots: map<int, Slot>, grants: seq<Grant>, g: Grant, n: nat)
    requires SlotsApart(slots, g.base, g.size) && GrantsApart(grants, g.base, g.size) && n <= g.size
    ensures SlotsApart(slots, g.base, n) && GrantsApart(grants, g.base, n)
  {
    assert forall b :: b in slots ==> Apart(b, slots[b].total, g.base, g.size);
    assert forall i :: 0 <= i < |grants| ==> Apart(grants[i].base, grants[i].size, g.base, g.size);
  }

  lemma {:induction false} NewSlotGeometry(size: nat, slots: map<int, Slot>, grants: seq<Grant>, a: int, s: Slot)
    requires Geometry(size, slots, grants) && SlotsApart(slots, a, s.total) && GrantsApart(grants, a, s.total)
    requires InPlace(size, a, s.total)
    ensures a !in slots && Geometry(size, slots[a := s], grants)
  {
    assert a in slots ==> Apart(a, slots[a].total, a, s.total);
  }

  /** Lists only depend on the slots they hold. */
  lemma {:induction false} ListsFrame(h: Heap, h': Heap)
    requires Lists(h) && h'.free == h.free && h'.wait == h.wait && h'.iter == h.iter
    requires forall i :: 0 <= i < |h.free| ==> h.free[i] in h'.slots && h'.slots[h.free[i]] == h.slots[h.free[i]]
    requires forall i :: 0 <= i < |h.wait| ==> h.wait[i] in h'.slots && h'.slots[h.wait[i]] == h.slots[h.wait[i]]
    ensures Lists(h')
  {
  }

  lemma {:induction false} TallyUpdates(slots: map<int, Slot>, a: int, s: Slot)
    ensures forall w: Measure :: Tally(slots[a := s], w) == Tally(slots - {a}, w) + Weight(s, w)
    ensures forall w: Measure ::
      Tally(slots - {a}, w) == Tally(slots, w) - if a in slots then Weight(slots[a], w) else 0
  {
    forall w: Measure
      ensures Tally(slots[a := s], w) == Tally(slots - {a}, w) + Weight(s, w)
      ensures Tally(slots - {a}, w) == Tally(slots, w) - if a in slots then Weight(slots[a], w) else 0
    {
      TallyUpdate(slots, a, s, w);
    }
  }

  lemma {:induction false} NewSlotContents(h: Heap, slots: map<int, Slot>, a: int, s: Slot)
    requires Intact(h.mem, slots) && Counted(h, slots) && a !in slots && !s.kind.User? && !s.blank
    requires s.kind.Admin? ==> s == ADMIN_SLOT
    ensures Intact(h.mem, slots[a := s])
    ensures Counted(h.(freeBytes := h.freeBytes + Weight(s, FreeBytes)), slots[a := s])
  {
    assert slots - {a} == slots;
    TallyUpdates(slots, a, s);
  }

  /** A new slot in fresh memory. */
  lemma {:induction false} NewSlotKeeps(h: Heap, a: int, s: Slot, out: set<int>)
    requires InvBut(h, out) && Fresh(h, a, s.total) && InPlace(|h.mem|, a, s.total)
    requires if s.kind.User? then out == {a} else !s.blank && a !in out
    requires s.kind.Admin? ==> s == ADMIN_SLOT
    ensures a !in h.slots
    ensures var h' := h.(slots := h.slots[a := s]);
      InvBut(h'.(freeBytes := h.freeBytes + Weight(s, FreeBytes)), out)
  {
    hide Geometry, ListsOk, Intact, CountedOk, SlotsApart, GrantsApart, InPlace;
    NewSlotGeometry(|h.mem|, h.slots, h.grants, a, s);
    ListsUnderNew(h, a, s);
    NewWithout(h.slots, a, s, out);
    if !s.kind.User? {
      NewSlotContents(h, h.slots - out, a, s);
    }
  }

  lemma {:induction false} ListsUnderNew(h: Heap, a: int, s: Slot)
    requires Lists(h) && a !in h.slots
    ensures Lists(h.(slots := h.slots[a := s]))
  {
    ListsFrame(h, h.(slots := h.slots[a := s]));
  }

  lemma {:induction false} NewWithout(slots: map<int, Slot>, a: int, s: Slot, out: set<int>)
    requires a !in slots
    ensures a in out ==> slots[a := s] - out == slots - out
    ensures a !in out ==> slots[a := s] - out == (slots - out)[a := s] && a !in slots - out
  {
  }

  /** A slot record as get_slot and insert_address leave it. */
  function NewSlot(kind: Kind, total: nat): Slot
  {
    Slot(total, kind, 0, false, false, false, 0, 0)
  }

  /** Only slots, list order and the system's answers may differ; slots there were are unchanged,
      and the others have not been used yet. */
  ghost predicate Grows(h: Heap, h': Heap) {
    && h'.mem == h.mem && h'.iter == h.iter && h'.limit == h.limit
    && h'.current == h.current && h'.pointers == h.pointers && h'.given == h.given
    && h'.wait == h.wait && h'.corrupt == h.corrupt
    && (forall a :: a in h.slots ==> a in h'.slots && h'.slots[a] == h.slots[a])
    && (forall a :: a in h'.slots && a !in h.slots ==> h'.slots[a] == NewSlot(h'.slots[a].kind, h'.slots[a].total))
  }

  /** Bytes the user blocks hold beyond the slots handed out and free: nothing, unless a request
      for memory failed half way. */
  function Slack(h: Heap): int { h.userBlocks * BLOCK - h.given - h.freeBytes }

  lemma {:induction false} RecordsFit(level: nat)
    requires level <= 32
    ensures RecordsPerBlock(level) >= 2
  {
  }

  ghost predicate LevelsOk(h: Heap) {
    forall i :: 0 <= i < |h.levels| ==> h.levels[i] <= 30
  }

  lemma {:induction false} FreshPastGrant(h: Heap, size: nat, r: Grant)
    requires Fresh(h, r.base, r.size)
    ensures var (h', mem) := HeapAlloc(h, size);
      && Fresh(h', r.base, r.size)
      && (mem.Some? ==> Apart(mem.value, size, r.base, r.size))
  {
    if h.grants != [] {
      assert Apart(h.grants[0].base, h.grants[0].size, r.base, r.size);
      assert forall i :: 0 <= i < |h.grants| - 1 ==> h.grants[1..][i] == h.grants[i + 1];
    }
  }

  lemma {:induction false} RegionOnGrid(size: nat, a: int, n: nat)
    requires RegionOk(size, Grant(a, n))
    ensures a % 16 == 0 && BLOCK <= a && a + n <= size
  {
    var q := a / BLOCK;
    assert a == 16 * (2048 * q);
  }

  lemma {:induction false} BlockInPlace(size: nat, a: int)
    requires RegionOk(size, Grant(a, BLOCK))
    ensures InPlace(size, a, BLOCK)
  {
    RegionOnGrid(size, a, BLOCK);
  }

  lemma {:induction false} NewRecordsKeeps(h: Heap, level: nat, out: set<int>, r: Grant)
    requires InvBut(h, out) && level <= 32 && Fresh(h, r.base, r.size)
    requires r.size > 0 && out <= h.slots.Keys + {r.base}
    ensures var (h', ok) := NewRecords(h, level);
      && InvBut(h', out) && Fresh(h', r.base, r.size)
      && Grows(h, h') && h'.free == h.free && h'.freeBytes == h.freeBytes && h'.userBlocks == h.userBlocks
      && h'.levels == h.levels
  {
    hide InvBut, RegionOk, Apart, InPlace;
    HeapAllocKeeps(h, BLOCK, out);
    FreshPastGrant(h, BLOCK, r);
    var (h2, mem) := HeapAlloc(h, BLOCK);
    if mem.Some? {
      RecordsFit(level);
      FreshIsNew(h2, mem.value, out, r);
      BlockInPlace(|h.mem|, mem.value);
      NewSlotKeeps(h2, mem.value, ADMIN_SLOT, out);
      SameCoreKeeps(h2.(slots := h2.slots[mem.value := ADMIN_SLOT]), NewRecords(h, level).0, out);
    }
  }

  lemma {:induction false} FreshIsNew(h: Heap, a: int, out: set<int>, r: Grant)
    requires InvBut(h, out) && Fresh(h, a, BLOCK) && out <= h.slots.Keys + {r.base}
    requires Apart(a, BLOCK, r.base, r.size) && r.size > 0
    ensures a !in h.slots && a !in out
  {
    assert a in h.slots ==> Apart(a, h.slots[a].total, a, BLOCK);
  }

  /** get_slot never fails its checks; a block of records comes from memory nobody else has. */
  lemma {:induction false} GetSlotKeeps(h: Heap, out: set<int>, r: Grant)
    requires InvBut(h, out) && LevelsOk(h) && Fresh(h, r.base, r.size)
    requires r.size > 0 && out <= h.slots.Keys + {r.base}
    ensures var (h', ok) := GetSlot(h);
      && InvBut(h', out) && LevelsOk(h') && Fresh(h', r.base, r.size)
      && Grows(h, h') && h'.free == h.free && h'.freeBytes == h.freeBytes && h'.userBlocks == h.userBlocks
  {
    hide InvBut;
    var level := if h.levels == [] then 0 else h.levels[0];
    var h1 := h.(levels := if h.levels == [] then [] else h.levels[1..]);
    SameCoreKeeps(h, h1, out);
    assert LevelsOk(h1);
    if level in h.spare && h.spare[level] > 0 {
      SameCoreKeeps(h, GetSlot(h).0, out);
    } else {
      NewRecordsKeeps(h1, level, out, r);
    }
  }

  // ---------------------------------------------------------------- the free list

  lemma {:induction false} SizePosSplits(free: seq<int>, slots: map<int, Slot>, size: nat, i: nat)
    requires i <= |free| && AllFree(slots, free)
    decreases |free| - i
    ensures var p := SizePos(free, slots, size, i);
      && (forall k :: i <= k < p ==> slots[free[k]].total < size)
      && (p < |free| ==> slots[free[p]].total >= size)
  {
    if i < |free| && slots[free[i]].total < size { SizePosSplits(free, slots, size, i + 1); }
  }

  lemma {:induction false} InsertedSorted(free: seq<int>, slots: map<int, Slot>, a: int, p: nat)
    requires AllFree(slots, free) && BySize(slots, free) && a in slots && slots[a].kind.Free?
    requires p == SizePos(free, slots, slots[a].total, 0)
    ensures AllFree(slots, free[..p] + [a] + free[p..]) && BySize(slots, free[..p] + [a] + free[p..])
  {
    SizePosSplits(free, slots, slots[a].total, 0);
    var after := free[..p] + [a] + free[p..];
    assert forall k :: 0 <= k < |after| ==> after[k] == if k < p then free[k] else if k == p then a else free[k - 1];
  }

  /** A free slot that is on neither list, and rested, joins the free list. */
  lemma {:induction false} InsertFreeLists(h: Heap, a: int)
    requires Lists(h) && a in h.slots && h.slots[a].kind.Free? && Rested(h.slots[a], h.iter)
    requires a !in h.free && a !in h.wait
    ensures Lists(InsertFree(h, a))
  {
    var p := SizePos(h.free, h.slots, Total(h, a), 0);
    InsertedSorted(h.free, h.slots, a, p);
    InsertedOnce(h.free, h.wait, a, p);
    InsertedRested(h.free, h.slots, h.iter, a, p);
    hide NoRepeats, AllFree, BySize, ByAge, AllRested, Rested;
  }

  lemma {:induction false} InsertedOnce(free: seq<int>, wait: seq<int>, a: int, p: nat)
    requires NoRepeats(free) && a !in free && a !in wait && p <= |free|
    requires forall i, j :: 0 <= i < |free| && 0 <= j < |wait| ==> free[i] != wait[j]
    ensures NoRepeats(free[..p] + [a] + free[p..])
    ensures forall i, j :: 0 <= i < |free| + 1 && 0 <= j < |wait| ==> (free[..p] + [a] + free[p..])[i] != wait[j]
  {
    var after := free[..p] + [a] + free[p..];
    assert forall k :: 0 <= k < |after| ==> after[k] == if k < p then free[k] else if k == p then a else free[k - 1];
  }

  lemma {:induction false} InsertedRested(free: seq<int>, slots: map<int, Slot>, iter: nat, a: int, p: nat)
    requires AllFree(slots, free) && AllRested(slots, free, iter) && a in slots && Rested(slots[a], iter)
    requires p <= |free| && AllFree(slots, free[..p] + [a] + free[p..])
    ensures AllRested(slots, free[..p] + [a] + free[p..], iter)
  {
    var after := free[..p] + [a] + free[p..];
    assert forall k :: 0 <= k < |after| ==> after[k] == if k < p then free[k] else if k == p then a else free[k - 1];
  }

  lemma {:induction false} InsertFreeKeeps(h: Heap, a: int, out: set<int>)
    requires InvBut(h, out) && a in h.slots && h.slots[a].kind.Free? && Rested(h.slots[a], h.iter)
    requires a !in h.free && a !in h.wait
    ensures InvBut(InsertFree(h, a), out)
  {
    InsertFreeLists(h, a);
  }

  lemma {:induction false} FreshPart(h: Heap, a: int, n: nat, b: int, m: nat)
    requires Fresh(h, a, n) && a <= b && b + m <= a + n
    ensures Fresh(h, b, m)
  {
    assert forall c :: c in h.slots ==> Apart(c, h.slots[c].total, a, n);
    assert forall i :: 0 <= i < |h.grants| ==> Apart(h.grants[i].base, h.grants[i].size, a, n);
  }

  lemma {:induction false} FreshSame(h: Heap, h': Heap, a: int, n: nat)
    requires Fresh(h, a, n) && h'.slots == h.slots && h'.grants == h.grants
    ensures Fresh(h', a, n)
  {
  }

  lemma {:induction false} NewNotListed(h: Heap, out: set<int>, a: int)
    requires InvBut(h, out) && a !in h.slots
    ensures a !in h.free && a !in h.wait
  {
  }

  /** A slot that does not exist can be left out or not. */
  lemma {:induction false} OutOfNowhere(h: Heap, a: int, n: nat)
    requires InvBut(h, {}) && Fresh(h, a, n) && n > 0
    ensures InvBut(h, {a}) && a !in h.slots
  {
    assert a in h.slots ==> Apart(a, h.slots[a].total, a, n);
    assert h.slots - {a} == h.slots == h.slots - {};
  }

  /** insert_address into the front of a fresh region: no slot of the used list is in the way, it
      fails only for want of heap, and the rest of the region stays fresh. */
  lemma {:induction false} InsertAddressKeeps(h: Heap, a: int, kind: Kind, total: nat, n: nat)
    requires InvBut(h, {}) && LevelsOk(h) && Fresh(h, a, n) && total <= n && InPlace(|h.mem|, a, total)
    requires !kind.Admin?
    ensures var (h', ok) := InsertAddress(h, a, kind, total);
      && Grows(h, h') && LevelsOk(h') && h'.userBlocks == h.userBlocks && h'.freeBytes == h.freeBytes
      && a !in h.slots
      && (!ok ==> InvBut(h', {}) && h'.free == h.free)
      && (ok ==>
            && Fresh(h', a + total, n - total)
            && a in h'.slots && h'.slots[a] == NewSlot(kind, total)
            && (kind.Free? ==> InvBut(h'.(freeBytes := h'.freeBytes + total), {}))
            && (kind.User? ==> InvBut(h', {a}) && h'.free == h.free))
  {
    hide InvBut, Fresh, InPlace, GetSlot;
    assert total > 0 by { TotalsPositive(|h.mem|, a, total); }
    GetSlotKeeps(h, {}, Grant(a, n));
    OutOfNowhere(h, a, n);
    var (h1, ok) := GetSlot(h);
    if ok {
      var s, out := NewSlot(kind, total), if kind.User? then {a} else {};
      OutOfNowhere(h1, a, n);
      FreshPart(h1, a, n, a, total);
      FreshPart(h1, a, n, a + total, n - total);
      NewSlotKeeps(h1, a, s, out);
      var h2 := h1.(slots := h1.slots[a := s], freeBytes := h1.freeBytes + Weight(s, FreeBytes));
      NewNotListed(h1, out, a);
      if kind.Free? { InsertFreeKeeps(h2, a, out); }
      StillFresh(h1, a, s, a + total, n - total);
    }
  }

  lemma {:induction false} TotalsPositive(size: nat, a: int, t: nat)
    requires InPlace(size, a, t)
    ensures t > 0
  {
  }

  lemma {:induction false} StillFresh(h: Heap, a: int, s: Slot, b: int, n: nat)
    requires Fresh(h, b, n) && a + s.total <= b
    ensures Fresh(h.(slots := h.slots[a := s]), b, n)
    ensures Fresh(InsertFree(h.(slots := h.slots[a := s]), a), b, n)
  {
  }

  // ---------------------------------------------------------------- cutting a block into chunks

  /** n is a whole number of steps of d. */
  predicate Steps(n: nat, d: nat)
    requires d > 0
  {
    n == 0 || (n >= d && Steps(n - d, d))
  }

  lemma {:induction false} StepsTimes(k: nat, d: nat)
    requires d > 0
    ensures Steps(k * d, d)
  {
    if k > 0 {
      StepsTimes(k - 1, d);
      assert (k - 1) * d == k * d - d;
      assert k * d >= d;
    }
  }

  lemma {:induction false} ChunksFillBlock(t: nat)
    requires ChunkSize(t)
    ensures t % 16 == 0 && 0 < t <= BLOCK / 2 && Steps(BLOCK, t)
  {
    StepsTimes(BLOCK / t, t);
    assert BLOCK / t * t == BLOCK;
  }

  /** The free list keeps what it holds and gains only slots that did not exist. */
  ghost predicate FreeGains(h: Heap, h': Heap) {
    && (forall x :: x in h.free ==> x in h'.free)
    && (forall x :: x in h'.free ==> x in h.free || x !in h.slots)
  }

  lemma {:induction false} InsertFreeAdds(h: Heap, a: int)
    ensures forall x :: x in InsertFree(h, a).free <==> x == a || x in h.free
  {
    var p := SizePos(h.free, h.slots, Total(h, a), 0);
    assert h.free == h.free[..p] + h.free[p..];
  }

  lemma {:induction false} InsertAddressFree(h: Heap, a: int, total: nat)
    requires a !in h.slots
    ensures var (h', ok) := InsertAddress(h, a, Free, total);
      FreeGains(h, h') && (ok ==> a in h'.free)
  {
    var (h1, ok) := GetSlot(h);
    assert h1.free == h.free;
    if ok {
      InsertFreeAdds(h1.(slots := h1.slots[a := Slot(total, Free, 0, false, false, false, 0, 0)]), a);
    }
  }

  lemma {:induction false} GrowsTwice(h: Heap, h1: Heap, h2: Heap)
    requires Grows(h, h1) && Grows(h1, h2)
    ensures Grows(h, h2)
  {
  }

  /** One turn of the chunk loop. */
  lemma {:induction false} ChunkKeeps(h: Heap, a: int, n: nat, div: nat)
    requires InvBut(h, {}) && LevelsOk(h) && ChunkSize(div) && a % 16 == 0 && BLOCK <= a
    requires div <= n && a + n <= |h.mem| && Fresh(h, a, n)
    ensures var (h1, ok) := InsertAddress(h, a, Free, div);
      var h2 := if ok then h1.(freeBytes := h1.freeBytes + div) else h1;
      && InvBut(h2, {}) && LevelsOk(h2) && Grows(h, h2) && h2.mem == h.mem && h2.userBlocks == h.userBlocks
      && h2.freeBytes == (if ok then h.freeBytes + div else h.freeBytes)
      && FreeGains(h, h2)
      && (ok ==> a in h2.free && Total(h2, a) == div && a in h2.slots && Fresh(h2, a + div, n - div))
  {
    hide InvBut;
    InsertAddressKeeps(h, a, Free, div, n);
    InsertAddressFree(h, a, div);
  }

  /** The chunk loop: every chunk it makes is on the free list, and the bytes add up. */
  lemma {:induction false} MakeChunksKeeps(h: Heap, a: int, last: int, div: nat)
    requires InvBut(h, {}) && LevelsOk(h) && ChunkSize(div) && a % 16 == 0 && BLOCK <= a
    requires a <= last + div <= |h.mem| && Steps(last + div - a, div) && Fresh(h, a, last + div - a)
    decreases last + div - a
    ensures var (h', ok) := MakeChunks(h, a, last, div);
      && InvBut(h', {}) && LevelsOk(h') && Grows(h, h') && h'.userBlocks == h.userBlocks
      && h'.freeBytes <= h.freeBytes + (last + div - a)
      && (ok ==> h'.freeBytes == h.freeBytes + (last + div - a))
      && FreeGains(h, h')
      && (ok && a <= last ==> a in h'.free && Total(h', a) == div)
  {
    hide InvBut, Grows, Fresh, LevelsOk, FreeGains, InsertAddress;
    ChunksFillBlock(div);
    if a > last {
      NoChange(h);
    } else {
      ChunkKeeps(h, a, last + div - a, div);
      var (h1, ok) := InsertAddress(h, a, Free, div);
      if ok {
        var h2 := h1.(freeBytes := h1.freeBytes + div);
        MakeChunksKeeps(h2, a + div, last, div);
        var h3 := MakeChunks(h2, a + div, last, div).0;
        GrowsTwice(h, h2, h3);
        StillListed(h, h2, h3, a);
      }
    }
  }

  lemma {:induction false} NoChange(h: Heap)
    ensures Grows(h, h) && FreeGains(h, h)
  {
  }

  lemma {:induction false} StillListed(h: Heap, h1: Heap, h2: Heap, a: int)
    requires FreeGains(h, h1) && FreeGains(h1, h2) && a in h1.free
    requires Grows(h, h1) && Grows(h1, h2) && a in h1.slots
    ensures FreeGains(h, h2) && a in h2.free && Total(h2, a) == Total(h1, a)
  {
  }

  /** create_divided_chunks: a whole block of chunks, or less and a failure. */
  lemma {:induction false} CreateDividedKeeps(h: Heap, div: nat)
    requires InvBut(h, {}) && LevelsOk(h) && ChunkSize(div)
    ensures var (h', ok) := CreateDivided(h, div);
      && InvBut(h', {}) && LevelsOk(h') && Grows(h, h')
      && Slack(h') >= Slack(h) && (ok ==> Slack(h') == Slack(h))
      && FreeGains(h, h')
      && (ok ==> exists x :: x in h'.free && Total(h', x) == div)
  {
    hide InvBut, LevelsOk, Grows, Fresh, FreeGains, MakeChunks, ChunkSize, Steps, RegionOk;
    BlockGranted(h);
    var (h1, mem) := HeapAlloc(h, BLOCK);
    if mem.Some? {
      ChunksFillBlock(div);
      var h2 := h1.(userBlocks := h1.userBlocks + 1);
      MakeChunksKeeps(h2, mem.value, mem.value + BLOCK - div, div);
      GrowsOn(h, h2, MakeChunks(h2, mem.value, mem.value + BLOCK - div, div).0);
    }
  }

  /** Counters and lists when the system has been asked for a block. */
  lemma {:induction false} BlockGranted(h: Heap)
    requires InvBut(h, {}) && LevelsOk(h)
    ensures var (h1, mem) := HeapAlloc(h, BLOCK);
      var h2 := if mem.Some? then h1.(userBlocks := h1.userBlocks + 1) else h1;
      && InvBut(h2, {}) && LevelsOk(h2) && Grows(h, h2) && FreeGains(h, h2)
      && h2.given == h.given && h2.freeBytes == h.freeBytes && h1.userBlocks == h.userBlocks
      && h2.slots == h.slots && h2.free == h.free
      && (mem.Some? ==>
            Fresh(h2, mem.value, BLOCK) && mem.value % 16 == 0 && BLOCK <= mem.value && mem.value + BLOCK <= |h2.mem|)
  {
    hide InvBut, Fresh, RegionOk;
    HeapAllocKeeps(h, BLOCK, {});
    var (h1, mem) := HeapAlloc(h, BLOCK);
    if mem.Some? {
      RegionOnGrid(|h.mem|, mem.value, BLOCK);
      var h2 := h1.(userBlocks := h1.userBlocks + 1);
      SameCoreKeeps(h1, h2, {});
      FreshSame(h1, h2, mem.value, BLOCK);
    }
  }

  /** Growth after a step that left slots and free list alone. */
  lemma {:induction false} GrowsOn(h: Heap, h1: Heap, h2: Heap)
    requires Grows(h, h1) && h1.slots == h.slots && h1.free == h.free && Grows(h1, h2) && FreeGains(h1, h2)
    ensures Grows(h, h2) && FreeGains(h, h2) && h2.given == h1.given
  {
  }

  // ---------------------------------------------------------------- reuse

  lemma {:induction false} PopWaiter(h: Heap)
    requires InvBut(h, {}) && h.wait != [] && Ripe(h, h.wait[0])
    ensures InvBut(InsertFree(h.(wait := h.wait[1..]), h.wait[0]), {})
  {
    var a, h1 := h.wait[0], h.(wait := h.wait[1..]);
    assert forall k :: 0 <= k < |h1.wait| ==> h1.wait[k] == h.wait[k + 1];
    assert InvBut(h1, {});
    InsertFreeKeeps(h1, a, {});
  }

  /** Slots may have moved from the waiting list to the free list, and that is all. */
  ghost predicate SameLists(h: Heap, h': Heap) {
    && (forall x :: x in h'.free || x in h'.wait <==> x in h.free || x in h.wait)
    && (forall x :: x in h.free ==> x in h'.free)
  }

  /** What promotion changes: waiters leave from the front, the free list gains them. */
  lemma {:induction false} PromoteKeeps(h: Heap)
    requires InvBut(h, {})
    decreases |h.wait|
    ensures var h' := Promote(h);
      && InvBut(h', {})
      && h' == h.(wait := h'.wait, free := h'.free)
      && |h'.wait| <= |h.wait| && h'.wait == h.wait[|h.wait| - |h'.wait|..]
      && (h'.wait != [] ==> !Ripe(h, h'.wait[0]))
      && SameLists(h, h')
  {
    hide InvBut, SameLists;
    if h.wait == [] || !Ripe(h, h.wait[0]) {
      SameListsSelf(h);
    } else {
      PopWaiter(h);
      var h1 := InsertFree(h.(wait := h.wait[1..]), h.wait[0]);
      PopWaiterLists(h);
      PromoteKeeps(h1);
      SameListsTwice(h, h1, Promote(h1));
    }
  }

  lemma {:induction false} SameListsSelf(h: Heap)
    ensures SameLists(h, h)
  {
  }

  lemma {:induction false} SameListsTwice(h: Heap, h1: Heap, h2: Heap)
    requires SameLists(h, h1) && SameLists(h1, h2)
    ensures SameLists(h, h2)
  {
  }

  lemma {:induction false} PopWaiterLists(h: Heap)
    requires h.wait != []
    ensures SameLists(h, InsertFree(h.(wait := h.wait[1..]), h.wait[0]))
  {
    InsertFreeAdds(h.(wait := h.wait[1..]), h.wait[0]);
    assert h.wait == [h.wait[0]] + h.wait[1..];
  }

  /** A slot as it leaves the free list for a request. */
  function Taken(s: Slot): Slot
  {
    s.(kind := User, fence := false, valloc := false, blank := false)
  }

  lemma {:induction false} DroppedLists(h: Heap, p: nat, s: Slot)
    requires Lists(h) && p < |h.free|
    ensures Lists(h.(free := h.free[..p] + h.free[p + 1..], slots := h.slots[h.free[p] := s]))
    ensures h.free[p] !in h.free[..p] + h.free[p + 1..] && h.free[p] !in h.wait
  {
    var after := h.free[..p] + h.free[p + 1..];
    assert forall k :: 0 <= k < |after| ==> after[k] == h.free[if k < p then k else k + 1];
  }

  lemma {:induction false} TakenContents(h: Heap, a: int)
    requires Intact(h.mem, h.slots) && Counted(h, h.slots) && a in h.slots && h.slots[a].kind.Free?
    ensures Intact(h.mem, h.slots - {a})
    ensures Counted(h.(freeBytes := h.freeBytes - h.slots[a].total), h.slots - {a})
  {
    TallyUpdates(h.slots, a, h.slots[a]);
  }

  lemma {:induction false} TakenGeometry(size: nat, slots: map<int, Slot>, grants: seq<Grant>, a: int, s: Slot)
    requires Geometry(size, slots, grants) && a in slots && s.total == slots[a].total
    ensures Geometry(size, slots[a := s], grants)
  {
  }

  lemma {:induction false} TakenKeeps(h: Heap, p: nat)
    requires InvBut(h, {}) && p < |h.free|
    ensures h.free[p] in h.slots && h.slots[h.free[p]].kind.Free? && Rested(h.slots[h.free[p]], h.iter)
    ensures var s := h.slots[h.free[p]];
      InvBut(h.(free := h.free[..p] + h.free[p + 1..], slots := h.slots[h.free[p] := Taken(s)],
                freeBytes := h.freeBytes - s.total), {h.free[p]})
  {
    ListedAreFree(h, p);
    hide Geometry, ListsOk, Intact, CountedOk;
    var a := h.free[p];
    DroppedLists(h, p, Taken(h.slots[a]));
    TakenGeometry(|h.mem|, h.slots, h.grants, a, Taken(h.slots[a]));
    assert h.slots - {} == h.slots;
    TakenContents(h, a);
    ChangedWithout(h.slots, a, Taken(h.slots[a]));
  }

  lemma {:induction false} ChangedWithout(slots: map<int, Slot>, a: int, s: Slot)
    ensures slots[a := s] - {a} == slots - {a}
  {
  }

  lemma {:induction false} ListedAreFree(h: Heap, p: nat)
    requires Lists(h) && p < |h.free|
    ensures h.free[p] in h.slots && h.slots[h.free[p]].kind.Free? && Rested(h.slots[h.free[p]], h.iter)
  {
  }

  /** Taking a free slot: an exact fit that has rested, when there is one; else nothing changes. */
  lemma {:induction false} TakeFreeKeeps(h: Heap, size: nat)
    requires InvBut(h, {})
    ensures var (h', r) := TakeFree(h, size);
      && (r.None? ==> h' == h && forall x :: x in h.free ==> Total(h, x) != size)
      && (r.Some? ==>
            && r.value in h.slots && h.slots[r.value].kind.Free? && h.slots[r.value].total == size
            && Rested(h.slots[r.value], h.iter) && r.value in h.free
            && h' == h.(free := h'.free, slots := h.slots[r.value := Taken(h.slots[r.value])],
                        freeBytes := h.freeBytes - size)
            && InvBut(h', {r.value}))
  {
    hide Geometry, Intact, CountedOk;
    var p := SizePos(h.free, h.slots, size, 0);
    SizePosSplits(h.free, h.slots, size, 0);
    if p < |h.free| && Total(h, h.free[p]) == size {
      hide InvBut, ListsOk;
      TakenKeeps(h, p);
    } else {
      NoFit(h, size, p);
    }
  }

  lemma {:induction false} NoFit(h: Heap, size: nat, p: nat)
    requires AllFree(h.slots, h.free) && BySize(h.slots, h.free) && p <= |h.free|
    requires forall k :: 0 <= k < p ==> h.slots[h.free[k]].total < size
    requires p < |h.free| ==> h.slots[h.free[p]].total > size
    ensures forall x :: x in h.free ==> Total(h, x) != size
  {
    forall x | x in h.free ensures Total(h, x) != size {
      var k :| 0 <= k < |h.free| && h.free[k] == x;
      if k >= p { assert h.slots[h.free[p]].total <= h.slots[h.free[k]].total; }
    }
  }

  // ---------------------------------------------------------------- the whole of get_memory

  /** Slots other than a are as they were; the lists hold only what they held and new slots. */
  ghost predicate OthersKept(h: Heap, h': Heap, r: Option<int>) {
    && (forall b :: b in h.slots && r != Some(b) ==> b in h'.slots && h'.slots[b] == h.slots[b])
    && (forall b :: b in h'.slots && b !in h.slots && r != Some(b) ==> h'.slots[b].seen == 0)
    && (forall x :: x in h'.free || x in h'.wait ==> x in h.free || x in h.wait || x !in h.slots)
  }

  /** What a search for memory leaves: on failure a heap in order; on success a slot of the needed
      size that is either new or was listed as free and has rested. */
  ghost predicate Acquired(h: Heap, h': Heap, need: nat, r: Option<int>) {
    && LevelsOk(h') && h'.mem == h.mem && h'.iter == h.iter && h'.limit == h.limit
    && h'.current == h.current && h'.pointers == h.pointers && h'.given == h.given
    && OthersKept(h, h', r)
    && match r
       case None => InvBut(h', {}) && Slack(h') >= Slack(h)
       case Some(a) =>
         && InvBut(h', {a}) && Slack(h') == Slack(h) + need
         && a in h'.slots && a !in h'.free && a !in h'.wait
         && h'.slots[a].total == need
         && (a in h.slots ==>
               && h.slots[a].kind.Free? && (a in h.free || a in h.wait) && Rested(h.slots[a], h.iter)
               && h'.slots[a] == Taken(h.slots[a]))
         && (a !in h.slots ==> h'.slots[a] == NewSlot(User, need))
  }

  lemma {:induction false} UserNotListed(h: Heap, out: set<int>, a: int)
    requires InvBut(h, out) && a in h.slots && h.slots[a].kind.User?
    ensures a !in h.free && a !in h.wait
  {
  }

  /** use_free_memory: it fails only when nothing listed as free, or ripe, has exactly the size. */
  lemma {:induction false} UseFreeKeeps(h: Heap, size: nat)
    requires InvBut(h, {}) && LevelsOk(h)
    ensures var (h', r) := UseFree(h, size);
      && Acquired(h, h', size, r)
      && (r.None? ==> h' == h.(free := h'.free, wait := h'.wait) && SameLists(h, h')
                      && forall x :: x in h'.free ==> Total(h', x) != size)
  {
    hide InvBut, Promote, TakeFree;
    PromoteKeeps(h);
    TakeFreeKeeps(Promote(h), size);
    var (h', r) := UseFree(h, size);
    if r.Some? {
      UserNotListed(h', {r.value}, r.value);
      DroppedFrom(Promote(h), size);
    }
  }

  lemma {:induction false} DroppedFrom(h: Heap, size: nat)
    ensures forall x :: x in TakeFree(h, size).0.free ==> x in h.free
  {
  }

  /** Memory found after a step that only moved waiters and made new slots. */
  lemma {:induction false} AcquiredLater(h: Heap, h1: Heap, h2: Heap, need: nat, r: Option<int>)
    requires Grows(h.(wait := h1.wait), h1) && OthersKept(h, h1, None)
    requires Acquired(h1, h2, need, r)
    requires Slack(h1) >= Slack(h) && (r.Some? ==> Slack(h1) == Slack(h))
    ensures Acquired(h, h2, need, r)
  {
    hide InvBut, LevelsOk;
  }

  lemma {:induction false} FailedReuse(h: Heap, h1: Heap, h2: Heap)
    requires h1 == h.(free := h1.free, wait := h1.wait) && SameLists(h, h1)
    requires Grows(h1, h2) && FreeGains(h1, h2)
    ensures Grows(h.(wait := h2.wait), h2) && OthersKept(h, h2, None)
  {
  }

  lemma {:induction false} ChunkForFits(size: nat, from: nat)
    requires ChunkSize(from) && size <= BLOCK / 2
    decreases BLOCK - from
    ensures ChunkSize(ChunkFor(size, from))
  {
    if size > from { ChunkForFits(size, 2 * from); }
  }

  /** get_divided_memory: after a block is cut up, the second search cannot fail. */
  lemma {:induction false} GetDividedKeeps(h: Heap, size: nat)
    requires InvBut(h, {}) && LevelsOk(h) && size <= BLOCK / 2
    ensures var (h', r) := GetDivided(h, size);
      Acquired(h, h', ChunkFor(size, SMALLEST_CHUNK), r)
  {
    hide InvBut, LevelsOk, UseFree, CreateDivided;
    var need := ChunkFor(size, SMALLEST_CHUNK);
    ChunkForFits(size, SMALLEST_CHUNK);
    UseFreeKeeps(h, need);
    var (h1, r1) := UseFree(h, need);
    if r1.None? {
      CreateDividedKeeps(h1, need);
      var (h2, ok) := CreateDivided(h1, need);
      FailedReuse(h, h1, h2);
      if ok {
        UseFreeKeeps(h2, need);
        var (h3, r3) := UseFree(h2, need);
        SecondSearchFinds(h, need);
        AcquiredLater(h, h2, h3, need, r3);
      }
    }
  }

  /** After a failed search and a new block cut up, the second search finds a chunk. */
  lemma {:induction false} SecondSearchFinds(h: Heap, need: nat)
    requires InvBut(h, {}) && LevelsOk(h) && ChunkSize(need)
    ensures var (h1, r1) := UseFree(h, need);
      var (h2, ok) := CreateDivided(h1, need);
      r1.None? && ok ==> UseFree(h2, need).1.Some?
  {
    assert need > 0;
    hide InvBut, LevelsOk, UseFree, CreateDivided, ChunkSize;
    UseFreeKeeps(h, need);
    var (h1, r1) := UseFree(h, need);
    if r1.None? {
      CreateDividedKeeps(h1, need);
      var (h2, ok) := CreateDivided(h1, need);
      if ok { UseFreeKeeps(h2, need); }
    }
  }

  /** The total a request of `size` bytes is served with. */
  function TotalFor(size: nat): nat
  {
    if size <= BLOCK / 2 then ChunkFor(size, SMALLEST_CHUNK) else BlocksFor(size) * BLOCK
  }

  /** The slot left of a failed search is too small for get_memory to look a second time. */
  lemma {:induction false} NoRetry(h: Heap, size: nat)
    requires InvBut(h, {}) && size > BLOCK / 2
    ensures RetryLarger(h, size, BlocksFor(size) * BLOCK) == (h, None)
  {
    hide Intact, CountedOk, InPlace;
    var need := BlocksFor(size) * BLOCK;
    var p := SizePos(h.free, h.slots, need, 0);
    SizePosSplits(h.free, h.slots, need, 0);
    if p > 0 {
      var t := h.slots[h.free[p - 1]].total;
      assert InPlace(|h.mem|, h.free[p - 1], t);
      SmallerFits(|h.mem|, h.free[p - 1], t, size);
    }
  }

  lemma {:induction false} SmallerFits(n: nat, a: int, t: nat, size: nat)
    requires InPlace(n, a, t) && size > BLOCK / 2 && t < BlocksFor(size) * BLOCK
    ensures t <= size
  {
    if t % BLOCK == 0 {
      assert t == t / BLOCK * BLOCK;
      assert t / BLOCK < BlocksFor(size);
    }
  }

  lemma {:induction false} BigBlocks(n: nat, a: int, size: nat)
    requires RegionOk(n, Grant(a, BlocksFor(size) * BLOCK)) && size > BLOCK / 2
    ensures InPlace(n, a, BlocksFor(size) * BLOCK)
  {
  }

  /** The last resort of get_memory: whole new blocks. */
  lemma {:induction false} NewBlocksKeeps(h: Heap, size: nat)
    requires InvBut(h, {}) && LevelsOk(h) && size > BLOCK / 2
    ensures var need := BlocksFor(size) * BLOCK;
      var (h1, mem) := HeapAlloc(h, need);
      && (mem.None? ==> Acquired(h, h1, need, None))
      && (mem.Some? ==>
            var (h2, ok) := InsertAddress(h1.(userBlocks := h1.userBlocks + BlocksFor(size)), mem.value, User, need);
            Acquired(h, h2, need, if ok then mem else None))
  {
    hide InvBut, Fresh, InsertAddress, InPlace;
    var need := BlocksFor(size) * BLOCK;
    HeapAllocKeeps(h, need, {});
    var (h1, mem) := HeapAlloc(h, need);
    if mem.Some? {
      var a, h2 := mem.value, h1.(userBlocks := h1.userBlocks + BlocksFor(size));
      BigBlocks(|h.mem|, a, size);
      SameCoreKeeps(h1, h2, {});
      FreshSame(h1, h2, a, need);
      InsertAddressKeeps(h2, a, User, need, need);
      var (h3, ok) := InsertAddress(h2, a, User, need);
      if ok { UserNotListed(h3, {a}, a); }
    }
  }

  /** get_memory keeps the heap in order, and serves a request with exactly its total. */
  lemma {:induction false} GetMemoryKeeps(h: Heap, size: nat)
    requires InvBut(h, {}) && LevelsOk(h)
    ensures var (h', r) := GetMemory(h, size);
      && Acquired(h, h', TotalFor(size), r)
      && (r.Some? && h.limit > 0 ==> h.given + size <= h.limit)
  {
    hide InvBut, LevelsOk, UseFree, GetDivided, InsertAddress, RetryLarger;
    if h.limit > 0 && h.given + size > h.limit {
      SameCoreKeeps(h, Error(h, OverLimit), {});
      SameLevels(h, Error(h, OverLimit));
    } else if size <= BLOCK / 2 {
      GetDividedKeeps(h, size);
    } else {
      var need := BlocksFor(size) * BLOCK;
      UseFreeKeeps(h, need);
      var (h1, r1) := UseFree(h, need);
      if r1.None? {
        NoRetry(h1, size);
        NewBlocksKeeps(h1, size);
        var (h2, r2) := GetMemory(h, size);
        FailedReuse(h, h1, h1.(free := h1.free));
        AcquiredLater(h, h1, h2, need, r2);
      }
    }
  }

  lemma {:induction false} SameLevels(h: Heap, h': Heap)
    requires LevelsOk(h) && h'.levels == h.levels
    ensures LevelsOk(h')
  {
  }
}
