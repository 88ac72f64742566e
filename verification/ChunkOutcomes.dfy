/** What a caller is told: every way a free or realloc can be refused, the overwrites that a free
    detects, and memory that is used again before the system is asked for more. */
module ChunkOutcomes {
  import opened Basics
  import opened ChunkModel
  import opened ChunkInvariant
  import opened ChunkContents
  import opened ChunkOperations
  import opened ChunkRuns

  /** Where the user area of a slot begins. */
  function Start(a: int, s: Slot): int
  {
    a + if s.fence && s.valloc then BLOCK else if s.fence then 8 else 0
  }

  /** No slot in use holds the address. */
  ghost predicate Unused(h: Heap, p: int) {
    forall a :: a in h.slots && a <= p < a + h.slots[a].total ==> h.slots[a].kind.Free?
  }

  // ---------------------------------------------------------------- the checks

  /** Some byte of [from, to) is not b. */
  ghost predicate Differs(mem: seq<Byte>, from: int, to: int, b: Byte) {
    exists x :: 0 <= x < |mem| && from <= x < to && mem[x] != b
  }

  /** Some byte from `at` on is not what should be written there. */
  ghost predicate Broken(mem: seq<Byte>, at: int, bytes: seq<Byte>) {
    exists k :: 0 <= k < |bytes| && 0 <= at + k < |mem| && mem[at + k] != bytes[k]
  }

  /** Which overwrite is told: the blanked block in front of a fenced valloc, then the bottom fence, then
      the top fence, then the blanked bytes behind. */
  lemma {:induction false} OverwritesTold(mem: seq<Byte>, a: int, s: Slot)
    requires Inside(mem, a, s) && Fits(s)
    ensures var start := Start(a, s);
      var end := start + s.user;
      OverwriteError(mem, a, s) ==
        if s.fence && s.valloc && s.blank && Differs(mem, a, a + BLOCK - 8, 0xDA) then FreeOverwritten
        else if s.fence && Broken(mem, start - 8, [0x1B, 0xAB, 0xC0, 0xC0, 0x1B, 0xAB, 0xC0, 0xC0]) then UnderFence
        else if s.fence && Broken(mem, end, [0x69, 0xDE, 0xCA, 0xFA]) then OverFence
        else if s.blank && Differs(mem, if s.fence then end + 4 else end, a + s.total, 0xDA) then FreeOverwritten
        else NoError
  {
    var i := InfoOf(a, s);
    assert !BytesAre(mem, a, i.fenceBottom, ALLOC_BLANK) <==> Differs(mem, a, i.fenceBottom, 0xDA);
    assert !BytesMatch(mem, i.fenceBottom, FENCE_BOTTOM) <==> Broken(mem, i.fenceBottom, FENCE_BOTTOM);
    assert !BytesMatch(mem, i.fenceTop, FENCE_TOP) <==> Broken(mem, i.fenceTop, FENCE_TOP);
    var above := if s.fence then i.fenceTop + TOP else i.userBounds;
    assert !BytesAre(mem, above, i.allocBounds, ALLOC_BLANK) <==> Differs(mem, above, i.allocBounds, 0xDA);
    hide BytesAre, BytesMatch, Differs, Broken, Fits;
  }

  /** When check_used_slot passes: every condition it looks at, and nothing else. */
  lemma {:induction false} UsedSlotPasses(mem: seq<Byte>, iter: nat, a: int, s: Slot, p: int)
    requires Inside(mem, a, s) && Fits(s)
    ensures UsedSlotError(mem, iter, a, s, p) == NoError <==>
      && !s.kind.Free? && p == Start(a, s) && s.user <= 0x1000_0000
      && (s.total <= BLOCK / 2 || s.total % BLOCK == 0)
      && (s.valloc ==> p % BLOCK == 0 && s.total >= BLOCK)
      && GuardsHold(mem, a, s) && s.seen <= 2 * iter + 1
  {
    StartOfUser(a, s);
    DetectorExact(mem, a, s);
    hide OverwriteError, GuardsHold, InfoOf, Fits;
  }

  /** When check_free_slot passes. */
  lemma {:induction false} FreeSlotPasses(mem: seq<Byte>, iter: nat, a: int, s: Slot)
    ensures FreeSlotError(mem, iter, a, s) == NoError <==>
      && s.kind.Free? && s.seen <= 2 * iter + 1
      && (s.blank ==> forall x :: 0 <= x < |mem| && a <= x < a + s.total ==> mem[x] == 0xDF)
  {
  }

  // ---------------------------------------------------------------- free

  /** free(NULL) does nothing, or sets the error number if that is asked for. */
  lemma {:induction false} FreeOfNull(h: Heap, flags: Flags, onFreeList: bool)
    requires !h.corrupt
    ensures ChunkFree(h, flags, 0, onFreeList) == (if flags.errorFreeNull then h.(errno := IsNull) else h, false)
  {
  }

  /** A pointer into a live slot that is not where its area begins is refused, with one error number in
      front of the area and another inside or behind it. */
  lemma {:induction false} FreeOfInside(h: Heap, flags: Flags, a: int, p: int, onFreeList: bool)
    requires Inv(h) && Live(h, a) && a <= p < a + h.slots[a].total && p != Start(a, h.slots[a])
    ensures ChunkFree(h, flags, p, onFreeList)
      == (h.(errno := if p < Start(a, h.slots[a]) then WouldOverwrite else NotStartBlock), false)
  {
    StartOfUser(a, h.slots[a]);
    SlotInPlace(h, a, {});
    FindUsedIs(h, a, p);
    assert !h.corrupt;
    hide InvBut, FindUsed, OverwriteError;
  }

  /** A pointer that no slot in use holds is refused.  In a waiting slot it is already free if it is
      where the user area would begin now; elsewhere the search of the free list decides. */
  lemma {:induction false} FreeOfUnused(h: Heap, flags: Flags, p: int, onFreeList: bool)
    requires Inv(h) && p != 0 && Unused(h, p)
    ensures var (h', ok) := ChunkFree(h, flags, p, onFreeList);
      && !ok && h' == h.(errno := h'.errno)
      && (forall a :: a in h.wait && a in h.slots && a <= p < a + h.slots[a].total ==>
            h'.errno == if p == Start(a, h.slots[a]) then AlreadyFree else NotFound)
      && ((forall a :: a in h.wait && a in h.slots ==> !(a <= p < a + h.slots[a].total)) ==>
            h'.errno == if onFreeList then AlreadyFree else NotFound)
  {
    assert FindUsed(h, p) == None;
    assert !h.corrupt;
    forall a | a in h.wait && a in h.slots && a <= p < a + h.slots[a].total
      ensures FindWaiting(h, p, 0) == Some(a) && InfoOf(a, h.slots[a]).userStart == Start(a, h.slots[a])
    {
      assert h.wait[0..] == h.wait;
      FindWaitingIs(h, a, p, 0, {});
      StartOfUser(a, h.slots[a]);
    }
    if forall a :: a in h.wait && a in h.slots ==> !(a <= p < a + h.slots[a].total) {
      NoneWaits(h, p, 0);
    }
    WaitersHaveSlots(h, p);
    hide InvBut, FindUsed, FindWaiting, InfoOf;
  }

  lemma {:induction false} NoneWaits(h: Heap, p: int, i: nat)
    requires i <= |h.wait| && forall a :: a in h.wait && a in h.slots ==> !(a <= p < a + h.slots[a].total)
    decreases |h.wait| - i
    ensures FindWaiting(h, p, i) == None
  {
    if i < |h.wait| { NoneWaits(h, p, i + 1); }
  }

  lemma {:induction false} WaitersHaveSlots(h: Heap, p: int)
    requires Inv(h)
    ensures FindWaiting(h, p, 0).Some? ==>
      var a := FindWaiting(h, p, 0).value; a in h.wait && a in h.slots && a <= p < a + h.slots[a].total
  {
    hide InvBut;
    WaiterHolds(h, p, 0);
  }

  lemma {:induction false} WaiterHolds(h: Heap, p: int, i: nat)
    requires i <= |h.wait|
    decreases |h.wait| - i
    ensures FindWaiting(h, p, i).Some? ==>
      var a := FindWaiting(h, p, i).value; a in h.wait && a in h.slots && a <= p < a + h.slots[a].total
  {
    if i < |h.wait| && !Holds(h, h.wait[i], p) { WaiterHolds(h, p, i + 1); }
  }

  /** Whatever was scribbled over memory, the free of a live pointer goes through if and only if every
      guarded byte of its slot is what was written there; otherwise it is refused, and says which. */
  lemma {:induction false} FreeDetects(h: Heap, flags: Flags, a: int, onFreeList: bool, mem: seq<Byte>)
    requires Sound(h) && Live(h, a) && |mem| == |h.mem|
    ensures Inside(mem, a, h.slots[a])
    ensures var (t, p) := (Tick(h).(mem := mem), Start(a, h.slots[a]));
      var (h', ok) := ChunkFree(t, flags, p, onFreeList);
      && (ok <==> GuardsHold(mem, a, h.slots[a]))
      && (ok ==> Freed(t, h', flags, a))
      && (!ok ==> h' == t.(errno := h'.errno) && h'.errno in [UnderFence, OverFence, FreeOverwritten])
  {
    var t, p := Tick(h).(mem := mem), Start(a, h.slots[a]);
    LiveInPlace(h, a);
    SameHolder(h, t, a, p);
    ChecksPassed(t, a, p);
    DetectorExact(mem, a, h.slots[a]);
    assert !h.corrupt;
    hide Sound, InPlace, Fits, InfoOf, GuardsHold, OverwriteError, UsedSlotError, FindUsed, Start, ChunkFree, Freed;
    FreeGoesThrough(t, flags, a, p, onFreeList);
  }

  lemma {:induction false} LiveInPlace(h: Heap, a: int)
    requires Sound(h) && Live(h, a)
    ensures var s, p := h.slots[a], Start(a, h.slots[a]);
      && InPlace(|h.mem|, a, s.total) && Inside(h.mem, a, s) && Fits(s) && s.user <= LARGEST_ALLOCATION
      && p == InfoOf(a, s).userStart && p > 0 && (s.valloc ==> p % BLOCK == 0)
      && Holds(h, a, p) && s.seen <= 2 * h.iter
  {
    UserFits(h, a, {});
    PointerAligned(|h.mem|, a, h.slots[a]);
    StartOfUser(a, h.slots[a]);
    SeenOf(h, a, 2 * h.iter);
    hide InvBut, LevelsOk, SeenUpTo, OverwriteError;
  }

  lemma {:induction false} FreeGoesThrough(h: Heap, flags: Flags, a: int, p: int, onFreeList: bool)
    requires FindUsed(h, p) == Some(a) && a in h.slots && p != 0 && !h.corrupt && Inside(h.mem, a, h.slots[a])
    requires UsedSlotError(h.mem, h.iter, a, h.slots[a], p) != AddressList
    ensures var e := UsedSlotError(h.mem, h.iter, a, h.slots[a], p);
      var (h', ok) := ChunkFree(h, flags, p, onFreeList);
      && (ok <==> e == NoError) && (ok ==> Freed(h, h', flags, a)) && (!ok ==> h' == h.(errno := e))
  {
    ReleaseFrees(h, flags, a);
    hide FindUsed, UsedSlotError, Release, Freed;
  }

  lemma {:induction false} SameHolder(h: Heap, t: Heap, a: int, p: int)
    requires Inv(h) && Live(h, a) && Holds(h, a, p) && t.slots == h.slots
    ensures FindUsed(t, p) == Some(a)
  {
    hide InvBut;
    forall b | Used(t, b) && Holds(t, b, p) ensures b == a {
      HolderUnique(h, a, b, p, {});
    }
    assert Used(t, a) && Holds(t, a, p);
  }

  /** Of the checks before a free only those of the guards can fail for a live pointer. */
  lemma {:induction false} ChecksPassed(t: Heap, a: int, p: int)
    requires a in t.slots && t.slots[a].kind.User? && p == InfoOf(a, t.slots[a]).userStart
    requires InPlace(|t.mem|, a, t.slots[a].total) && Fits(t.slots[a]) && t.slots[a].user <= LARGEST_ALLOCATION
    requires t.slots[a].valloc ==> p % BLOCK == 0
    requires t.slots[a].seen <= 2 * t.iter + 1
    ensures UsedSlotError(t.mem, t.iter, a, t.slots[a], p) == OverwriteError(t.mem, a, t.slots[a])
    ensures OverwriteError(t.mem, a, t.slots[a]) in [NoError, UnderFence, OverFence, FreeOverwritten]
  {
  }

  // ---------------------------------------------------------------- realloc

  /** realloc of NULL and of a pointer that no slot in use holds: refused, with their own error numbers. */
  lemma {:induction false} ReallocOfNothing(h: Heap, flags: Flags, p: int, size: nat, func: Func, onFreeList: bool)
    requires Inv(h) && (p == 0 || Unused(h, p))
    ensures ChunkRealloc(h, flags, p, size, func, onFreeList)
      == (h.(errno := if p == 0 then IsNull else NotFound), None)
  {
    assert !h.corrupt;
    assert p == 0 || FindUsed(h, p) == None;
    hide InvBut, FindUsed;
  }

  /** realloc does not ask for the start of an area: in place, any address in the slot will do.  If it
      has to move, only the start will: any other pointer gets NULL, and the new slot that was handed out
      for it stays live for good, with nobody to know of it. */
  lemma {:induction false} ReallocOfInside(h: Heap, flags: Flags, a: int, p: int, size: nat, func: Func,
                                           onFreeList: bool)
    requires Sound(h) && Live(h, a) && size <= LARGEST_ALLOCATION
    requires a <= p < a + h.slots[a].total && p != Start(a, h.slots[a])
    ensures var t := Tick(h);
      var (h', r) := ChunkRealloc(t, flags, p, size, func, onFreeList);
      && (!MustMove(flags, a, h.slots[a], size) ==>
            (h', r) == ChunkRealloc(t, flags, Start(a, h.slots[a]), size, func, onFreeList))
      && (MustMove(flags, a, h.slots[a], size) ==>
            && r == None && a in h'.slots && h'.slots[a] == h.slots[a]
            && (ChunkMalloc(t, flags, size, func, 0).1.Some? ==>
                  && h'.pointers == h.pointers + 1 && h'.current == h.current + size
                  && exists b :: b != a && Live(h', b) && h'.slots[b].user == size && !(b in h.slots && Live(h, b))))
  {
    var t, s := Tick(h), h.slots[a];
    TickKeeps(h);
    SeenOf(h, a, 2 * h.iter);
    MovesWhenItMust(flags, a, s, size);
    StartOfUser(a, s);
    StartHeld(h, a);
    AreaInside(h, a);
    FindUsedIs(t, a, p);
    FindUsedIs(t, a, Start(a, s));
    hide Sound, InvBut, LevelsOk, FindUsed, Resized, ChunkMalloc, ChunkFree, InfoOf, Moves, MustMove, MovedTo;
    if Moves(flags, a, s, size) {
      StrayRealloc(t, flags, a, p, size, func, onFreeList);
    }
  }

  lemma {:induction false} StrayRealloc(h: Heap, flags: Flags, a: int, p: int, size: nat, func: Func, onFreeList: bool)
    requires Inv(h) && LevelsOk(h) && Live(h, a) && FindUsed(h, p) == Some(a) && p != 0
    requires a <= p < a + h.slots[a].total && p != Start(a, h.slots[a]) && Moves(flags, a, h.slots[a], size)
    ensures var (h', r) := ChunkRealloc(h, flags, p, size, func, onFreeList);
      && r == None && a in h'.slots && h'.slots[a] == h.slots[a]
      && (ChunkMalloc(h, flags, size, func, 0).1.Some? ==>
            && h'.pointers == h.pointers + 1 && h'.current == h.current + size
            && exists b :: b != a && Live(h', b) && h'.slots[b].user == size && !(b in h.slots && Live(h, b)))
  {
    hide InvBut, LevelsOk, ChunkMalloc, ChunkFree, SlotGot, Copied, HandedOut, InfoOf, Moves, FindUsed;
    MallocKeeps(h, flags, size, func, 0);
    var (h1, q) := ChunkMalloc(h, flags, size, func, 0);
    if q.Some? {
      var b := SlotGot(h, flags, size, func, 0).value;
      StrayMove(h, h1, flags, a, b, p, q.value, size, func, onFreeList);
    } else {
      UserKept(h, h1, a);
    }
  }

  lemma {:induction false} UserKept(h: Heap, h1: Heap, a: int)
    requires OthersKept(h, h1, None) && a in h.slots
    ensures a in h1.slots && h1.slots[a] == h.slots[a]
  {
  }

  lemma {:induction false} StrayMove(h: Heap, h1: Heap, flags: Flags, a: int, b: int, p: int, q: int, size: nat,
                                     func: Func, onFreeList: bool)
    requires Inv(h) && Inv(h1) && Live(h, a) && HandedOut(h, h1, b, q, flags, size, func, 0)
    requires a <= p < a + h.slots[a].total && p != Start(a, h.slots[a])
    ensures var from, n := InfoOf(a, h.slots[a]).userStart, Min(size, h.slots[a].user);
      && 0 <= from && from + n <= |h1.mem| && 0 <= q && q + n <= |h1.mem|
      && var (h', ok) := ChunkFree(h1.(mem := Copied(h1.mem, from, q, n)), flags, p, onFreeList);
      && !ok && a in h'.slots && h'.slots[a] == h.slots[a]
      && h'.pointers == h.pointers + 1 && h'.current == h.current + size
      && b != a && Live(h', b) && h'.slots[b].user == size && !(b in h.slots && Live(h, b))
  {
    OldSlotSurvives(h, h1, a, b, q, flags, size, func, 0);
    NewArea(h, h1, b, q, flags, size, func);
    AreaInside(h, a);
    AreaInside(h1, b);
    var from, n := InfoOf(a, h.slots[a]).userStart, Min(size, h.slots[a].user);
    hide InvBut, OthersKept, NewBytes, SmallestTotal, Needs, InPlace, InfoOf;
    CopyKeeps(h1, b, from, q, n);
    FreeOfInside(h1.(mem := Copied(h1.mem, from, q, n)), flags, a, p, onFreeList);
    hide ChunkFree, Copied;
  }

  // ---------------------------------------------------------------- memory is used again

  /** A slot of the size needed that is on the free list, or has waited out its delay, is handed out
      before the system is asked for anything. */
  lemma {:induction false} MallocReuses(h: Heap, flags: Flags, size: nat, func: Func, alignment: nat, b: int)
    requires Inv(h) && LevelsOk(h) && size <= LARGEST_ALLOCATION
    requires var need := Needs(flags, size, alignment == BLOCK && func != Calloc);
      && (h.limit > 0 ==> h.given + need <= h.limit)
      && b in h.slots && SmallestTotal(need, h.slots[b].total)
    requires b in h.free || (b in h.wait && h.slots[b].useIter + 20 <= h.iter)
    ensures var (h', r) := ChunkMalloc(h, flags, size, func, alignment);
      && r.Some? && h'.grants == h.grants && h'.userBlocks == h.userBlocks && h'.adminBlocks == h.adminBlocks
      && h'.slots.Keys == h.slots.Keys && h'.freeBytes == h.freeBytes - h.slots[b].total
  {
    var need := Needs(flags, size, alignment == BLOCK && func != Calloc);
    NeedsIt(flags, size, func, alignment);
    TotalForIsSmallest(need);
    OneSmallest(need, TotalFor(need), h.slots[b].total);
    ReuseFinds(h, h.slots[b].total, b);
    hide InvBut, LevelsOk, Needs, NeededSize, UseFree, Hand, SmallestTotal, IsValloc;
    MemoryFound(h, need, h.slots[b].total);
    hide GetMemory, TotalFor;
    HandMemory(GetMemory(h, need).0, flags, size, func, IsValloc(func, alignment), GetMemory(h, need).1);
  }

  lemma {:induction false} MemoryFound(h: Heap, need: nat, total: nat)
    requires total == TotalFor(need) && UseFree(h, total).1.Some? && (h.limit > 0 ==> h.given + need <= h.limit)
    ensures GetMemory(h, need) == UseFree(h, total)
  {
    hide UseFree, CreateDivided, InsertAddress;
  }

  lemma {:induction false} HandMemory(h: Heap, flags: Flags, size: nat, func: Func, valloc: bool, a: Option<int>)
    ensures a.Some? && a.value in h.slots ==>
      var (h', r) := Hand(h, flags, size, func, valloc, a.value);
      && r.Some? && h'.grants == h.grants && h'.userBlocks == h.userBlocks && h'.adminBlocks == h.adminBlocks
      && h'.slots.Keys == h.slots.Keys && h'.freeBytes == h.freeBytes
  {
    hide Cleared;
  }

  lemma {:induction false} OneSmallest(need: nat, t: nat, u: nat)
    requires SmallestTotal(need, t) && SmallestTotal(need, u)
    ensures t == u
  {
    if need > BLOCK / 2 {
      assert t - u < BLOCK && u - t < BLOCK;
      assert t == t / BLOCK * BLOCK && u == u / BLOCK * BLOCK;
    }
  }

  lemma {:induction false} ReuseFinds(h: Heap, total: nat, b: int)
    requires Inv(h) && LevelsOk(h) && b in h.slots && h.slots[b].total == total
    requires b in h.free || (b in h.wait && h.slots[b].useIter + 20 <= h.iter)
    ensures var (h', r) := UseFree(h, total);
      && r.Some? && r.value in h'.slots && h'.slots.Keys == h.slots.Keys
      && h' == h.(free := h'.free, wait := h'.wait, slots := h'.slots, freeBytes := h.freeBytes - total)
  {
    hide InvBut, LevelsOk, Promote, TakeFree;
    PromoteKeeps(h);
    ListedAfterPromote(h, b);
    TakeFreeKeeps(Promote(h), total);
    assert Total(Promote(h), b) == total;
    var (h', r) := UseFree(h, total);
    assert r.Some?;
    assert h'.slots.Keys == h.slots.Keys;
  }

  lemma {:induction false} ListedAfterPromote(h: Heap, b: int)
    requires Inv(h) && b in h.slots && (b in h.free || (b in h.wait && h.slots[b].useIter + 20 <= h.iter))
    ensures b in Promote(h).free
  {
    PromoteKeeps(h);
    var h' := Promote(h);
    hide Promote, Geometry, Intact, CountedOk;
    assert b in h'.free || b in h'.wait;
  }

  // ---------------------------------------------------------------- slot records

  /** A slot record is an unused one of the level drawn, of which there is one less then; or there is a
      new block of records of that level, itself a slot of the manager, with two of its records used. */
  lemma {:induction false} RecordIsTaken(h: Heap)
    requires InvBut(h, {}) && LevelsOk(h)
    ensures var (h', ok) := GetSlot(h);
      var level := if h.levels == [] then 0 else h.levels[0];
      && h'.levels == (if h.levels == [] then [] else h.levels[1..])
      && (level in h.spare && h.spare[level] > 0 ==>
            && ok && h' == h.(levels := h'.levels, spare := h.spare[level := h.spare[level] - 1]))
      && (!(level in h.spare && h.spare[level] > 0) ==>
            && (ok <==> h.grants != [] && h.grants[0].size >= 32768)
            && (ok ==>
                  && h'.slots == h.slots[h.grants[0].base := Slot(32768, Admin, 0, false, false, false, 0, 0)]
                  && h'.adminBlocks == h.adminBlocks + 1 && h'.grants == h.grants[1..]
                  && h'.spare == h.spare[level := (32768 - 29) / (56 + 8 * level) - 2])
            && (!ok ==> h' == h.(levels := h'.levels, grants := h'.grants, errno := AllocFailed)))
  {
    var level := if h.levels == [] then 0 else h.levels[0];
    RecordsFit(level);
    if h.grants != [] && h.grants[0].size >= BLOCK { NotUsedYet(h); }
    assert !h.corrupt && (level == 0 || level <= 30);
    hide InvBut, LevelsOk;
    NewBlockOfRecords(h.(levels := if h.levels == [] then [] else h.levels[1..]), level);
  }

  lemma {:induction false} NewBlockOfRecords(h: Heap, level: nat)
    requires !h.corrupt && RecordsPerBlock(level) >= 2
    requires h.grants != [] && h.grants[0].size >= 32768 ==> h.grants[0].base !in h.slots
    ensures var (h', ok) := NewRecords(h, level);
      && (ok <==> h.grants != [] && h.grants[0].size >= 32768)
      && (ok ==>
            && h'.slots == h.slots[h.grants[0].base := Slot(32768, Admin, 0, false, false, false, 0, 0)]
            && h'.adminBlocks == h.adminBlocks + 1 && h'.grants == h.grants[1..] && h'.levels == h.levels
            && h'.spare == h.spare[level := (32768 - 29) / (56 + 8 * level) - 2])
      && (!ok ==> h' == h.(grants := h'.grants, errno := AllocFailed))
  {
  }

  lemma {:induction false} NotUsedYet(h: Heap)
    requires InvBut(h, {}) && h.grants != [] && h.grants[0].size >= BLOCK
    ensures h.grants[0].base !in h.slots
  {
    GrantTaken(|h.mem|, h.slots, h.grants);
    hide Lists, Intact, Counted;
  }
}
