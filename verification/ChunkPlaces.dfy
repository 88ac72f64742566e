/** Where slots are: each in exactly one place, none ever lost except by a free that forbids reuse,
    and freed ones out of every client's reach. */
module ChunkPlaces {
  import opened Basics
  import opened ChunkModel
  import opened ChunkInvariant
  import opened ChunkContents
  import opened ChunkOperations
  import opened ChunkRuns

  // ---------------------------------------------------------------- one place each

  /** A free slot on no list: it was freed under never-reuse. */
  ghost predicate Retired(h: Heap, a: int) {
    a in h.slots && h.slots[a].kind.Free? && a !in h.free && a !in h.wait
  }

  /** Every slot, the manager's own blocks aside, is live, listed as free, waiting or retired, and in
      one of these places only; what is in the first three places is a slot; and no two slots share
      a byte. */
  lemma {:induction false} EverySlotInOnePlace(h: Heap, a: int)
    requires Sound(h)
    ensures a in h.slots && !h.slots[a].kind.Admin? <==> Live(h, a) || a in h.free || a in h.wait || Retired(h, a)
    ensures Live(h, a) ==> a !in h.free && a !in h.wait && !Retired(h, a)
    ensures a in h.free ==> a !in h.wait && !Retired(h, a)
    ensures a in h.wait ==> !Retired(h, a)
    ensures multiset(h.free + h.wait)[a] <= 1
    ensures forall b :: a in h.slots && b in h.slots && a != b ==> Apart(a, h.slots[a].total, b, h.slots[b].total)
  {
    hide LevelsOk, SeenUpTo, Intact, CountedOk, InPlace, GrantsApart;
    OnceEach(h.free, a);
    OnceEach(h.wait, a);
  }

  lemma {:induction false} OnceEach(s: seq<int>, a: int)
    requires NoRepeats(s)
    ensures multiset(s)[a] == if a in s then 1 else 0
  {
    if s != [] {
      assert s == s[..|s| - 1] + [s[|s| - 1]];
      OnceEach(s[..|s| - 1], a);
    }
  }

  // ---------------------------------------------------------------- no slot is lost

  /** Every free slot is on a list, those in `out` excepted. */
  ghost predicate Listed(h: Heap, out: set<int>) {
    forall a :: a in h.slots && h.slots[a].kind.Free? ==> a in h.free || a in h.wait || a in out
  }

  lemma {:induction false} InsertFreeListed(h: Heap, a: int, out: set<int>)
    requires Listed(h, out + {a})
    ensures Listed(InsertFree(h, a), out)
  {
    var p := SizePos(h.free, h.slots, Total(h, a), 0);
    assert h.free == h.free[..p] + h.free[p..];
  }

  lemma {:induction false} GetSlotListed(h: Heap, out: set<int>)
    requires Listed(h, out)
    ensures Listed(GetSlot(h).0, out)
  {
  }

  lemma {:induction false} InsertAddressListed(h: Heap, a: int, kind: Kind, total: nat, out: set<int>)
    requires Listed(h, out)
    ensures Listed(InsertAddress(h, a, kind, total).0, out)
  {
    hide GetSlot;
    GetSlotListed(h, out);
    var (h1, ok) := GetSlot(h);
    var h2 := h1.(slots := h1.slots[a := Slot(total, kind, 0, false, false, false, 0, 0)]);
    if kind.Free? {
      InsertFreeListed(h2, a, out);
    }
  }

  lemma {:induction false} MakeChunksListed(h: Heap, a: int, last: int, div: nat, out: set<int>)
    requires div > 0 && Listed(h, out)
    decreases if last < a then 0 else last - a + 1
    ensures Listed(MakeChunks(h, a, last, div).0, out)
  {
    hide InsertAddress;
    if a <= last {
      InsertAddressListed(h, a, Free, div, out);
      var (h1, ok) := InsertAddress(h, a, Free, div);
      if ok {
        MakeChunksListed(h1.(freeBytes := h1.freeBytes + div), a + div, last, div, out);
      }
    }
  }

  lemma {:induction false} PromoteListed(h: Heap, out: set<int>)
    requires Listed(h, out)
    decreases |h.wait|
    ensures Listed(Promote(h), out)
  {
    hide InsertFree;
    if h.wait != [] && Ripe(h, h.wait[0]) {
      assert h.wait == [h.wait[0]] + h.wait[1..];
      var h1 := h.(wait := h.wait[1..]);
      InsertFreeListed(h1, h.wait[0], out);
      assert InsertFree(h1, h.wait[0]).wait == h1.wait by { InsertFreeWait(h1, h.wait[0]); }
      PromoteListed(InsertFree(h1, h.wait[0]), out);
    }
  }

  lemma {:induction false} InsertFreeWait(h: Heap, a: int)
    ensures InsertFree(h, a).wait == h.wait
  {
  }

  lemma {:induction false} UseFreeListed(h: Heap, size: nat, out: set<int>)
    requires Listed(h, out)
    ensures Listed(UseFree(h, size).0, out)
  {
    hide Promote;
    PromoteListed(h, out);
    var h1 := Promote(h);
    var p := SizePos(h1.free, h1.slots, size, 0);
    if p < |h1.free| {
      assert h1.free == h1.free[..p] + [h1.free[p]] + h1.free[p + 1..];
    }
  }

  lemma {:induction false} GetDividedListed(h: Heap, size: nat, out: set<int>)
    requires Listed(h, out)
    ensures Listed(GetDivided(h, size).0, out)
  {
    hide UseFree, MakeChunks;
    var need := ChunkFor(size, SMALLEST_CHUNK);
    UseFreeListed(h, need, out);
    var h1 := UseFree(h, need).0;
    var (h2, mem) := HeapAlloc(h1, BLOCK);
    if mem.Some? {
      MakeChunksListed(h2.(userBlocks := h2.userBlocks + 1), mem.value, mem.value + BLOCK - need, need, out);
      UseFreeListed(CreateDivided(h1, need).0, need, out);
    }
  }

  lemma {:induction false} GetMemoryListed(h: Heap, size: nat, out: set<int>)
    requires Listed(h, out)
    ensures Listed(GetMemory(h, size).0, out)
  {
    hide UseFree, GetDivided, InsertAddress;
    GetDividedListed(h, size, out);
    var need := BlocksFor(size) * BLOCK;
    UseFreeListed(h, need, out);
    var h1 := UseFree(h, need).0;
    UseFreeListed(h1, need, out);
    var h2 := RetryLarger(h1, size, need).0;
    var (h3, mem) := HeapAlloc(h2, need);
    if mem.Some? {
      InsertAddressListed(h3.(userBlocks := h3.userBlocks + BlocksFor(size)), mem.value, User, need, out);
    }
  }

  lemma {:induction false} MallocListed(h: Heap, flags: Flags, size: nat, func: Func, alignment: nat, out: set<int>)
    requires Listed(h, out)
    ensures Listed(ChunkMalloc(h, flags, size, func, alignment).0, out)
  {
    hide GetMemory, Cleared;
    GetMemoryListed(h, NeededSize(flags, size, IsValloc(func, alignment)), out);
  }

  lemma {:induction false} ReleaseListed(h: Heap, flags: Flags, a: int, out: set<int>)
    requires Listed(h, out)
    ensures Listed(Release(h, flags, a), if flags.neverReuse then out + {a} else out)
  {
    hide Filled;
  }

  /** What a call may retire: the slot it frees, and that only under never-reuse. */
  ghost function MayRetire(h: Heap, flags: Flags, p: int): set<int>
  {
    var a := FindUsed(h, p);
    if flags.neverReuse && a.Some? then {a.value} else {}
  }

  lemma {:induction false} FreeListed(h: Heap, flags: Flags, p: int, onFreeList: bool, out: set<int>)
    requires Listed(h, out)
    ensures Listed(ChunkFree(h, flags, p, onFreeList).0, out + MayRetire(h, flags, p))
  {
    hide FindUsed, UsedSlotError, NotUsedError, Release;
    var a := FindUsed(h, p);
    if a.Some? {
      ReleaseListed(h, flags, a.value, out);
    }
  }

  lemma {:induction false} ResizeListed(h: Heap, flags: Flags, a: int, size: nat, func: Func, out: set<int>)
    requires Listed(h, out)
    ensures Listed(Resized(h, flags, a, size, func).0, out)
  {
    hide Cleared;
  }

  lemma {:induction false} ReallocListed(h: Heap, flags: Flags, p: int, size: nat, func: Func, onFreeList: bool,
                                         out: set<int>)
    requires Inv(h) && LevelsOk(h) && !InAdminMemory(h, p) && Listed(h, out)
    ensures Listed(ChunkRealloc(h, flags, p, size, func, onFreeList).0, out + MayRetire(h, flags, p))
  {
    hide InvBut, LevelsOk, FindUsed, ChunkMalloc, ChunkFree, Resized, Copied, InfoOf, Moves, Listed;
    var e := Error(h, if p == 0 then IsNull else NotFound);
    SameListed(h, e, out);
    ListedMore(e, out, MayRetire(h, flags, p));
    var a := FindUsed(h, p);
    if p != 0 && a.Some? && a.value in h.slots {
      ResizeListed(h, flags, a.value, size, func, out);
      ListedMore(Resized(h, flags, a.value, size, func).0, out, MayRetire(h, flags, p));
      MallocListed(h, flags, size, func, 0, out);
      var (h1, q) := ChunkMalloc(h, flags, size, func, 0);
      ListedMore(h1, out, MayRetire(h, flags, p));
      var from, n := InfoOf(a.value, h.slots[a.value]).userStart, Min(size, h.slots[a.value].user);
      if q.Some? && 0 <= from && from + n <= |h1.mem| && 0 <= q.value && q.value + n <= |h1.mem| {
        var h2 := h1.(mem := Copied(h1.mem, from, q.value, n));
        assert Listed(h2, out) by { SameListed(h1, h2, out); }
        FreeListed(h2, flags, p, onFreeList, out);
        SameSlotFound(h, h1, h2, flags, p, size, func);
      }
    }
  }

  lemma {:induction false} ListedMore(h: Heap, out: set<int>, more: set<int>)
    requires Listed(h, out)
    ensures Listed(h, out + more)
  {
  }

  lemma {:induction false} SameListed(h: Heap, h': Heap, out: set<int>)
    requires Listed(h, out) && h'.slots == h.slots && h'.free == h.free && h'.wait == h.wait
    ensures Listed(h', out)
  {
  }

  /** The pointer given to realloc still leads to the same slot after the inner malloc. */
  lemma {:induction false} SameSlotFound(h: Heap, h1: Heap, h2: Heap, flags: Flags, p: int, size: nat, func: Func)
    requires Inv(h) && LevelsOk(h) && !InAdminMemory(h, p) && FindUsed(h, p).Some?
    requires h1 == ChunkMalloc(h, flags, size, func, 0).0 && h2.slots == h1.slots
    ensures FindUsed(h2, p) == FindUsed(h, p)
  {
    hide InvBut, LevelsOk, ChunkMalloc, SlotGot;
    MallocKeeps(h, flags, size, func, 0);
    var a :| Used(h, a) && Holds(h, a, p) && FindUsed(h, p) == Some(a);
    assert h1.slots[a] == h.slots[a];
    FindUsedIs(h1, a, p);
    forall b | Used(h2, b) && Holds(h2, b, p) ensures b == a {
      HolderUnique(h1, a, b, p, {});
    }
    assert Used(h2, a) && Holds(h2, a, p);
  }

  predicate ForbidsReuse(op: Op) {
    match op
    case DoMalloc(_, _, _, _) => false
    case DoFree(flags, _, _) => flags.neverReuse
    case DoRealloc(flags, _, _, _, _) => flags.neverReuse
    case DoWrite(_, _) => false
  }

  /** The slot a call may retire. */
  ghost function RetiredBy(h: Heap, op: Op): set<int>
  {
    match op
    case DoFree(flags, p, _) => MayRetire(Tick(h), flags, p)
    case DoRealloc(flags, p, _, _, _) => MayRetire(Tick(h), flags, p)
    case _ => {}
  }

  lemma {:induction false} StepListed(h: Heap, op: Op, out: set<int>)
    requires Sound(h) && Legal(h, op) && Listed(h, out)
    ensures Listed(Step(h, op), out + RetiredBy(h, op))
  {
    TickKeeps(h);
    SameListed(h, Tick(h), out);
    hide Listed, Sound, ChunkMalloc, ChunkFree, ChunkRealloc, MayRetire, InvBut, LevelsOk, InAdminMemory;
    match op
    case DoMalloc(flags, size, func, alignment) =>
      MallocListed(Tick(h), flags, size, func, alignment, out);
      ListedMore(Step(h, op), out, {});
    case DoFree(flags, p, onFreeList) => FreeListed(Tick(h), flags, p, onFreeList, out);
    case DoRealloc(flags, p, size, func, onFreeList) =>
      AdminSame(h, Tick(h), p);
      ReallocListed(Tick(h), flags, p, size, func, onFreeList, out);
    case DoWrite(_, _) =>
      SameListed(h, Step(h, op), out);
      ListedMore(Step(h, op), out, {});
  }

  /** Only a free or realloc under never-reuse retires a slot, and only the slot its pointer is in. */
  lemma {:induction false} RetiredOnlyByFree(h: Heap, op: Op, a: int)
    requires Sound(h) && Legal(h, op) && Retired(Step(h, op), a) && !Retired(h, a)
    ensures (op.DoFree? || op.DoRealloc?) && ForbidsReuse(op) && FindUsed(Tick(h), op.p) == Some(a)
  {
    hide Sound, Step, Legal, FindUsed;
    var out := set b | b in h.slots && Retired(h, b);
    StepListed(h, op, out);
  }

  /** In a run that never forbids reuse no slot is lost: every one ever made stays live, listed as
      free, waiting, or the manager's own. */
  lemma {:induction false} NoSlotIsLost(h: Heap, ops: seq<Op>)
    requires Sound(h) && LegalRun(h, ops) && Listed(h, {}) && forall i :: 0 <= i < |ops| ==> !ForbidsReuse(ops[i])
    decreases |ops|
    ensures Listed(Run(h, ops), {}) && forall a :: !Retired(Run(h, ops), a)
  {
    hide Sound, Step, Legal, FindUsed;
    if ops != [] {
      assert !ForbidsReuse(ops[0]);
      StepListed(h, ops[0], {});
      StepKeeps(h, ops[0]);
      NoSlotIsLost(Step(h, ops[0]), ops[1..]);
    }
  }

  // ---------------------------------------------------------------- freed pointers

  /** No live area reaches into slot a. */
  ghost predicate OutOfReach(h: Heap, a: int) {
    forall b, x :: Live(h, b) && InUserArea(b, h.slots[b], x) && a in h.slots ==>
      !(a <= x < a + h.slots[a].total)
  }

  /** A freed slot at rest: its bytes are the free blank or what they were when it was freed, no live
      area reaches into it, and it waits, or is on no list if reuse was forbidden. */
  ghost predicate RestsFreed(h: Heap, h': Heap, flags: Flags, a: int) {
    && a in h.slots && a in h'.slots && h'.slots[a].kind.Free?
    && (h'.slots[a].blank <==> flags.freeBlank || flags.checkBlank)
    && FreedBytes(h.mem, h'.mem, a, a + h.slots[a].total, flags)
    && OutOfReach(h', a)
    && a !in h'.free && (a in h'.wait <==> !flags.neverReuse)
  }

  /** A freed pointer rests, unchanged since the free, in any run that ends before the reuse delay is
      over, and in every run when reuse was forbidden. */
  lemma {:induction false} FreedPointerRests(h: Heap, flags: Flags, a: int, onFreeList: bool, ops: seq<Op>)
    requires Sound(h) && Live(h, a)
    requires var h1 := Step(h, DoFree(flags, InfoOf(a, h.slots[a]).userStart, onFreeList));
      LegalRun(h1, ops) && (flags.neverReuse || Run(h1, ops).iter < h1.iter + REUSE_DELAY)
    ensures var h1 := Step(h, DoFree(flags, InfoOf(a, h.slots[a]).userStart, onFreeList));
      && Freed(Tick(h), h1, flags, a) && LeftAlone(h1, Run(h1, ops), a)
      && RestsFreed(h, h1, flags, a) && RestsFreed(h, Run(h1, ops), flags, a)
  {
    var h1 := Step(h, DoFree(flags, InfoOf(a, h.slots[a]).userStart, onFreeList));
    FreedSlot(h, flags, a, onFreeList);
    TickInv(h);
    ReleaseKeeps(Tick(h), flags, a);
    UserFits(Tick(h), a, {});
    RunKeeps(h1, ops);
    hide Sound, Release, InfoOf, LegalRun, Run, Step, InvBut, Freed, RestsFreed, FreedBytes, OutOfReach, LeftAlone;
    FreedRests(h, h1, flags, a);
    RestingIsLeftAlone(h1, ops, a, Run(h1, ops).iter);
    StillRests(h, h1, ops, flags, a);
  }

  lemma {:induction false} FreedRests(h: Heap, h1: Heap, flags: Flags, a: int)
    requires a in h.slots && h.slots[a].kind.User? && a !in h.free && a !in h.wait
    requires Freed(Tick(h), h1, flags, a) && Sound(h1)
    ensures RestsFreed(h, h1, flags, a) && h1.iter == h.iter + 1
    ensures a in h1.slots && h1.slots[a].useIter == h1.iter && h1.slots[a].seen > 0
    ensures forall until: nat :: flags.neverReuse || until < h1.iter + REUSE_DELAY ==> Resting(h1, a, until)
  {
    FreeIsOutOfReach(h1, a);
    hide Sound, OutOfReach, FreedBytes;
  }

  lemma {:induction false} StillRests(h: Heap, h1: Heap, ops: seq<Op>, flags: Flags, a: int)
    requires Sound(h1) && LegalRun(h1, ops) && Sound(Run(h1, ops)) && RestsFreed(h, h1, flags, a)
    requires LeftAlone(h1, Run(h1, ops), a) && a in h1.slots && h1.slots[a].seen > 0 && h1.slots[a].useIter == h1.iter
    requires a in h.slots && h1.slots[a].total == h.slots[a].total
    requires flags.neverReuse || Run(h1, ops).iter < h1.iter + REUSE_DELAY
    ensures RestsFreed(h, Run(h1, ops), flags, a)
  {
    var h2 := Run(h1, ops);
    if !flags.neverReuse { StaysWaiting(h1, ops, a); }
    hide LegalRun, Run;
    assert h2.slots[a] == h1.slots[a];
    WaitersNotFree(h2, a);
    hide Sound, OutOfReach;
    FreeIsOutOfReach(h2, a);
  }

  lemma {:induction false} WaitersNotFree(h: Heap, a: int)
    requires Sound(h)
    ensures a in h.wait ==> a !in h.free
  {
    hide LevelsOk, SeenUpTo, Geometry, Intact, CountedOk;
  }

  /** A waiting slot that was in use waits on until the reuse delay is over. */
  lemma {:induction false} StaysWaiting(h: Heap, ops: seq<Op>, a: int)
    requires Sound(h) && LegalRun(h, ops) && a in h.wait
    requires a in h.slots && h.slots[a].kind.Free? && h.slots[a].seen > 0
    requires Run(h, ops).iter < h.slots[a].useIter + REUSE_DELAY
    decreases |ops|
    ensures a in Run(h, ops).wait
  {
    hide Sound, Step, Legal, LeftAlone;
    if ops != [] {
      var h1 := Step(h, ops[0]);
      StepKeeps(h, ops[0]);
      IterGrows(h1, ops[1..]);
      StepLeaves(h, ops[0], a, Run(h, ops).iter);
      WaitsAnotherStep(h, ops[0], a);
      StaysWaiting(h1, ops[1..], a);
    }
  }

  lemma {:induction false} WaitsAnotherStep(h: Heap, op: Op, a: int)
    requires Sound(h) && Legal(h, op) && a in h.wait
    requires a in h.slots && h.slots[a].kind.Free? && h.slots[a].seen > 0
    requires LeftAlone(h, Step(h, op), a) && Step(h, op).iter < h.slots[a].useIter + REUSE_DELAY
    ensures a in Step(h, op).wait && a in Step(h, op).slots && Step(h, op).slots[a] == h.slots[a]
  {
    var h1 := Step(h, op);
    StepKeeps(h, op);
    hide Step, Legal;
    if Retired(h1, a) {
      RetiredOnlyByFree(h, op, a);
      UsedFound(Tick(h), op.p);
    }
    hide LevelsOk, SeenUpTo, Geometry, Intact, CountedOk;
    assert a in h1.free ==> Rested(h1.slots[a], h1.iter);
  }

  lemma {:induction false} UsedFound(h: Heap, p: int)
    ensures FindUsed(h, p).Some? ==> Used(h, FindUsed(h, p).value)
  {
  }

  /** A second free of the same pointer, under any flags and after any run that ends while the slot
      waits: already free, except that a fenced valloc, whose alignment mark is gone, is not found. */
  lemma {:induction false} SecondFree(h: Heap, flags: Flags, flags': Flags, a: int, onFreeList: bool,
                                      onFreeList': bool, ops: seq<Op>)
    requires Sound(h) && Live(h, a) && !flags.neverReuse
    requires var h1 := Step(h, DoFree(flags, InfoOf(a, h.slots[a]).userStart, onFreeList));
      LegalRun(h1, ops) && Run(h1, ops).iter < h1.iter + REUSE_DELAY
    ensures var p := InfoOf(a, h.slots[a]).userStart;
      var h2 := Run(Step(h, DoFree(flags, p, onFreeList)), ops);
      var e := if h.slots[a].fence && h.slots[a].valloc then NotFound else AlreadyFree;
      && ChunkFree(Tick(h), flags, p, onFreeList).1
      && ChunkFree(Tick(h2), flags', p, onFreeList') == (Error(Tick(h2), e), false)
  {
    hide Sound, LegalRun, Run, Step, ChunkFree, InfoOf, LeftAlone, OutOfReach, FreedBytes, Retired;
    var p := InfoOf(a, h.slots[a]).userStart;
    var h1 := Step(h, DoFree(flags, p, onFreeList));
    FirstFree(h, flags, a, onFreeList);
    FreedPointerRests(h, flags, a, onFreeList, ops);
    RunKeeps(h1, ops);
    SameSlotAfter(h1, Run(h1, ops), a);
    StillRejected(Run(h1, ops), flags', a, p, onFreeList', h.slots[a]);
  }

  lemma {:induction false} SameSlotAfter(h: Heap, h': Heap, a: int)
    requires LeftAlone(h, h', a)
    ensures a in h.slots && a in h'.slots && h'.slots[a] == h.slots[a]
  {
  }

  lemma {:induction false} FirstFree(h: Heap, flags: Flags, a: int, onFreeList: bool)
    requires Sound(h) && Live(h, a)
    ensures var p := InfoOf(a, h.slots[a]).userStart;
      && ChunkFree(Tick(h), flags, p, onFreeList).1
      && p != 0 && a <= p < a + h.slots[a].total
      && Sound(Step(h, DoFree(flags, p, onFreeList)))
  {
    FreedSlot(h, flags, a, onFreeList);
    TickInv(h);
    SeenOf(h, a, 2 * h.iter);
    hide InvBut, ChunkFree, InfoOf, LevelsOk, SeenUpTo, Step, Release;
    FreeOfLive(Tick(h), flags, a, onFreeList);
    StartHeld(h, a);
    AreaInside(h, a);
  }

  lemma {:induction false} StillRejected(h: Heap, flags: Flags, a: int, p: int, onFreeList: bool, was: Slot)
    requires Sound(h) && a in h.wait && a in h.slots && p != 0 && a <= p < a + was.total
    requires p == InfoOf(a, was).userStart
    requires h.slots[a].total == was.total && h.slots[a].fence == was.fence && !h.slots[a].valloc
    ensures var e := if was.fence && was.valloc then NotFound else AlreadyFree;
      ChunkFree(Tick(h), flags, p, onFreeList) == (Error(Tick(h), e), false)
  {
    TickInv(h);
    assert InfoOf(a, h.slots[a]).userStart == p <==> !(was.fence && was.valloc);
    hide InvBut, LevelsOk, SeenUpTo, ChunkFree, InfoOf;
    FreeOfWaiting(Tick(h), flags, a, p, onFreeList);
  }

  lemma {:induction false} FreeIsOutOfReach(h: Heap, a: int)
    requires Sound(h) && a in h.slots && h.slots[a].kind.Free?
    ensures OutOfReach(h, a)
  {
    hide InvBut, LevelsOk, SeenUpTo;
    forall b, x | Live(h, b) && InUserArea(b, h.slots[b], x) ensures !(a <= x < a + h.slots[a].total) {
      AreaInside(h, b);
      if Holds(h, a, x) { HolderUnique(h, a, b, x, {}); }
    }
  }
}
