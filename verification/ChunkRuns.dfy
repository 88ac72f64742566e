/** Whole runs of the chunk manager under any client that stays inside its own memory. */
module ChunkRuns {
  import opened Basics
  import opened ChunkModel
  import opened ChunkInvariant
  import opened ChunkContents
  import opened ChunkOperations
  import opened ChunkRefusals

  /** One call into the library, or one byte written by the client. */
  datatype Op =
    | DoMalloc(flags: Flags, size: nat, func: Func, alignment: nat)
    | DoFree(flags: Flags, p: int, onFreeList: bool)
    | DoRealloc(flags: Flags, p: int, size: nat, func: Func, onFreeList: bool)
    | DoWrite(at: int, byte: Byte)

  /** Each call counts one iteration before it does anything. */
  function Tick(h: Heap): Heap { h.(iter := h.iter + 1) }

  ghost function Step(h: Heap, op: Op): Heap
  {
    match op
    case DoMalloc(flags, size, func, alignment) => ChunkMalloc(Tick(h), flags, size, func, alignment).0
    case DoFree(flags, p, onFreeList) => ChunkFree(Tick(h), flags, p, onFreeList).0
    case DoRealloc(flags, p, size, func, onFreeList) =>
      ChunkRealloc(Tick(h), flags, p, size, func, onFreeList).0
    case DoWrite(at, byte) => if 0 <= at < |h.mem| then h.(mem := h.mem[at := byte]) else h
  }

  ghost predicate Live(h: Heap, a: int) {
    a in h.slots && h.slots[a].kind.User?
  }

  /** The client keeps away from the manager's own blocks, asks realloc for no more than malloc
      would give, and writes only inside live areas. */
  ghost predicate Legal(h: Heap, op: Op) {
    match op
    case DoMalloc(_, _, _, _) => true
    case DoFree(_, p, _) => !(p in h.slots && h.slots[p].kind.Admin?)
    case DoRealloc(_, p, size, _, _) => size <= LARGEST_ALLOCATION && !InAdminMemory(h, p)
    case DoWrite(at, _) => exists a :: Live(h, a) && InUserArea(a, h.slots[a], at)
  }

  ghost function Run(h: Heap, ops: seq<Op>): Heap
    decreases |ops|
  {
    if ops == [] then h else Run(Step(h, ops[0]), ops[1..])
  }

  ghost predicate LegalRun(h: Heap, ops: seq<Op>)
    decreases |ops|
  {
    ops == [] || (Legal(h, ops[0]) && LegalRun(Step(h, ops[0]), ops[1..]))
  }

  // ---------------------------------------------------------------- safety

  ghost predicate SeenUpTo(h: Heap, n: nat) {
    forall a :: a in h.slots ==> h.slots[a].seen <= n
  }

  ghost predicate Sound(h: Heap) {
    Inv(h) && LevelsOk(h) && SeenUpTo(h, 2 * h.iter)
  }

  /** A heap that has not been used yet. */
  function Start(mem: seq<Byte>, grants: seq<Grant>, levels: seq<nat>, limit: nat): Heap
  {
    Heap(mem, map[], [], [], map[], grants, levels, 0, limit, 0, 0, 0, 0, 0, 0, NoError, false)
  }

  lemma {:induction false} StartIsSound(mem: seq<Byte>, grants: seq<Grant>, levels: seq<nat>, limit: nat)
    requires forall i :: 0 <= i < |grants| ==> RegionOk(|mem|, grants[i])
    requires forall i, j :: 0 <= i < j < |grants| ==>
      Apart(grants[i].base, grants[i].size, grants[j].base, grants[j].size)
    requires forall i :: 0 <= i < |levels| ==> levels[i] <= 30
    ensures Sound(Start(mem, grants, levels, limit))
  {
    var empty: map<int, Slot> := map[];
    assert empty - {} == empty;
    assert forall w: Measure :: Weights(empty, w) == map[];
  }

  lemma {:induction false} TickKeeps(h: Heap)
    requires Sound(h)
    ensures Inv(Tick(h)) && LevelsOk(Tick(h)) && SeenUpTo(Tick(h), 2 * h.iter)
  {
    hide Geometry, Intact, CountedOk;
  }

  lemma {:induction false} MallocSeen(h: Heap, flags: Flags, size: nat, func: Func, alignment: nat, n: nat)
    requires Inv(h) && LevelsOk(h) && SeenUpTo(h, n)
    ensures SeenUpTo(ChunkMalloc(h, flags, size, func, alignment).0, n + 1)
  {
    hide InvBut, LevelsOk, ChunkMalloc, SlotGot, NeededSize, TotalFor, BytesAre, InfoOf;
    MallocKeeps(h, flags, size, func, alignment);
  }

  lemma {:induction false} FreeSeen(h: Heap, flags: Flags, p: int, onFreeList: bool, n: nat)
    requires SeenUpTo(h, n)
    ensures SeenUpTo(ChunkFree(h, flags, p, onFreeList).0, n + 1)
  {
    hide FindUsed, UsedSlotError, NotUsedError;
  }

  lemma {:induction false} ReallocSeen(h: Heap, flags: Flags, p: int, size: nat, func: Func, onFreeList: bool, n: nat)
    requires Inv(h) && LevelsOk(h) && SeenUpTo(h, n)
    ensures SeenUpTo(ChunkRealloc(h, flags, p, size, func, onFreeList).0, n + 2)
  {
    hide InvBut, LevelsOk, ChunkMalloc, ChunkFree, Moves, FindUsed, InfoOf, Cleared, Copied;
    var a := FindUsed(h, p);
    if p != 0 && a.Some? && a.value in h.slots && Moves(flags, a.value, h.slots[a.value], size) {
      MallocSeen(h, flags, size, func, 0, n);
      var from, k := InfoOf(a.value, h.slots[a.value]).userStart, Min(size, h.slots[a.value].user);
      var (h1, q) := ChunkMalloc(h, flags, size, func, 0);
      if q.Some? && 0 <= from && from + k <= |h1.mem| && 0 <= q.value && q.value + k <= |h1.mem| {
        FreeSeen(h1.(mem := Copied(h1.mem, from, q.value, k)), flags, p, onFreeList, n + 1);
      }
    }
  }

  lemma {:induction false} WriteKeeps(h: Heap, a: int, at: int, byte: Byte)
    requires Inv(h) && Live(h, a) && InUserArea(a, h.slots[a], at)
    ensures 0 <= at < |h.mem| && Inv(h.(mem := h.mem[at := byte]))
  {
    AreaInside(h, a);
    AllInside(h, a);
    hide InvBut, Geometry, ListsOk, Intact, CountedOk, SlotFine;
    InvParts(h);
    assert h.slots - {} == h.slots;
    UserWritesKeepIntact(h.mem, h.mem[at := byte], h.slots, a);
    InvFrom(h.(mem := h.mem[at := byte]));
  }

  lemma {:induction false} StepKeeps(h: Heap, op: Op)
    requires Sound(h) && Legal(h, op)
    ensures Sound(Step(h, op))
  {
    hide InvBut, LevelsOk, ChunkMalloc, ChunkFree, ChunkRealloc, SeenUpTo, SlotGot;
    TickKeeps(h);
    match op
    case DoMalloc(flags, size, func, alignment) =>
      MallocKeeps(Tick(h), flags, size, func, alignment);
      MallocSeen(Tick(h), flags, size, func, alignment, 2 * h.iter);
      SeenMore(Step(h, op), 2 * h.iter + 1, 2 * h.iter + 2);
    case DoFree(flags, p, onFreeList) =>
      FreeKeeps(Tick(h), flags, p, onFreeList);
      FreeSeen(Tick(h), flags, p, onFreeList, 2 * h.iter);
      SeenMore(Step(h, op), 2 * h.iter + 1, 2 * h.iter + 2);
    case DoRealloc(flags, p, size, func, onFreeList) =>
      assert !InAdminMemory(Tick(h), p) by { AdminSame(h, Tick(h), p); }
      ReallocKeeps(Tick(h), flags, p, size, func, onFreeList);
      ReallocSeen(Tick(h), flags, p, size, func, onFreeList, 2 * h.iter);
    case DoWrite(at, byte) =>
      var a :| Live(h, a) && InUserArea(a, h.slots[a], at);
      WriteKeeps(h, a, at, byte);
      SameLevels(h, Step(h, op));
      SeenSame(h, Step(h, op), 2 * h.iter);
  }

  lemma {:induction false} SeenMore(h: Heap, n: nat, m: nat)
    requires SeenUpTo(h, n) && n <= m
    ensures SeenUpTo(h, m)
  {
  }

  lemma {:induction false} SeenSame(h: Heap, h': Heap, n: nat)
    requires SeenUpTo(h, n) && h'.slots == h.slots
    ensures SeenUpTo(h', n)
  {
  }

  lemma {:induction false} AdminSame(h: Heap, h': Heap, p: int)
    requires h'.slots == h.slots
    ensures InAdminMemory(h, p) <==> InAdminMemory(h', p)
  {
    assert forall a :: Holds(h, a, p) <==> Holds(h', a, p);
  }

  /** Every run of a well-behaved client keeps the heap sound. */
  lemma {:induction false} RunKeeps(h: Heap, ops: seq<Op>)
    requires Sound(h) && LegalRun(h, ops)
    decreases |ops|
    ensures Sound(Run(h, ops))
  {
    hide Sound, Step, Legal;
    if ops != [] {
      StepKeeps(h, ops[0]);
      RunKeeps(Step(h, ops[0]), ops[1..]);
    }
  }

  /** What soundness means to a client: live areas are disjoint, no list was ever found broken, and
      no check reports any slot, used or free. */
  lemma {:induction false} SoundHeapReportsNothing(h: Heap)
    requires Sound(h)
    ensures !h.corrupt
    ensures forall a, b, x :: Live(h, a) && Live(h, b) && a != b && InUserArea(a, h.slots[a], x) ==>
      !InUserArea(b, h.slots[b], x)
    ensures forall a :: Live(h, a) ==>
      UsedSlotError(h.mem, h.iter, a, h.slots[a], InfoOf(a, h.slots[a]).userStart) == NoError
    ensures forall a :: a in h.slots && h.slots[a].kind.Free? ==> FreeSlotError(h.mem, h.iter, a, h.slots[a]) == NoError
  {
    hide Geometry, ListsOk, CountedOk, OverwriteError, UsedSlotError, InPlace;
    forall a | Live(h, a)
      ensures UsedSlotError(h.mem, h.iter, a, h.slots[a], InfoOf(a, h.slots[a]).userStart) == NoError
    {
      LivePointerPasses(h, a);
    }
    forall a | a in h.slots && h.slots[a].kind.Free? ensures FreeSlotError(h.mem, h.iter, a, h.slots[a]) == NoError {
      assert a in h.slots - {};
    }
    forall a, b, x | Live(h, a) && Live(h, b) && a != b && InUserArea(a, h.slots[a], x)
      ensures !InUserArea(b, h.slots[b], x)
    {
      AreaInside(h, a);
      AreaInside(h, b);
      if InUserArea(b, h.slots[b], x) { HolderUnique(h, a, b, x, {}); }
    }
  }

  // ---------------------------------------------------------------- freed memory is left alone

  /** A free slot that nobody may hand out up to iteration `until`: it is on no list, or it was
      freed less than the reuse delay before. */
  ghost predicate Resting(h: Heap, a: int, until: nat) {
    && a in h.slots && h.slots[a].kind.Free?
    && ((a !in h.free && a !in h.wait) || (h.slots[a].seen > 0 && h.slots[a].useIter + REUSE_DELAY > until))
  }

  /** The slot, its bytes and its absence from the lists are as they were. */
  ghost predicate LeftAlone(h: Heap, h': Heap, a: int) {
    && a in h.slots && a in h'.slots && h'.slots[a] == h.slots[a]
    && |h'.mem| == |h.mem|
    && (forall x :: 0 <= x < |h.mem| && a <= x < a + h.slots[a].total ==> h'.mem[x] == h.mem[x])
    && (a !in h.free && a !in h.wait ==> a !in h'.free && a !in h'.wait)
  }

  lemma {:induction false} LeftAloneTwice(h: Heap, h1: Heap, h2: Heap, a: int)
    requires LeftAlone(h, h1, a) && LeftAlone(h1, h2, a)
    ensures LeftAlone(h, h2, a)
  {
  }

  lemma {:induction false} StillResting(h: Heap, h': Heap, a: int, until: nat)
    requires Resting(h, a, until) && LeftAlone(h, h', a)
    ensures Resting(h', a, until)
  {
  }

  /** Bytes that change only inside another slot. */
  lemma {:induction false} OtherSlotChanged(h: Heap, h': Heap, a: int, b: int)
    requires Inv(h') && a != b && a in h.slots && a in h'.slots && b in h'.slots && h'.slots[a] == h.slots[a]
    requires |h'.mem| == |h.mem|
    requires forall x :: 0 <= x < |h.mem| && !(b <= x < b + h'.slots[b].total) ==> h'.mem[x] == h.mem[x]
    requires a !in h.free && a !in h.wait ==> a !in h'.free && a !in h'.wait
    ensures LeftAlone(h, h', a)
  {
    hide ListsOk, Intact, CountedOk, InPlace;
    assert Apart(a, h'.slots[a].total, b, h'.slots[b].total);
  }

  lemma {:induction false} MallocLeaves(h: Heap, flags: Flags, size: nat, func: Func, alignment: nat, a: int)
    requires Inv(h) && LevelsOk(h) && Resting(h, a, h.iter)
    ensures LeftAlone(h, ChunkMalloc(h, flags, size, func, alignment).0, a)
  {
    hide InvBut, LevelsOk, ChunkMalloc, SlotGot, NeededSize, TotalFor, BytesAre, InfoOf;
    MallocKeeps(h, flags, size, func, alignment);
    var (h', r) := ChunkMalloc(h, flags, size, func, alignment);
    if r.Some? {
      OtherSlotChanged(h, h', a, SlotGot(h, flags, size, func, alignment).value);
    }
  }

  lemma {:induction false} FreeLeaves(h: Heap, flags: Flags, p: int, onFreeList: bool, a: int)
    requires Inv(h) && LevelsOk(h) && !(p in h.slots && h.slots[p].kind.Admin?)
    requires a in h.slots && h.slots[a].kind.Free?
    ensures LeftAlone(h, ChunkFree(h, flags, p, onFreeList).0, a)
  {
    hide InvBut, LevelsOk, ChunkFree, FindUsed, InfoOf, Filled;
    FreeKeeps(h, flags, p, onFreeList);
    var (h', ok) := ChunkFree(h, flags, p, onFreeList);
    if ok {
      var b := FindUsed(h, p).value;
      ReleaseKeeps(h, flags, b);
      OtherSlotChanged(h, h', a, b);
    }
  }

  lemma {:induction false} WriteLeaves(h: Heap, b: int, at: int, byte: Byte, a: int)
    requires Inv(h) && Live(h, b) && InUserArea(b, h.slots[b], at) && a in h.slots && a != b
    ensures LeftAlone(h, Step(h, DoWrite(at, byte)), a)
  {
    AreaInside(h, b);
    hide ListsOk, Intact, CountedOk, InPlace;
    assert Apart(a, h.slots[a].total, b, h.slots[b].total);
  }

  lemma {:induction false} ReallocLeaves(h: Heap, flags: Flags, p: int, size: nat, func: Func, onFreeList: bool, a: int)
    requires Inv(h) && LevelsOk(h) && !InAdminMemory(h, p) && size <= LARGEST_ALLOCATION
    requires Resting(h, a, h.iter)
    ensures LeftAlone(h, ChunkRealloc(h, flags, p, size, func, onFreeList).0, a)
  {
    hide InvBut, LevelsOk, ChunkMalloc, ChunkFree, Moves, InfoOf, Resized, Copied, SlotGot;
    var b := FindUsed(h, p);
    if p != 0 && b.Some? && b.value in h.slots {
      HolderIsUser(h, p);
      if !Moves(flags, b.value, h.slots[b.value], size) {
        ResizeLeaves(h, flags, b.value, size, func, a);
      } else {
        MoveLeaves(h, flags, p, b.value, size, func, onFreeList, a);
        var from, n := InfoOf(b.value, h.slots[b.value]).userStart, Min(size, h.slots[b.value].user);
        var (h1, q) := ChunkMalloc(h, flags, size, func, 0);
        assert q.None? ==> ChunkRealloc(h, flags, p, size, func, onFreeList) == (h1, None);
        if q.Some? {
          assert ChunkRealloc(h, flags, p, size, func, onFreeList).0 ==
                 ChunkFree(h1.(mem := Copied(h1.mem, from, q.value, n)), flags, p, onFreeList).0;
        }
      }
    }
  }

  lemma {:induction false} ResizeLeaves(h: Heap, flags: Flags, b: int, size: nat, func: Func, a: int)
    requires Inv(h) && Live(h, b) && size <= LARGEST_ALLOCATION && !Moves(flags, b, h.slots[b], size)
    requires a in h.slots && h.slots[a].kind.Free?
    ensures LeftAlone(h, Resized(h, flags, b, size, func).0, a)
  {
    hide InvBut, Cleared, InfoOf, Moves, BytesAre;
    ResizedKeeps(h, flags, b, size, func);
    OtherSlotChanged(h, Resized(h, flags, b, size, func).0, a, b);
  }

  lemma {:induction false} MoveLeaves(h: Heap, flags: Flags, p: int, b: int, size: nat, func: Func, onFreeList: bool,
                                      a: int)
    requires Inv(h) && LevelsOk(h) && Live(h, b) && Holds(h, b, p) && Resting(h, a, h.iter)
    ensures var from, n := InfoOf(b, h.slots[b]).userStart, Min(size, h.slots[b].user);
      var (h1, q) := ChunkMalloc(h, flags, size, func, 0);
      && LeftAlone(h, h1, a)
      && (q.Some? ==>
            && 0 <= from && from + n <= |h1.mem| && 0 <= q.value && q.value + n <= |h1.mem|
            && LeftAlone(h, ChunkFree(h1.(mem := Copied(h1.mem, from, q.value, n)), flags, p, onFreeList).0, a))
  {
    hide InvBut, LevelsOk, ChunkMalloc, ChunkFree, SlotGot, Copied, OthersKept, Fits, InPlace, OverwriteError;
    MallocKeeps(h, flags, size, func, 0);
    MallocLeaves(h, flags, size, func, 0, a);
    var (h1, q) := ChunkMalloc(h, flags, size, func, 0);
    if q.Some? {
      var c := SlotGot(h, flags, size, func, 0).value;
      OldSlotSurvives(h, h1, b, c, q.value, flags, size, func, 0);
      AreaInside(h, b);
      var from, n := InfoOf(b, h.slots[b]).userStart, Min(size, h.slots[b].user);
      CopyKeeps(h1, c, from, q.value, n);
      var h2 := h1.(mem := Copied(h1.mem, from, q.value, n));
      CopyLeaves(h1, h2, c, q.value, n, a);
      SameLevels(h1, h2);
      NotAdminStart(h2, b, p);
      FreeLeaves(h2, flags, p, onFreeList, a);
      LeftAloneTwice(h, h1, h2, a);
      LeftAloneTwice(h, h2, ChunkFree(h2, flags, p, onFreeList).0, a);
    }
  }

  lemma {:induction false} CopyLeaves(h: Heap, h': Heap, c: int, to: int, n: nat, a: int)
    requires Inv(h) && Live(h, c) && a in h.slots && h.slots[a].kind.Free?
    requires h' == h.(mem := h'.mem) && |h'.mem| == |h.mem|
    requires forall x :: 0 <= x < |h.mem| && !(to <= x < to + n) ==> h'.mem[x] == h.mem[x]
    requires c <= to && to + n <= c + h.slots[c].total
    ensures LeftAlone(h, h', a)
  {
    hide ListsOk, Intact, CountedOk, InPlace;
    assert Apart(a, h.slots[a].total, c, h.slots[c].total);
  }

  lemma {:induction false} RestingSooner(h: Heap, a: int, until: nat, sooner: nat)
    requires Resting(h, a, until) && sooner <= until
    ensures Resting(Tick(h), a, sooner) && LeftAlone(h, Tick(h), a)
  {
  }

  lemma {:induction false} StepLeaves(h: Heap, op: Op, a: int, until: nat)
    requires Sound(h) && Legal(h, op) && Resting(h, a, until) && Step(h, op).iter <= until
    ensures LeftAlone(h, Step(h, op), a)
  {
    hide InvBut, LevelsOk, ChunkMalloc, ChunkFree, ChunkRealloc, SeenUpTo, SlotGot, Resting, LeftAlone;
    TickKeeps(h);
    var t := Tick(h);
    match op
    case DoMalloc(flags, size, func, alignment) =>
      MallocKeeps(t, flags, size, func, alignment);
      RestingSooner(h, a, until, t.iter);
      MallocLeaves(t, flags, size, func, alignment, a);
      LeftAloneTwice(h, t, Step(h, op), a);
    case DoFree(flags, p, onFreeList) =>
      FreeKeeps(t, flags, p, onFreeList);
      RestingSooner(h, a, until, t.iter);
      RestingIsFree(h, a, until);
      FreeLeaves(t, flags, p, onFreeList, a);
      LeftAloneTwice(h, t, Step(h, op), a);
    case DoRealloc(flags, p, size, func, onFreeList) =>
      AdminSame(h, t, p);
      ReallocKeeps(t, flags, p, size, func, onFreeList);
      RestingSooner(h, a, until, t.iter);
      ReallocLeaves(t, flags, p, size, func, onFreeList, a);
      LeftAloneTwice(h, t, Step(h, op), a);
    case DoWrite(at, byte) =>
      var b :| Live(h, b) && InUserArea(b, h.slots[b], at);
      RestingIsFree(h, a, until);
      WriteLeaves(h, b, at, byte, a);
  }

  lemma {:induction false} RestingIsFree(h: Heap, a: int, until: nat)
    requires Resting(h, a, until)
    ensures a in h.slots && h.slots[a].kind.Free?
  {
  }

  lemma {:induction false} IterGrows(h: Heap, ops: seq<Op>)
    requires Sound(h) && LegalRun(h, ops)
    decreases |ops|
    ensures Run(h, ops).iter >= h.iter
  {
    hide InvBut, LevelsOk, ChunkMalloc, ChunkFree, ChunkRealloc, SeenUpTo, SlotGot, Live, InUserArea;
    if ops != [] {
      StepIter(h, ops[0]);
      StepKeeps(h, ops[0]);
      IterGrows(Step(h, ops[0]), ops[1..]);
    }
  }

  lemma {:induction false} StepIter(h: Heap, op: Op)
    requires Sound(h) && Legal(h, op)
    ensures Step(h, op).iter == h.iter + if op.DoWrite? then 0 else 1
    ensures Step(h, op).limit == h.limit
  {
    hide InvBut, LevelsOk, ChunkMalloc, ChunkFree, ChunkRealloc, SeenUpTo, SlotGot, Live, InUserArea, InAdminMemory;
    TickKeeps(h);
    match op
    case DoMalloc(flags, size, func, alignment) => MallocKeeps(Tick(h), flags, size, func, alignment);
    case DoFree(flags, p, onFreeList) => FreeKeeps(Tick(h), flags, p, onFreeList);
    case DoRealloc(flags, p, size, func, onFreeList) =>
      AdminSame(h, Tick(h), p);
      ReallocKeeps(Tick(h), flags, p, size, func, onFreeList);
    case DoWrite(_, _) =>
  }

  /** Memory freed at iteration t is not handed out, nor a byte of it changed, in any run that ends
      before iteration t + REUSE_DELAY; memory freed under NEVER_REUSE, which is on no list, is left
      alone in every run whatever. */
  lemma {:induction false} RestingIsLeftAlone(h: Heap, ops: seq<Op>, a: int, until: nat)
    requires Sound(h) && LegalRun(h, ops) && Resting(h, a, until) && Run(h, ops).iter <= until
    decreases |ops|
    ensures LeftAlone(h, Run(h, ops), a)
  {
    hide Sound, Step, Legal, Resting, LeftAlone;
    if ops == [] {
      LeftAloneSelf(h, a, until);
    } else {
      var h1 := Step(h, ops[0]);
      StepKeeps(h, ops[0]);
      IterGrows(h1, ops[1..]);
      StepLeaves(h, ops[0], a, until);
      StillResting(h, h1, a, until);
      RestingIsLeftAlone(h1, ops[1..], a, until);
      LeftAloneTwice(h, h1, Run(h, ops), a);
    }
  }

  lemma {:induction false} LeftAloneSelf(h: Heap, a: int, until: nat)
    requires Resting(h, a, until)
    ensures LeftAlone(h, h, a)
  {
  }

  lemma {:induction false} FreedMemoryRests(h: Heap, ops: seq<Op>, a: int)
    requires Sound(h) && LegalRun(h, ops) && a in h.slots && h.slots[a].kind.Free? && h.slots[a].seen > 0
    requires Run(h, ops).iter < h.slots[a].useIter + REUSE_DELAY
    ensures LeftAlone(h, Run(h, ops), a)
  {
    hide Sound, LegalRun, Run;
    RestingIsLeftAlone(h, ops, a, Run(h, ops).iter);
  }

  lemma {:induction false} NeverReusedMemoryRests(h: Heap, ops: seq<Op>, a: int)
    requires Sound(h) && LegalRun(h, ops) && a in h.slots && h.slots[a].kind.Free?
    requires a !in h.free && a !in h.wait
    ensures LeftAlone(h, Run(h, ops), a)
  {
    hide Sound, LegalRun, Run;
    RestingIsLeftAlone(h, ops, a, Run(h, ops).iter);
  }

  // ---------------------------------------------------------------- conservation and limits

  /** The call returned NULL because the system gave no memory.  Every NULL comes with an error number
      of its own, and only a failed request for heap sets this one. */
  ghost predicate SystemFailed(h: Heap, op: Op) {
    && Step(h, op).errno == AllocFailed
    && match op
       case DoMalloc(flags, size, func, alignment) => ChunkMalloc(Tick(h), flags, size, func, alignment).1.None?
       case DoRealloc(flags, p, size, func, onFreeList) =>
         ChunkRealloc(Tick(h), flags, p, size, func, onFreeList).1.None?
       case _ => false
  }

  /** In no call of the run did a request to the system fail. */
  ghost predicate SystemObliged(h: Heap, ops: seq<Op>)
    decreases |ops|
  {
    ops == [] || (!SystemFailed(h, ops[0]) && SystemObliged(Step(h, ops[0]), ops[1..]))
  }

  lemma {:induction false} MallocSlack(h: Heap, flags: Flags, size: nat, func: Func, alignment: nat)
    requires Inv(h) && LevelsOk(h)
    ensures var (h', r) := ChunkMalloc(h, flags, size, func, alignment);
      && Slack(h') >= Slack(h)
      && (r.Some? || h'.errno != AllocFailed ==> Slack(h') == Slack(h))
  {
    hide InvBut, LevelsOk, ChunkMalloc, SlotGot;
    MallocKeeps(h, flags, size, func, alignment);
    RefusedAtOnce(h, flags, size, func, alignment);
    var (h', r) := ChunkMalloc(h, flags, size, func, alignment);
    hide HandedOut, OthersKept;
    assert Slack(h') >= Slack(h);
  }

  lemma {:induction false} ReallocSlack(h: Heap, flags: Flags, p: int, size: nat, func: Func, onFreeList: bool)
    requires Inv(h) && LevelsOk(h) && size <= LARGEST_ALLOCATION && !InAdminMemory(h, p)
    ensures var (h', r) := ChunkRealloc(h, flags, p, size, func, onFreeList);
      r.Some? || h'.errno != AllocFailed ==> Slack(h') == Slack(h)
  {
    hide InvBut, LevelsOk, ChunkMalloc, ChunkFree, Resized, Copied, InfoOf, Moves, InAdminMemory;
    var a := FindUsed(h, p);
    if p != 0 && a.Some? && a.value in h.slots {
      HolderIsUser(h, p);
      hide FindUsed;
      if Moves(flags, a.value, h.slots[a.value], size) {
        MallocSlack(h, flags, size, func, 0);
        MovingKeeps(h, flags, p, a.value, size, func, onFreeList);
        var (h1, q) := ChunkMalloc(h, flags, size, func, 0);
        hide Slack;
        if q.None? {
          assert ChunkRealloc(h, flags, p, size, func, onFreeList) == (h1, None);
        }
      } else {
        ResizedKeeps(h, flags, a.value, size, func);
      }
    }
  }

  /** A call loses track of bytes only when the system refused it memory. */
  lemma {:induction false} StepSlack(h: Heap, op: Op)
    requires Sound(h) && Legal(h, op)
    ensures Slack(Step(h, op)) >= Slack(h)
    ensures !SystemFailed(h, op) ==> Slack(Step(h, op)) == Slack(h)
  {
    hide InvBut, LevelsOk, ChunkMalloc, ChunkFree, ChunkRealloc, SeenUpTo, SlotGot, Live, InUserArea, InAdminMemory;
    TickKeeps(h);
    match op
    case DoMalloc(flags, size, func, alignment) => MallocSlack(Tick(h), flags, size, func, alignment);
    case DoFree(flags, p, onFreeList) => FreeKeeps(Tick(h), flags, p, onFreeList);
    case DoRealloc(flags, p, size, func, onFreeList) =>
      AdminSame(h, Tick(h), p);
      ReallocKeeps(Tick(h), flags, p, size, func, onFreeList);
      ReallocSlack(Tick(h), flags, p, size, func, onFreeList);
    case DoWrite(_, _) =>
  }

  lemma {:induction false} RunSlack(h: Heap, ops: seq<Op>)
    requires Sound(h) && LegalRun(h, ops)
    decreases |ops|
    ensures Slack(Run(h, ops)) >= Slack(h)
    ensures SystemObliged(h, ops) ==> Slack(Run(h, ops)) == Slack(h)
  {
    hide Sound, Step, Legal, SystemFailed, Slack;
    if ops != [] {
      StepKeeps(h, ops[0]);
      StepSlack(h, ops[0]);
      RunSlack(Step(h, ops[0]), ops[1..]);
    }
  }

  /** From an unused heap: the bytes handed out and the bytes free fill the user blocks in every run
      in which no request to the system failed, whatever else was refused, and never exceed them; the
      client counters are the sums over the live slots. */
  lemma {:induction false} BytesAreConserved(h: Heap, ops: seq<Op>)
    requires Sound(h) && LegalRun(h, ops) && Slack(h) == 0
    ensures var h' := Run(h, ops);
      && h'.given + h'.freeBytes <= h'.userBlocks * BLOCK
      && (SystemObliged(h, ops) ==> h'.given + h'.freeBytes == h'.userBlocks * BLOCK)
      && h'.current == Tally(h'.slots, UserBytes) && h'.pointers == Tally(h'.slots, Pointers)
      && h'.given == Tally(h'.slots, Given) && h'.freeBytes == Tally(h'.slots, FreeBytes)
  {
    RunSlack(h, ops);
    RunKeeps(h, ops);
    hide LegalRun, Run, SystemObliged, Geometry, Intact, ListsOk;
    assert Run(h, ops).slots - {} == Run(h, ops).slots;
  }

  ghost predicate WithinLimit(h: Heap) {
    h.limit > 0 ==> h.given < h.limit + BLOCK
  }

  lemma {:induction false} ReleaseGivesBack(h: Heap, flags: Flags, a: int)
    ensures Release(h, flags, a).given <= h.given && Release(h, flags, a).limit == h.limit
  {
    hide Filled;
  }

  lemma {:induction false} FreeGivesBack(h: Heap, flags: Flags, p: int, onFreeList: bool)
    requires WithinLimit(h)
    ensures WithinLimit(ChunkFree(h, flags, p, onFreeList).0)
  {
    hide FindUsed, UsedSlotError, NotUsedError, Release;
    var a := FindUsed(h, p);
    if a.Some? { ReleaseGivesBack(h, flags, a.value); }
  }

  lemma {:induction false} ReallocWithinLimit(h: Heap, flags: Flags, p: int, size: nat, func: Func, onFreeList: bool)
    requires Inv(h) && LevelsOk(h) && WithinLimit(h)
    ensures WithinLimit(ChunkRealloc(h, flags, p, size, func, onFreeList).0)
  {
    hide InvBut, LevelsOk, ChunkMalloc, ChunkFree, Moves, FindUsed, InfoOf, Cleared, Copied, SlotGot;
    var a := FindUsed(h, p);
    if p != 0 && a.Some? && a.value in h.slots && Moves(flags, a.value, h.slots[a.value], size) {
      MallocKeeps(h, flags, size, func, 0);
      var from, k := InfoOf(a.value, h.slots[a.value]).userStart, Min(size, h.slots[a.value].user);
      var (h1, q) := ChunkMalloc(h, flags, size, func, 0);
      if q.Some? && 0 <= from && from + k <= |h1.mem| && 0 <= q.value && q.value + k <= |h1.mem| {
        FreeGivesBack(h1.(mem := Copied(h1.mem, from, q.value, k)), flags, p, onFreeList);
      }
    }
  }

  /** With a limit set, the bytes handed out never go a whole block beyond it. */
  lemma {:induction false} RunWithinLimit(h: Heap, ops: seq<Op>)
    requires Sound(h) && LegalRun(h, ops) && WithinLimit(h)
    decreases |ops|
    ensures WithinLimit(Run(h, ops))
  {
    hide Sound, Step, Legal, WithinLimit;
    if ops != [] {
      StepKeeps(h, ops[0]);
      StepWithinLimit(h, ops[0]);
      RunWithinLimit(Step(h, ops[0]), ops[1..]);
    }
  }

  lemma {:induction false} StepWithinLimit(h: Heap, op: Op)
    requires Sound(h) && Legal(h, op) && WithinLimit(h)
    ensures WithinLimit(Step(h, op))
  {
    hide InvBut, LevelsOk, ChunkMalloc, ChunkFree, ChunkRealloc, SeenUpTo, SlotGot, Live, InUserArea, InAdminMemory;
    TickKeeps(h);
    match op
    case DoMalloc(flags, size, func, alignment) => MallocKeeps(Tick(h), flags, size, func, alignment);
    case DoFree(flags, p, onFreeList) => FreeGivesBack(Tick(h), flags, p, onFreeList);
    case DoRealloc(flags, p, size, func, onFreeList) =>
      ReallocWithinLimit(Tick(h), flags, p, size, func, onFreeList);
    case DoWrite(_, _) =>
  }

  // ---------------------------------------------------------------- freeing twice

  lemma {:induction false} FindWaitingIs(h: Heap, a: int, p: int, i: nat, out: set<int>)
    requires InvBut(h, out) && i <= |h.wait| && a in h.wait[i..] && Holds(h, a, p)
    decreases |h.wait| - i
    ensures FindWaiting(h, p, i) == Some(a)
  {
    hide InvBut;
    if Holds(h, h.wait[i], p) {
      HolderUnique(h, a, h.wait[i], p, out);
    } else {
      FindWaitingIs(h, a, p, i + 1, out);
    }
  }

  lemma {:induction false} WaiterNotUsed(h: Heap, a: int, p: int)
    requires Inv(h) && a in h.slots && h.slots[a].kind.Free? && Holds(h, a, p)
    ensures FindUsed(h, p) == None
  {
    hide InvBut;
    forall b | Used(h, b) && Holds(h, b, p) ensures false {
      HolderUnique(h, a, b, p, {});
    }
  }

  /** Freeing a pointer into a waiting slot is refused and changes nothing but the error number:
      already free when it is where the slot's user area begins, not found otherwise. */
  lemma {:induction false} FreeOfWaiting(h: Heap, flags: Flags, a: int, p: int, onFreeList: bool)
    requires Inv(h) && a in h.wait && Holds(h, a, p) && p != 0
    ensures h.slots[a].kind.Free?
    ensures ChunkFree(h, flags, p, onFreeList) ==
      (Error(h, if InfoOf(a, h.slots[a]).userStart == p then AlreadyFree else NotFound), false)
  {
    assert h.slots[a].kind.Free? by { var i :| 0 <= i < |h.wait| && h.wait[i] == a; }
    hide InvBut;
    WaiterNotUsed(h, a, p);
    assert h.wait[0..] == h.wait;
    FindWaitingIs(h, a, p, 0, {});
  }

  /** Freeing a live pointer lets go of its slot. */
  lemma {:induction false} FreedSlot(h: Heap, flags: Flags, a: int, onFreeList: bool)
    requires Sound(h) && Live(h, a)
    ensures var h1 := Step(h, DoFree(flags, InfoOf(a, h.slots[a]).userStart, onFreeList));
      Sound(h1) && h1 == Release(Tick(h), flags, a)
  {
    TickKeeps(h);
    SeenOf(Tick(h), a, 2 * h.iter);
    hide LevelsOk, SeenUpTo, InvBut, ChunkFree, InfoOf, Release;
    var p := InfoOf(a, h.slots[a]).userStart;
    FreeOfLive(Tick(h), flags, a, onFreeList);
    StartHeld(h, a);
    if p in h.slots {
      SlotInPlace(h, p, {});
      HolderUnique(h, a, p, p, {});
    }
    StepKeeps(h, DoFree(flags, p, onFreeList));
  }

  lemma {:induction false} SeenOf(h: Heap, a: int, n: nat)
    requires SeenUpTo(h, n) && a in h.slots
    ensures h.slots[a].seen <= n
  {
  }

  lemma {:induction false} StartHeld(h: Heap, a: int)
    requires Inv(h) && Live(h, a)
    ensures Holds(h, a, InfoOf(a, h.slots[a]).userStart)
  {
    UserFits(h, a, {});
    PointerAligned(|h.mem|, a, h.slots[a]);
  }

  lemma {:induction false} TickInv(h: Heap)
    requires Inv(h)
    ensures Inv(Tick(h))
  {
    hide Geometry, Intact, CountedOk;
  }

  // ---------------------------------------------------------------- realloc of a live pointer

  /** A realloc that moved keeps the first bytes and zeroes for recalloc; a refused one leaves the
      old slot as it was. */
  ghost predicate MovedAway(h: Heap, h': Heap, a: int, r: Option<int>, flags: Flags, size: nat, func: Func) {
    match r
    case Some(q) => exists b :: MovedTo(h, h', a, b, q, flags, size, func)
    case None => h'.mem == h.mem && a in h.slots && a in h'.slots && h'.slots[a] == h.slots[a]
  }

  /** A realloc in place keeps the first bytes, zeroes for recalloc and changes no other slot. */
  ghost predicate StayedPut(h: Heap, h': Heap, a: int, r: Option<int>, flags: Flags, size: nat, func: Func) {
    && a in h.slots && |h'.mem| == |h.mem|
    && var p := InfoOf(a, h.slots[a]).userStart;
       var n := Min(h.slots[a].user, size);
    && r == Some(p) && 0 <= p && p + n <= |h.mem| && h'.mem[p..p + n] == h.mem[p..p + n]
    && ResizedTo(h, h', flags, a, size, func)
    && forall x :: 0 <= x < |h.mem| && !(a <= x < a + h.slots[a].total) ==> h'.mem[x] == h.mem[x]
  }

  /** The condition for moving, spelled out: the new area and the top fence do not fit behind the start
      of the old one, or a debug bit asks for it. */
  predicate MustMove(flags: Flags, a: int, s: Slot, size: nat) {
    var start := if s.fence && s.valloc then BLOCK else if s.fence then 8 else 0;
    || start + size + (if s.fence then 4 else 0) > s.total
    || flags.reallocCopy || flags.neverReuse
  }

  lemma {:induction false} MovesWhenItMust(flags: Flags, a: int, s: Slot, size: nat)
    ensures Moves(flags, a, s, size) <==> MustMove(flags, a, s, size)
  {
  }

  lemma {:induction false} MovingRealloc(h: Heap, flags: Flags, a: int, size: nat, func: Func, onFreeList: bool)
    requires Inv(h) && LevelsOk(h) && Live(h, a) && h.slots[a].seen <= 2 * h.iter + 1
    requires Moves(flags, a, h.slots[a], size)
    ensures var (h', r) := ChunkRealloc(h, flags, InfoOf(a, h.slots[a]).userStart, size, func, onFreeList);
      MovedAway(h, h', a, r, flags, size, func)
  {
    hide InvBut, LevelsOk, ChunkMalloc, ChunkRealloc, Moves, MovedTo, SlotGot, HandedOut, CopyAndRelease, InfoOf;
    MovedRealloc(h, flags, a, size, func, onFreeList);
    MallocKeeps(h, flags, size, func, 0);
    var (h1, q) := ChunkMalloc(h, flags, size, func, 0);
    if q.Some? {
      var b := SlotGot(h, flags, size, func, 0).value;
      CopyAndReleaseMoves(h, h1, a, b, q.value, flags, size, func);
      assert MovedTo(h, CopyAndRelease(h1, flags, a, q.value, Min(size, h.slots[a].user)), a, b, q.value,
                     flags, size, func);
    }
  }

  lemma {:induction false} ReallocInPlace(h: Heap, flags: Flags, a: int, size: nat, func: Func, onFreeList: bool)
    requires Inv(h) && Live(h, a) && h.slots[a].seen <= 2 * h.iter + 1 && size <= LARGEST_ALLOCATION
    requires !Moves(flags, a, h.slots[a], size)
    ensures var (h', r) := ChunkRealloc(h, flags, InfoOf(a, h.slots[a]).userStart, size, func, onFreeList);
      StayedPut(h, h', a, r, flags, size, func)
  {
    hide InvBut, Moves, Resized, FindUsed, UsedSlotError, InfoOf, ResizedTo;
    ResizedKeeps(h, flags, a, size, func);
    LivePointerPasses(h, a);
  }

  /** realloc of a live pointer moves exactly when the new area does not fit, or the debug bits ask
      for it, and on both paths does what is promised of it. */
  lemma {:induction false} ReallocOfLive(h: Heap, flags: Flags, a: int, size: nat, func: Func, onFreeList: bool)
    requires Sound(h) && Live(h, a) && size <= LARGEST_ALLOCATION
    ensures var (h', r) := ChunkRealloc(Tick(h), flags, InfoOf(a, h.slots[a]).userStart, size, func, onFreeList);
      if MustMove(flags, a, h.slots[a], size) then MovedAway(Tick(h), h', a, r, flags, size, func)
      else StayedPut(Tick(h), h', a, r, flags, size, func)
  {
    TickKeeps(h);
    SeenOf(Tick(h), a, 2 * h.iter);
    MovesWhenItMust(flags, a, h.slots[a], size);
    hide InvBut, LevelsOk, SeenUpTo, ChunkRealloc, Moves, MustMove, MovedAway, StayedPut, InfoOf;
    if Moves(flags, a, h.slots[a], size) {
      MovingRealloc(Tick(h), flags, a, size, func, onFreeList);
    } else {
      ReallocInPlace(Tick(h), flags, a, size, func, onFreeList);
    }
  }
}
