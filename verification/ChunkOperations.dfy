/** malloc, free and realloc keep the heap in order, and what each of them does to the bytes, the
    pointers and the counters. */
module ChunkOperations {
  import opened Basics
  import opened ChunkModel
  import opened Sums
  import opened ChunkInvariant
  import opened ChunkContents

  // ---------------------------------------------------------------- sizes

  /** A request is served by the smallest chunk that holds it, or by the fewest blocks that do. */
  lemma {:induction false} TotalIsSmallest(size: nat)
    ensures var t := TotalFor(size);
      && size <= t < size + BLOCK
      && (size <= BLOCK / 2 ==> ChunkSize(t) && forall c: nat :: ChunkSize(c) && size <= c ==> t <= c)
      && (size > BLOCK / 2 ==> t % BLOCK == 0 && forall k: nat :: size <= k * BLOCK ==> t <= k * BLOCK)
  {
    if size <= BLOCK / 2 {
      ChunkForFits(size, SMALLEST_CHUNK);
      ChunkForLeast(size, SMALLEST_CHUNK);
    } else {
      forall k: nat | size <= k * BLOCK ensures TotalFor(size) <= k * BLOCK {
        assert (size + BLOCK - 1) / BLOCK <= k;
      }
    }
  }

  /** The smallest size a slot can have that holds what is needed: a power of two from 16 bytes to half
      a block, or whole blocks. */
  predicate SmallestTotal(need: nat, t: nat) {
    && need <= t
    && if need <= BLOCK / 2 then ChunkSize(t) && (t == 16 || t < 2 * need) else t % BLOCK == 0 && t < need + BLOCK
  }

  lemma {:induction false} TotalForIsSmallest(need: nat)
    ensures SmallestTotal(need, TotalFor(need))
  {
    TotalIsSmallest(need);
    var t := TotalFor(need);
    if need <= BLOCK / 2 && t > 16 {
      assert ChunkSize(t / 2) && t / 2 < t;
    }
  }

  lemma {:induction false} ChunkForLeast(size: nat, from: nat)
    requires ChunkSize(from) && size <= BLOCK / 2 && (from == SMALLEST_CHUNK || 2 * size > from)
    decreases BLOCK - from
    ensures forall c: nat :: ChunkSize(c) && size <= c && from <= c ==> ChunkFor(size, from) <= c
    ensures ChunkFor(size, from) < size + BLOCK
  {
    if size > from { ChunkForLeast(size, 2 * from); }
  }

  /** The user area and the fences fit what is asked for. */
  lemma {:induction false} SetUpFits(s: Slot, flags: Flags, size: nat, valloc: bool, iter: nat)
    requires s.total == TotalFor(NeededSize(flags, size, valloc))
    ensures Fits(SetUp(s, flags, size, valloc, iter))
  {
    TotalIsSmallest(NeededSize(flags, size, valloc));
  }

  // ---------------------------------------------------------------- malloc

  lemma {:induction false} ReplacedContents(h: Heap, h': Heap, a: int, s: Slot)
    requires Intact(h'.mem, h.slots - {a}) && Counted(h, h.slots - {a})
    requires SlotFine(h'.mem, a, s) && h'.slots == h.slots[a := s]
    requires h'.current == h.current + Weight(s, UserBytes) && h'.pointers == h.pointers + Weight(s, Pointers)
    requires h'.given == h.given + Weight(s, Given) && h'.freeBytes == h.freeBytes + Weight(s, FreeBytes)
    ensures Intact(h'.mem, h'.slots - {}) && Counted(h', h'.slots - {})
  {
    assert h'.slots - {} == h'.slots;
    forall b | b in h'.slots ensures SlotFine(h'.mem, b, h'.slots[b]) {
      if b != a { assert b in h.slots - {a}; }
    }
    TallyUpdates(h.slots, a, s);
  }

  lemma {:induction false} ElsewhereIntact(h: Heap, mem: seq<Byte>, a: int)
    requires InvBut(h, {a}) && a in h.slots && |mem| == |h.mem|
    requires forall x :: 0 <= x < |mem| && !(a <= x < a + h.slots[a].total) ==> mem[x] == h.mem[x]
    ensures Intact(mem, h.slots - {a})
  {
    hide ListsOk, CountedOk;
    IntactElsewhere(h.mem, mem, h.slots - {a}, a, h.slots[a].total);
  }

  /** A slot that is on no list changes, except for its size. */
  lemma {:induction false} UnlistedChanges(h: Heap, a: int, s: Slot, out: set<int>)
    requires InvBut(h, out) && a in h.slots && a !in h.free && a !in h.wait && s.total == h.slots[a].total
    ensures Geometry(|h.mem|, h.slots[a := s], h.grants)
    ensures ListsOk(h.slots[a := s], h.free, h.wait, h.iter)
    ensures InPlace(|h.mem|, a, s.total)
  {
    hide Intact, CountedOk;
    TakenGeometry(|h.mem|, h.slots, h.grants, a, s);
    ListsFrame(h, h.(slots := h.slots[a := s]));
  }

  /** Handing out a slot that get_memory found. */
  lemma {:induction false} HandKeeps(h: Heap, flags: Flags, size: nat, func: Func, valloc: bool, a: int)
    requires InvBut(h, {a}) && a in h.slots && h.slots[a].kind.User? && size <= LARGEST_ALLOCATION
    requires a !in h.free && a !in h.wait
    requires h.slots[a].total == TotalFor(NeededSize(flags, size, valloc))
    ensures var (h', r) := Hand(h, flags, size, func, valloc, a);
      && Inv(h') && Slack(h') == Slack(h) - h.slots[a].total
      && r == Some(InfoOf(a, h'.slots[a]).userStart)
      && (forall x :: 0 <= x < |h.mem| && !(a <= x < a + h.slots[a].total) ==> h'.mem[x] == h.mem[x])
      && |h'.mem| == |h.mem|
      && NewBytes(h.mem, h'.mem, r.value, r.value + size, func, h'.slots[a].blank)
  {
    hide Geometry, ListsOk, Intact, CountedOk, OverwriteError, Fits;
    var s := SetUp(h.slots[a], flags, size, valloc, h.iter);
    var (h', r) := Hand(h, flags, size, func, valloc, a);
    SetUpFits(h.slots[a], flags, size, valloc, h.iter);
    UnlistedChanges(h, a, s, {a});
    ClearedIsIntact(h.mem, a, s, 0, Zeroes(func));
    ElsewhereIntact(h, h'.mem, a);
    ReplacedContents(h, h', a, s);
  }

  /** What a request needs in all: the user bytes; the fences, and a block in front of the bottom one
      if the area must begin a block; without fences a whole block for such an area. */
  function Needs(flags: Flags, size: nat, onBlock: bool): nat
  {
    if flags.checkFence && onBlock then BLOCK + size + 12
    else if flags.checkFence then size + 12
    else if onBlock && size <= BLOCK / 2 then BLOCK
    else size
  }

  lemma {:induction false} NeedsIt(flags: Flags, size: nat, func: Func, alignment: nat)
    ensures IsValloc(func, alignment) <==> alignment == BLOCK && func != Calloc
    ensures NeededSize(flags, size, IsValloc(func, alignment))
      == Needs(flags, size, alignment == BLOCK && func != Calloc)
  {
  }

  /** The outcome of a successful malloc: slot a, new or rested and listed as free, is now a user
      slot with room for the request at the aligned pointer p; nothing outside it changed. */
  ghost predicate HandedOut(h: Heap, h': Heap, a: int, p: int, flags: Flags, size: nat, func: Func, alignment: nat) {
    && a in h'.slots && OthersKept(h, h', Some(a)) && |h'.mem| == |h.mem|
    && (var s, onBlock := h'.slots[a], alignment == BLOCK && func != Calloc;
        && s.kind.User? && s.user == size && s.fence == flags.checkFence && s.valloc == onBlock
        && SmallestTotal(Needs(flags, size, onBlock), s.total)
        && s.useIter == h.iter && s.seen == (if a in h.slots then h.slots[a].seen else 0) + 1
        && p == a + (if s.fence && onBlock then BLOCK else if s.fence then 8 else 0)
        && NewBytes(h.mem, h'.mem, p, p + size, func, flags.allocBlank || flags.checkBlank)
        && p == InfoOf(a, s).userStart && p > 0 && p % 8 == 0
        && (alignment == BLOCK && func != Calloc ==> p % BLOCK == 0)
        && a <= p && p + size <= a + s.total <= |h.mem|
        && (forall x :: 0 <= x < |h.mem| && !(a <= x < a + s.total) ==> h'.mem[x] == h.mem[x])
        && (s.blank <==> flags.allocBlank || flags.checkBlank)
        && h'.given == h.given + s.total)
    && h'.current == h.current + size && h'.pointers == h.pointers + 1
    && (a in h.slots ==>
          h.slots[a].kind.Free? && (a in h.free || a in h.wait) && Rested(h.slots[a], h.iter))
  }

  /** The slot a malloc hands out. */
  function SlotGot(h: Heap, flags: Flags, size: nat, func: Func, alignment: nat): Option<int>
  {
    if size > LARGEST_ALLOCATION then None
    else GetMemory(h, NeededSize(flags, size, IsValloc(func, alignment))).1
  }

  lemma {:induction false} Aligned(a: int)
    requires a % 16 == 0
    ensures a % 8 == 0 && (a + BOTTOM) % 8 == 0 && (a + BLOCK) % 8 == 0
  {
    assert a == 8 * (2 * (a / 16));
  }

  lemma {:induction false} BlockAligned(a: int)
    requires a % BLOCK == 0
    ensures (a + BLOCK) % BLOCK == 0
  {
  }

  lemma {:induction false} PointerAligned(n: nat, a: int, s: Slot)
    requires InPlace(n, a, s.total) && Fits(s)
    ensures var p := InfoOf(a, s).userStart;
      p % 8 == 0 && (s.valloc ==> p % BLOCK == 0) && a <= p < a + s.total && p + s.user <= a + s.total && p > 0
  {
    Aligned(a);
    if s.valloc {
      assert a % BLOCK == 0;
      BlockAligned(a);
    }
    hide InPlace;
  }

  lemma {:induction false} FoundKeeps(h: Heap, h1: Heap, a: int, flags: Flags, size: nat, func: Func, valloc: bool)
    requires Acquired(h, h1, TotalFor(NeededSize(flags, size, valloc)), Some(a)) && size <= LARGEST_ALLOCATION
    ensures var (h2, r) := Hand(h1, flags, size, func, valloc, a);
      && Inv(h2) && LevelsOk(h2) && Slack(h2) == Slack(h) && r.Some?
      && h2.iter == h.iter && h2.limit == h.limit
      && h2.given < h.given + NeededSize(flags, size, valloc) + BLOCK
  {
    hide InvBut, LevelsOk, NeededSize, Cleared;
    TotalIsSmallest(NeededSize(flags, size, valloc));
    HandKeeps(h1, flags, size, func, valloc, a);
    SameLevels(h1, Hand(h1, flags, size, func, valloc, a).0);
  }

  lemma {:induction false} OthersStillKept(h: Heap, h1: Heap, h2: Heap, a: int, s: Slot)
    requires OthersKept(h, h1, Some(a))
    requires h2.slots == h1.slots[a := s] && h2.free == h1.free && h2.wait == h1.wait
    ensures OthersKept(h, h2, Some(a))
  {
  }

  lemma {:induction false} HandedPointer(h: Heap, a: int, s: Slot)
    requires InvBut(h, {a}) && a in h.slots && s.total == h.slots[a].total && Fits(s)
    ensures var p := InfoOf(a, s).userStart;
      && p % 8 == 0 && (s.valloc ==> p % BLOCK == 0) && p > 0
      && a <= p && p + s.user <= a + s.total <= |h.mem|
  {
    SlotInPlace(h, a, {a});
    PointerAligned(|h.mem|, a, s);
  }

  /** What handing out changes besides memory. */
  lemma {:induction false} HandEffect(h: Heap, flags: Flags, size: nat, func: Func, valloc: bool, a: int)
    requires a in h.slots && h.slots[a].kind.User?
    ensures var (h', r) := Hand(h, flags, size, func, valloc, a);
      && a in h'.slots && h'.slots == h.slots[a := h'.slots[a]] && h'.free == h.free && h'.wait == h.wait
      && r == Some(InfoOf(a, h'.slots[a]).userStart)
      && h'.given == h.given + h.slots[a].total && h'.current == h.current + size && h'.pointers == h.pointers + 1
      && var s := h'.slots[a];
         && s.total == h.slots[a].total && s.kind.User? && s.user == size
         && s.fence == flags.checkFence && s.valloc == valloc && s.seen == h.slots[a].seen + 1
         && (s.blank <==> h.slots[a].blank || flags.allocBlank || flags.checkBlank) && s.useIter == h.iter
         && s == SetUp(h.slots[a], flags, size, valloc, h.iter)
  {
    hide Cleared, InfoOf;
  }

  lemma {:induction false} StartOfUser(a: int, s: Slot)
    ensures InfoOf(a, s).userStart == a + (if s.fence && s.valloc then BLOCK else if s.fence then 8 else 0)
  {
  }

  lemma {:induction false} FoundIsHanded(h: Heap, h1: Heap, a: int, flags: Flags, size: nat, func: Func, alignment: nat)
    requires Acquired(h, h1, TotalFor(NeededSize(flags, size, IsValloc(func, alignment))), Some(a))
    requires size <= LARGEST_ALLOCATION
    ensures var (h2, r) := Hand(h1, flags, size, func, IsValloc(func, alignment), a);
      r.Some? && HandedOut(h, h2, a, r.value, flags, size, func, alignment)
  {
    NeedsIt(flags, size, func, alignment);
    hide InvBut, LevelsOk, NeededSize, TotalFor, NewBytes, Fits, OthersKept, InfoOf, InPlace, Slack, Rested;
    hide Hand, SetUp, IsValloc, Needs, SmallestTotal;
    var valloc := IsValloc(func, alignment);
    TotalForIsSmallest(NeededSize(flags, size, valloc));
    HandKeeps(h1, flags, size, func, valloc, a);
    HandEffect(h1, flags, size, func, valloc, a);
    var (h2, r) := Hand(h1, flags, size, func, valloc, a);
    OthersStillKept(h, h1, h2, a, h2.slots[a]);
    SetUpFits(h1.slots[a], flags, size, valloc, h1.iter);
    HandedPointer(h1, a, h2.slots[a]);
    StartOfUser(a, h2.slots[a]);
  }

  /** malloc keeps the heap in order; a failed one changes no memory and no client counter. */
  lemma {:induction false} MallocKeeps(h: Heap, flags: Flags, size: nat, func: Func, alignment: nat)
    requires Inv(h) && LevelsOk(h)
    ensures var (h', r) := ChunkMalloc(h, flags, size, func, alignment);
      var got := SlotGot(h, flags, size, func, alignment);
      && Inv(h') && LevelsOk(h') && h'.iter == h.iter && h'.limit == h.limit
      && (r.None? <==> got.None?)
      && (r.None? ==> h'.mem == h.mem && h'.current == h.current && h'.pointers == h.pointers
                      && h'.given == h.given && Slack(h') >= Slack(h) && OthersKept(h, h', None))
      && (r.Some? ==> Slack(h') == Slack(h)
                      && HandedOut(h, h', got.value, r.value, flags, size, func, alignment)
                      && (h.limit > 0 ==> h'.given < h.limit + BLOCK))
  {
    hide InvBut, LevelsOk, GetMemory, NeededSize, HandedOut, Hand;
    if size > LARGEST_ALLOCATION {
      SameCoreKeeps(h, Error(h, TooBig), {});
      SameLevels(h, Error(h, TooBig));
    } else {
      var valloc := IsValloc(func, alignment);
      var needed := NeededSize(flags, size, valloc);
      GetMemoryKeeps(h, needed);
      var (h1, got) := GetMemory(h, needed);
      if got.Some? {
        FoundKeeps(h, h1, got.value, flags, size, func, valloc);
        FoundIsHanded(h, h1, got.value, flags, size, func, alignment);
      }
    }
  }

  lemma {:induction false} SlotInPlace(h: Heap, a: int, out: set<int>)
    requires InvBut(h, out) && a in h.slots
    ensures InPlace(|h.mem|, a, h.slots[a].total)
  {
  }

  // ---------------------------------------------------------------- free

  lemma {:induction false} HolderUnique(h: Heap, a: int, b: int, p: int, out: set<int>)
    requires InvBut(h, out) && Holds(h, a, p) && Holds(h, b, p)
    ensures a == b
  {
    assert a != b ==> Apart(a, h.slots[a].total, b, h.slots[b].total);
  }

  /** The loose search finds the one used slot that holds the address. */
  lemma {:induction false} FindUsedIs(h: Heap, a: int, p: int)
    requires Inv(h) && Used(h, a) && Holds(h, a, p)
    ensures FindUsed(h, p) == Some(a)
  {
    hide InvBut;
    var b :| Used(h, b) && Holds(h, b, p) && FindUsed(h, p) == Some(b);
    HolderUnique(h, a, b, p, {});
  }

  lemma {:induction false} UserFits(h: Heap, a: int, out: set<int>)
    requires InvBut(h, out) && a in h.slots && a !in out && h.slots[a].kind.User?
    ensures Fits(h.slots[a]) && h.slots[a].user <= LARGEST_ALLOCATION && InPlace(|h.mem|, a, h.slots[a].total)
    ensures OverwriteError(h.mem, a, h.slots[a]) == NoError
    ensures a !in h.free && a !in h.wait
  {
    assert a in h.slots - out;
  }

  /** A live pointer passes every check of free. */
  lemma {:induction false} LivePointerPasses(h: Heap, a: int)
    requires Inv(h) && a in h.slots && h.slots[a].kind.User? && h.slots[a].seen <= 2 * h.iter + 1
    ensures var p := InfoOf(a, h.slots[a]).userStart;
      && UsedSlotError(h.mem, h.iter, a, h.slots[a], p) == NoError && FindUsed(h, p) == Some(a) && p != 0
  {
    var s := h.slots[a];
    UserFits(h, a, {});
    hide InvBut;
    PointerAligned(|h.mem|, a, s);
    FindUsedIs(h, a, InfoOf(a, s).userStart);
  }

  lemma {:induction false} ReleasedLists(slots: map<int, Slot>, free: seq<int>, wait: seq<int>, iter: nat, a: int,
                                         s: Slot)
    requires ListsOk(slots, free, wait, iter) && a in slots && a !in free && a !in wait
    requires s.kind.Free? && s.useIter == iter
    ensures ListsOk(slots[a := s], free, wait, iter) && ListsOk(slots[a := s], free, wait + [a], iter)
  {
    var w, m := wait + [a], slots[a := s];
    assert forall i :: 0 <= i < |w| ==> w[i] == if i < |wait| then wait[i] else a;
  }

  lemma {:induction false} ReleasedContents(h: Heap, h': Heap, a: int, s: Slot)
    requires Intact(h'.mem, h.slots - {a}) && Counted(h, h.slots - {})
    requires a in h.slots && SlotFine(h'.mem, a, s) && h'.slots == h.slots[a := s]
    requires h'.current == h.current + Weight(s, UserBytes) - Weight(h.slots[a], UserBytes)
    requires h'.pointers == h.pointers + Weight(s, Pointers) - Weight(h.slots[a], Pointers)
    requires h'.given == h.given + Weight(s, Given) - Weight(h.slots[a], Given)
    requires h'.freeBytes == h.freeBytes + Weight(s, FreeBytes) - Weight(h.slots[a], FreeBytes)
    ensures Intact(h'.mem, h'.slots - {}) && Counted(h', h'.slots - {})
  {
    assert h'.slots - {} == h'.slots && h.slots - {} == h.slots;
    forall b | b in h'.slots ensures SlotFine(h'.mem, b, h'.slots[b]) {
      if b != a { assert b in h.slots - {a}; }
    }
    TallyUpdates(h.slots, a, s);
  }

  lemma {:induction false} FilledBytes(mem: seq<Byte>, at: int, n: nat, b: Byte)
    requires 0 <= at && at + n <= |mem|
    ensures var mem' := Filled(mem, at, n, b);
      && |mem'| == |mem| && BytesAre(mem', at, at + n, b)
      && forall x :: 0 <= x < |mem| && !(at <= x < at + n) ==> mem'[x] == mem[x]
  {
  }

  lemma {:induction false} OutKeeps(h: Heap, a: int)
    requires Inv(h) && a in h.slots
    ensures Intact(h.mem, h.slots - {a})
    ensures forall b :: b in h.slots - {a} ==>
      Inside(h.mem, b, h.slots[b]) && Apart(b, h.slots[b].total, a, h.slots[a].total)
  {
    hide ListsOk, CountedOk, SlotFine;
    assert h.slots - {} == h.slots;
  }

  /** What a free leaves: the slot is free, placed as it was but for the alignment mark, stamped and
      counted; its bytes are the free blank if either blank bit is on and untouched otherwise; it waits
      behind all others unless memory is never reused; nothing else changes. */
  ghost predicate Freed(h: Heap, h': Heap, flags: Flags, a: int) {
    && a in h.slots && a in h'.slots && |h'.mem| == |h.mem|
    && (var was := h.slots[a];
        && h'.slots == h.slots[a := Slot(was.total, Free, was.user, was.fence, false,
                                         flags.freeBlank || flags.checkBlank, h.iter, was.seen + 1)]
        && h'.current == h.current - was.user && h'.given == h.given - was.total
        && h'.pointers == h.pointers - 1 && h'.freeBytes == h.freeBytes + was.total)
    && FreedBytes(h.mem, h'.mem, a, a + h.slots[a].total, flags)
    && (forall x :: 0 <= x < |h.mem| && !(a <= x < a + h.slots[a].total) ==> h'.mem[x] == h.mem[x])
    && h'.wait == (if flags.neverReuse then h.wait else h.wait + [a])
    && h'.free == h.free && h'.grants == h.grants && h'.levels == h.levels && h'.spare == h.spare
    && h'.iter == h.iter && h'.limit == h.limit && h'.userBlocks == h.userBlocks
    && h'.adminBlocks == h.adminBlocks && h'.errno == h.errno && h'.corrupt == h.corrupt
  }

  /** The bytes of a freed slot: the free blank, or what they were. */
  ghost predicate FreedBytes(mem: seq<Byte>, mem': seq<Byte>, from: int, to: int, flags: Flags) {
    |mem'| == |mem| && forall x :: 0 <= x < |mem| && from <= x < to ==>
      mem'[x] == (if flags.freeBlank || flags.checkBlank then FREE_BLANK else mem[x])
  }

  lemma {:induction false} ReleaseFrees(h: Heap, flags: Flags, a: int)
    requires a in h.slots && 0 <= a && a + h.slots[a].total <= |h.mem|
    ensures Freed(h, Release(h, flags, a), flags, a)
  {
    FilledBytes(h.mem, a, h.slots[a].total, FREE_BLANK);
    hide Filled;
  }

  /** Letting go of a live slot: it turns free, waits unless memory is never reused, and nothing
      outside it changes. */
  lemma {:induction false} ReleaseKeeps(h: Heap, flags: Flags, a: int)
    requires Inv(h) && a in h.slots && h.slots[a].kind.User?
    ensures var h' := Release(h, flags, a);
      && Inv(h') && Slack(h') == Slack(h) && h'.levels == h.levels && |h'.mem| == |h.mem|
      && h'.slots == h.slots[a := ReleasedSlot(h.slots[a], flags, h.iter)]
      && (forall x :: 0 <= x < |h.mem| && !(a <= x < a + h.slots[a].total) ==> h'.mem[x] == h.mem[x])
      && Freed(h, h', flags, a)
  {
    hide InvBut, Geometry, ListsOk, Intact, CountedOk, OverwriteError, Fits, Freed;
    var s, h' := ReleasedSlot(h.slots[a], flags, h.iter), Release(h, flags, a);
    UserFits(h, a, {});
    UnlistedChanges(h, a, s, {});
    OutKeeps(h, a);
    InvParts(h);
    ReleasedLists(h.slots, h.free, h.wait, h.iter, a, s);
    ReleaseFrees(h, flags, a);
    FilledBytes(h.mem, a, s.total, FREE_BLANK);
    IntactElsewhere(h.mem, h'.mem, h.slots - {a}, a, s.total);
    ReleasedContents(h, h', a, s);
    InvFrom(h');
  }

  lemma {:induction false} InvParts(h: Heap)
    requires Inv(h)
    ensures !h.corrupt && Counted(h, h.slots - {}) && Lists(h) && Geometry(|h.mem|, h.slots, h.grants)
  {
  }

  lemma {:induction false} InvFrom(h: Heap)
    requires !h.corrupt && Geometry(|h.mem|, h.slots, h.grants) && Lists(h)
    requires Intact(h.mem, h.slots - {}) && Counted(h, h.slots - {})
    ensures Inv(h)
  {
  }

  lemma {:induction false} ErrorKeeps(h: Heap, e: Errno)
    requires Inv(h) && e != AddressList
    ensures Inv(Error(h, e)) && SameCore(h, Error(h, e))
  {
    hide InvBut;
    SameCoreKeeps(h, Error(h, e), {});
  }

  lemma {:induction false} ChecksNeverBlameTheLists(h: Heap, a: int, s: Slot, p: int, onFreeList: bool)
    ensures UsedSlotError(h.mem, h.iter, a, s, p) != AddressList && NotUsedError(h, p, onFreeList) != AddressList
  {
  }

  /** free keeps the heap in order: it releases the slot of exactly that live pointer, or changes
      nothing but the error number. */
  lemma {:induction false} FreeKeeps(h: Heap, flags: Flags, p: int, onFreeList: bool)
    requires Inv(h) && LevelsOk(h) && !(p in h.slots && h.slots[p].kind.Admin?)
    ensures var (h', ok) := ChunkFree(h, flags, p, onFreeList);
      && Inv(h') && LevelsOk(h') && h'.iter == h.iter && h'.limit == h.limit && Slack(h') == Slack(h)
      && (!ok ==> h' == h.(errno := h'.errno))
      && (ok ==> var a := FindUsed(h, p);
            && a.Some? && a.value in h.slots && h.slots[a.value].kind.User?
            && p == InfoOf(a.value, h.slots[a.value]).userStart
            && h' == Release(h, flags, a.value) && Freed(h, h', flags, a.value))
  {
    hide InvBut, OverwriteError, Freed;
    var a := FindUsed(h, p);
    if p == 0 {
      ErrorKeeps(h, IsNull);
    } else if a.None? || a.value !in h.slots {
      ChecksNeverBlameTheLists(h, 0, NewSlot(User, 0), p, onFreeList);
      ErrorKeeps(h, NotUsedError(h, p, onFreeList));
    } else {
      var s := h.slots[a.value];
      ChecksNeverBlameTheLists(h, a.value, s, p, onFreeList);
      var e := UsedSlotError(h.mem, h.iter, a.value, s, p);
      if e != NoError {
        ErrorKeeps(h, e);
      } else {
        if s.kind.Admin? { AdminStart(h, a.value, p); }
        ReleaseKeeps(h, flags, a.value);
      }
    }
  }

  /** Blocks of records are not fenced, so only their first address passes for a user pointer. */
  lemma {:induction false} AdminStart(h: Heap, a: int, p: int)
    requires Inv(h) && a in h.slots && h.slots[a].kind.Admin?
    requires UsedSlotError(h.mem, h.iter, a, h.slots[a], p) == NoError
    ensures p == a
  {
    assert a in h.slots - {};
  }

  // ---------------------------------------------------------------- realloc

  lemma {:induction false} ResizedFine(mem: seq<Byte>, a: int, was: Slot, flags: Flags, size: nat, func: Func,
                                       iter: nat)
    requires Inside(mem, a, was) && Fits(was) && was.kind.User? && size <= LARGEST_ALLOCATION
    requires InfoOf(a, was).userStart + size <= InfoOf(a, was).upperBounds
    ensures var s := Blanked(was.(user := size), flags);
      var mem' := Cleared(mem, a, s, was.user, Zeroes(func));
      var p := InfoOf(a, was).userStart;
      && |mem'| == |mem|
      && SlotFine(mem', a, s.(useIter := iter, seen := was.seen + 2))
      && (forall x :: 0 <= x < |mem| && !(a <= x < a + was.total) ==> mem'[x] == mem[x])
      && mem'[p..p + Min(was.user, size)] == mem[p..p + Min(was.user, size)]
      && NewBytes(mem, mem', p + was.user, p + size, func, s.blank)
  {
    hide OverwriteError, Cleared;
    var s := Blanked(was.(user := size), flags);
    ClearedIsIntact(mem, a, s, was.user, Zeroes(func));
    StampsDoNotMatter(Cleared(mem, a, s, was.user, Zeroes(func)), a, s, iter, was.seen + 2);
  }

  lemma {:induction false} StampsDoNotMatter(mem: seq<Byte>, a: int, s: Slot, useIter: nat, seen: nat)
    ensures OverwriteError(mem, a, s.(useIter := useIter, seen := seen)) == OverwriteError(mem, a, s)
  {
  }

  lemma {:induction false} CopiedBytes(mem: seq<Byte>, from: int, to: int, n: nat)
    requires 0 <= from && from + n <= |mem| && 0 <= to && to + n <= |mem|
    ensures var mem' := Copied(mem, from, to, n);
      && |mem'| == |mem| && mem'[to..to + n] == mem[from..from + n]
      && forall x :: 0 <= x < |mem| && !(to <= x < to + n) ==> mem'[x] == mem[x]
  {
  }

  /** What a realloc in place changes: the slot has the new size, a blank bit that stays on once it is
      on, and new stamps; the bytes beyond the old size are new; the counters follow the size. */
  ghost predicate ResizedTo(h: Heap, h': Heap, flags: Flags, a: int, size: nat, func: Func) {
    && a in h.slots && a in h'.slots && |h'.mem| == |h.mem|
    && (var was, p := h.slots[a], InfoOf(a, h.slots[a]).userStart;
        var blank := was.blank || flags.allocBlank || flags.checkBlank;
        && h'.slots == h.slots[a := Slot(was.total, was.kind, size, was.fence, was.valloc, blank, h.iter, was.seen + 2)]
        && h'.current == h.current + size - was.user
        && NewBytes(h.mem, h'.mem, p + was.user, p + size, func, blank))
    && h' == h.(slots := h'.slots, mem := h'.mem, current := h'.current)
  }

  lemma {:induction false} ResizedEffect(h: Heap, flags: Flags, a: int, size: nat, func: Func)
    requires a in h.slots && h.slots[a].kind.User? && size <= LARGEST_ALLOCATION
    requires Inside(h.mem, a, h.slots[a]) && Fits(h.slots[a]) && !Moves(flags, a, h.slots[a], size)
    ensures ResizedTo(h, Resized(h, flags, a, size, func).0, flags, a, size, func)
  {
    ResizedFine(h.mem, a, h.slots[a], flags, size, func, h.iter);
    hide NewBytes, Cleared, SlotFine, InfoOf;
  }

  /** realloc in place: the kept bytes stay, recalloc's new bytes are zero, nothing else moves. */
  lemma {:induction false} ResizedKeeps(h: Heap, flags: Flags, a: int, size: nat, func: Func)
    requires Inv(h) && a in h.slots && h.slots[a].kind.User? && size <= LARGEST_ALLOCATION
    requires !Moves(flags, a, h.slots[a], size)
    ensures var (h', r) := Resized(h, flags, a, size, func);
      var p := InfoOf(a, h.slots[a]).userStart;
      && Inv(h') && Slack(h') == Slack(h) && h'.levels == h.levels && h'.limit == h.limit && h'.iter == h.iter
      && r == Some(p) && |h'.mem| == |h.mem| && 0 <= p && p + h.slots[a].user <= |h.mem| && p + size <= |h.mem|
      && (forall x :: 0 <= x < |h.mem| && !(a <= x < a + h.slots[a].total) ==> h'.mem[x] == h.mem[x])
      && h'.mem[p..p + Min(h.slots[a].user, size)] == h.mem[p..p + Min(h.slots[a].user, size)]
      && ResizedTo(h, h', flags, a, size, func)
  {
    hide InvBut, Geometry, ListsOk, Intact, CountedOk, OverwriteError, Cleared, NewBytes, SlotFine, ResizedTo;
    var was := h.slots[a];
    var (h', r) := Resized(h, flags, a, size, func);
    var s := h'.slots[a];
    UserFits(h, a, {});
    UnlistedChanges(h, a, s, {});
    OutKeeps(h, a);
    InvParts(h);
    ResizedFine(h.mem, a, was, flags, size, func, h.iter);
    ResizedEffect(h, flags, a, size, func);
    IntactElsewhere(h.mem, h'.mem, h.slots - {a}, a, was.total);
    ReleasedContents(h, h', a, s);
    InvFrom(h');
  }

  /** Copying into a live user area. */
  lemma {:induction false} CopyKeeps(h: Heap, a: int, from: int, to: int, n: nat)
    requires Inv(h) && a in h.slots && h.slots[a].kind.User?
    requires 0 <= from && from + n <= |h.mem|
    requires InfoOf(a, h.slots[a]).userStart <= to && to + n <= InfoOf(a, h.slots[a]).userBounds
    ensures 0 <= to && to + n <= |h.mem|
    ensures var mem := Copied(h.mem, from, to, n);
      && Inv(h.(mem := mem)) && |mem| == |h.mem|
      && (forall x :: 0 <= x < |mem| && !(to <= x < to + n) ==> mem[x] == h.mem[x])
      && mem[to..to + n] == h.mem[from..from + n]
  {
    AreaInside(h, a);
    AllInside(h, a);
    hide InvBut, Geometry, ListsOk, Intact, CountedOk, Counted, Lists, OverwriteError, SlotFine, Copied, InfoOf;
    var mem := Copied(h.mem, from, to, n);
    CopiedBytes(h.mem, from, to, n);
    InvParts(h);
    assert h.slots - {} == h.slots;
    UserWritesKeepIntact(h.mem, mem, h.slots, a);
    InvFrom(h.(mem := mem));
  }

  lemma {:induction false} AllInside(h: Heap, a: int)
    requires Inv(h) && a in h.slots
    ensures Intact(h.mem, h.slots)
    ensures forall b :: b in h.slots ==> Inside(h.mem, b, h.slots[b])
    ensures forall b :: b in h.slots && b != a ==> Apart(b, h.slots[b].total, a, h.slots[a].total)
  {
    hide ListsOk, CountedOk, SlotFine;
    assert h.slots - {} == h.slots;
  }

  predicate SameOutside(mem: seq<Byte>, mem': seq<Byte>, a: int, n: nat, b: int, m: nat)
    requires |mem'| == |mem|
  {
    forall x :: 0 <= x < |mem| && !(a <= x < a + n) && !(b <= x < b + m) ==> mem'[x] == mem[x]
  }

  /** The slots after a realloc that moved: the new one is set up as malloc does, the old one let go as
      free does, and the counters follow. */
  ghost predicate MovedSlots(h: Heap, h': Heap, a: int, b: int, q: int, flags: Flags, size: nat) {
    && a in h.slots && a in h'.slots && b in h'.slots && b != a
    && (var s, was := h'.slots[b], h.slots[a];
        && s.kind.User? && s.user == size && s.fence == flags.checkFence && !s.valloc
        && (s.blank <==> flags.allocBlank || flags.checkBlank)
        && SmallestTotal(Needs(flags, size, false), s.total)
        && q == b + (if s.fence then 8 else 0)
        && h'.slots[a] == Slot(was.total, Free, was.user, was.fence, false,
                               flags.freeBlank || flags.checkBlank, h.iter, was.seen + 1)
        && h'.current == h.current + size - was.user && h'.pointers == h.pointers
        && h'.given == h.given + s.total - was.total)
    && (if flags.neverReuse then a !in h'.free && a !in h'.wait
        else h'.wait != [] && h'.wait[|h'.wait| - 1] == a)
  }

  /** The bytes after a realloc that moved: the kept ones are in the new area, those behind them are
      new, the old slot is blanked or left, and no byte outside the two slots changed. */
  ghost predicate MovedBytesTo(mem: seq<Byte>, mem': seq<Byte>, a: int, na: nat, b: int, nb: nat,
                               p: int, q: int, user: nat, flags: Flags, size: nat, func: Func) {
    var n := Min(size, user);
    && |mem'| == |mem| && 0 <= p && p + n <= |mem| && 0 <= q && q + size <= |mem|
    && mem'[q..q + n] == mem[p..p + n]
    && NewBytes(mem, mem', q + n, q + size, func, flags.allocBlank || flags.checkBlank)
    && FreedBytes(mem, mem', a, a + na, flags)
    && SameOutside(mem, mem', a, na, b, nb)
  }

  ghost predicate MovedTo(h: Heap, h': Heap, a: int, b: int, q: int, flags: Flags, size: nat, func: Func) {
    && MovedSlots(h, h', a, b, q, flags, size)
    && MovedBytesTo(h.mem, h'.mem, a, h.slots[a].total, b, h'.slots[b].total,
                    InfoOf(a, h.slots[a]).userStart, q, h.slots[a].user, flags, size, func)
  }

  /** The slot being reallocated survives the inner malloc. */
  lemma {:induction false} OldSlotSurvives(h: Heap, h1: Heap, a: int, b: int, p: int,
                                           flags: Flags, size: nat, func: Func, alignment: nat)
    requires Inv(h) && Inv(h1) && a in h.slots && h.slots[a].kind.User?
    requires HandedOut(h, h1, b, p, flags, size, func, alignment)
    ensures b != a && a in h1.slots && h1.slots[a] == h.slots[a]
    ensures Apart(a, h.slots[a].total, b, h1.slots[b].total)
    ensures InPlace(|h.mem|, a, h.slots[a].total)
  {
    hide ListsOk, Intact, CountedOk;
  }

  /** What is left to do once the new area b is there: copy and release. */
  function CopyAndRelease(h: Heap, flags: Flags, a: int, q: int, n: nat): Heap
    requires a in h.slots
  {
    var p := InfoOf(a, h.slots[a]).userStart;
    if 0 <= p && p + n <= |h.mem| && 0 <= q && q + n <= |h.mem| then
      Release(h.(mem := Copied(h.mem, p, q, n)), flags, a)
    else h
  }

  /** The bytes of a move, from before it (m0) over the new area (m1) and the copy (m2) to after
      the old area was let go (m3). */
  lemma {:induction false} MovedBytes(m0: seq<Byte>, m1: seq<Byte>, m2: seq<Byte>, m3: seq<Byte>,
                                      a: int, na: nat, b: int, nb: nat, p: int, q: int, n: nat)
    requires |m0| == |m1| == |m2| == |m3| && Apart(a, na, b, nb)
    requires 0 <= a <= p && p + n <= a + na <= |m0| && 0 <= b <= q && q + n <= b + nb <= |m0|
    requires forall x :: 0 <= x < |m0| && !(b <= x < b + nb) ==> m1[x] == m0[x]
    requires m2[q..q + n] == m1[p..p + n]
    requires forall x :: 0 <= x < |m0| && !(q <= x < q + n) ==> m2[x] == m1[x]
    requires forall x :: 0 <= x < |m0| && !(a <= x < a + na) ==> m3[x] == m2[x]
    ensures m3[q..q + n] == m0[p..p + n]
    ensures SameOutside(m0, m3, a, na, b, nb)
    ensures forall x :: q + n <= x < b + nb ==> m3[x] == m1[x]
  {
    assert m1[p..p + n] == m0[p..p + n];
    assert m3[q..q + n] == m2[q..q + n];
  }

  lemma {:induction false} TailStays(m0: seq<Byte>, m1: seq<Byte>, m3: seq<Byte>, q: int, n: nat, size: nat, end: int,
                                     func: Func, blank: bool)
    requires |m1| == |m3| && NewBytes(m0, m1, q, q + size, func, blank)
    requires 0 <= q && n <= size && q + size <= end <= |m1| && forall x :: q + n <= x < end ==> m3[x] == m1[x]
    ensures NewBytes(m0, m3, q + n, q + size, func, blank)
  {
  }

  /** The bytes of the slot that was left, over the same four steps. */
  lemma {:induction false} LetGoBytes(m0: seq<Byte>, m1: seq<Byte>, m2: seq<Byte>, m3: seq<Byte>,
                                      a: int, na: nat, b: int, nb: nat, q: int, n: nat, flags: Flags)
    requires |m0| == |m1| == |m2| == |m3| && Apart(a, na, b, nb) && b <= q && q + n <= b + nb
    requires forall x :: 0 <= x < |m0| && !(b <= x < b + nb) ==> m1[x] == m0[x]
    requires forall x :: 0 <= x < |m0| && !(q <= x < q + n) ==> m2[x] == m1[x]
    requires FreedBytes(m2, m3, a, a + na, flags)
    ensures FreedBytes(m0, m3, a, a + na, flags)
  {
  }

  /** A live user area lies inside its slot. */
  lemma {:induction false} AreaInside(h: Heap, a: int)
    requires Inv(h) && a in h.slots && h.slots[a].kind.User?
    ensures var p := InfoOf(a, h.slots[a]).userStart;
      && 0 <= a <= p && p + h.slots[a].user <= a + h.slots[a].total <= |h.mem| && p > 0
      && InfoOf(a, h.slots[a]).userBounds == p + h.slots[a].user
  {
    UserFits(h, a, {});
    PointerAligned(|h.mem|, a, h.slots[a]);
  }

  lemma {:induction false} CopyAndReleaseMoves(h: Heap, h1: Heap, a: int, b: int, q: int,
                                               flags: Flags, size: nat, func: Func)
    requires Inv(h) && Inv(h1) && a in h.slots && h.slots[a].kind.User? && h1.iter == h.iter
    requires HandedOut(h, h1, b, q, flags, size, func, 0)
    ensures a in h1.slots
    ensures MovedTo(h, CopyAndRelease(h1, flags, a, q, Min(size, h.slots[a].user)), a, b, q, flags, size, func)
  {
    hide InvBut, OverwriteError, Fits, Cleared, InPlace, OthersKept, Copied, Release, InfoOf, HandedOut;
    hide Freed, MovedSlots, MovedBytesTo, SetUpIn, LetGo, NewBytes, FreedBytes;
    OldSlotSurvives(h, h1, a, b, q, flags, size, func, 0);
    AreaInside(h, a);
    NewArea(h, h1, b, q, flags, size, func);
    AreaInside(h1, b);
    var p, n := InfoOf(a, h.slots[a]).userStart, Min(size, h.slots[a].user);
    CopyKeeps(h1, b, p, q, n);
    var h2 := h1.(mem := Copied(h1.mem, p, q, n));
    ReleaseKeeps(h2, flags, a);
    var h' := Release(h2, flags, a);
    UserFits(h1, a, {});
    NewSlotIs(h, h1, b, q, flags, size, func);
    OldSlotIs(h1, h2, h', flags, a);
    SlotsMoved(h, h1, h', a, b, q, flags, size);
    FreedParts(h2, h', flags, a);
    BytesMoved(h.mem, h1.mem, h2.mem, h'.mem, a, h.slots[a].total, b, h1.slots[b].total, p, q, h.slots[a].user,
               flags, size, func);
  }

  lemma {:induction false} FreedParts(h: Heap, h': Heap, flags: Flags, a: int)
    requires Freed(h, h', flags, a)
    ensures FreedBytes(h.mem, h'.mem, a, a + h.slots[a].total, flags) && |h'.mem| == |h.mem|
    ensures forall x :: 0 <= x < |h.mem| && !(a <= x < a + h.slots[a].total) ==> h'.mem[x] == h.mem[x]
    ensures forall b :: b in h.slots && b != a ==> b in h'.slots && h'.slots[b] == h.slots[b]
  {
  }

  lemma {:induction false} NewArea(h: Heap, h1: Heap, b: int, q: int, flags: Flags, size: nat, func: Func)
    requires HandedOut(h, h1, b, q, flags, size, func, 0)
    ensures b in h1.slots && h1.slots[b].kind.User? && h1.slots[b].user == size
    ensures q == InfoOf(b, h1.slots[b]).userStart && InfoOf(b, h1.slots[b]).userBounds == q + size
    ensures b <= q && q + size <= b + h1.slots[b].total <= |h.mem| && |h1.mem| == |h.mem|
    ensures forall x :: 0 <= x < |h.mem| && !(b <= x < b + h1.slots[b].total) ==> h1.mem[x] == h.mem[x]
    ensures NewBytes(h.mem, h1.mem, q, q + size, func, flags.allocBlank || flags.checkBlank)
  {
    hide NewBytes, SmallestTotal, Needs, OthersKept;
  }

  /** The new slot and the counters after it was handed out. */
  ghost predicate SetUpIn(h: Heap, h1: Heap, b: int, q: int, flags: Flags, size: nat) {
    && b in h1.slots
    && (var s := h1.slots[b];
        && s.kind.User? && s.user == size && s.fence == flags.checkFence && !s.valloc
        && (s.blank <==> flags.allocBlank || flags.checkBlank)
        && SmallestTotal(Needs(flags, size, false), s.total) && q == b + (if s.fence then 8 else 0)
        && h1.given == h.given + s.total)
    && h1.current == h.current + size && h1.pointers == h.pointers + 1
  }

  lemma {:induction false} NewSlotIs(h: Heap, h1: Heap, b: int, q: int, flags: Flags, size: nat, func: Func)
    requires HandedOut(h, h1, b, q, flags, size, func, 0)
    ensures SetUpIn(h, h1, b, q, flags, size)
  {
    hide SmallestTotal, Needs, NewBytes, OthersKept, InfoOf;
  }

  /** The old slot, the lists and the counters after it was let go. */
  ghost predicate LetGo(h: Heap, h': Heap, flags: Flags, a: int) {
    && a in h.slots && a in h'.slots
    && (var was := h.slots[a];
        && h'.slots == h.slots[a := Slot(was.total, Free, was.user, was.fence, false,
                                         flags.freeBlank || flags.checkBlank, h.iter, was.seen + 1)]
        && h'.current == h.current - was.user && h'.given == h.given - was.total)
    && h'.pointers == h.pointers - 1
    && h'.free == h.free && h'.wait == (if flags.neverReuse then h.wait else h.wait + [a])
  }

  lemma {:induction false} OldSlotIs(h1: Heap, h2: Heap, h': Heap, flags: Flags, a: int)
    requires h2 == h1.(mem := h2.mem) && Freed(h2, h', flags, a)
    ensures LetGo(h1, h', flags, a)
  {
    hide FreedBytes;
  }

  lemma {:induction false} SlotsMoved(h: Heap, h1: Heap, h': Heap, a: int, b: int, q: int, flags: Flags, size: nat)
    requires a in h.slots && a in h1.slots && h1.slots[a] == h.slots[a] && a != b && h1.iter == h.iter
    requires a !in h1.free && a !in h1.wait
    requires SetUpIn(h, h1, b, q, flags, size) && LetGo(h1, h', flags, a)
    ensures MovedSlots(h, h', a, b, q, flags, size)
  {
    hide SmallestTotal, Needs;
  }

  lemma {:induction false} BytesMoved(m0: seq<Byte>, m1: seq<Byte>, m2: seq<Byte>, m3: seq<Byte>,
                                      a: int, na: nat, b: int, nb: nat, p: int, q: int, user: nat,
                                      flags: Flags, size: nat, func: Func)
    requires |m0| == |m1| == |m2| == |m3| && Apart(a, na, b, nb)
    requires 0 <= a <= p && p + user <= a + na <= |m0| && 0 <= b <= q && q + size <= b + nb <= |m0|
    requires forall x :: 0 <= x < |m0| && !(b <= x < b + nb) ==> m1[x] == m0[x]
    requires NewBytes(m0, m1, q, q + size, func, flags.allocBlank || flags.checkBlank)
    requires m2[q..q + Min(size, user)] == m1[p..p + Min(size, user)]
    requires forall x :: 0 <= x < |m0| && !(q <= x < q + Min(size, user)) ==> m2[x] == m1[x]
    requires FreedBytes(m2, m3, a, a + na, flags)
    requires forall x :: 0 <= x < |m0| && !(a <= x < a + na) ==> m3[x] == m2[x]
    ensures MovedBytesTo(m0, m3, a, na, b, nb, p, q, user, flags, size, func)
  {
    var n := Min(size, user);
    hide NewBytes, FreedBytes, SameOutside;
    MovedBytes(m0, m1, m2, m3, a, na, b, nb, p, q, n);
    LetGoBytes(m0, m1, m2, m3, a, na, b, nb, q, n, flags);
    TailStays(m0, m1, m3, q, n, size, b + nb, func, flags.allocBlank || flags.checkBlank);
  }

  lemma {:induction false} FreeAfterCopy(h: Heap, h1: Heap, a: int, b: int, q: int,
                                         flags: Flags, size: nat, func: Func, onFreeList: bool)
    requires Inv(h) && Inv(h1) && a in h.slots && h.slots[a].kind.User?
    requires h.slots[a].seen <= 2 * h.iter + 1 && h1.iter == h.iter
    requires HandedOut(h, h1, b, q, flags, size, func, 0)
    ensures a in h1.slots && h1.slots[a] == h.slots[a]
    ensures var p, n := InfoOf(a, h.slots[a]).userStart, Min(size, h.slots[a].user);
      && 0 <= p && p + n <= |h1.mem| && 0 <= q && q + n <= |h1.mem|
      && ChunkFree(h1.(mem := Copied(h1.mem, p, q, n)), flags, p, onFreeList)
           == (Release(h1.(mem := Copied(h1.mem, p, q, n)), flags, a), true)
  {
    hide InvBut, OverwriteError, Fits, Cleared, TotalFor, NeededSize, InPlace, Copied, OthersKept, ChunkFree, Release;
    OldSlotSurvives(h, h1, a, b, q, flags, size, func, 0);
    AreaInside(h, a);
    var p, n := InfoOf(a, h.slots[a]).userStart, Min(size, h.slots[a].user);
    CopyKeeps(h1, b, p, q, n);
    FreeOfLive(h1.(mem := Copied(h1.mem, p, q, n)), flags, a, onFreeList);
  }

  /** realloc of a live pointer by moving. */
  lemma {:induction false} MovedRealloc(h: Heap, flags: Flags, a: int, size: nat, func: Func, onFreeList: bool)
    requires Inv(h) && LevelsOk(h) && a in h.slots && h.slots[a].kind.User?
    requires h.slots[a].seen <= 2 * h.iter + 1 && Moves(flags, a, h.slots[a], size)
    ensures var p := InfoOf(a, h.slots[a]).userStart;
      var (h1, q) := ChunkMalloc(h, flags, size, func, 0);
      var (h', r) := ChunkRealloc(h, flags, p, size, func, onFreeList);
      && r == q
      && (q.None? ==> h' == h1)
      && (q.Some? ==> a in h1.slots && h' == CopyAndRelease(h1, flags, a, q.value, Min(size, h.slots[a].user)))
  {
    hide InvBut, LevelsOk, ChunkMalloc, ChunkFree, UsedSlotError, SlotGot, Release, HandedOut, Copied, OthersKept;
    hide Moves;
    LivePointerPasses(h, a);
    MallocKeeps(h, flags, size, func, 0);
    var (h1, q) := ChunkMalloc(h, flags, size, func, 0);
    if q.Some? {
      var b := SlotGot(h, flags, size, func, 0).value;
      FreeAfterCopy(h, h1, a, b, q.value, flags, size, func, onFreeList);
    }
  }

  lemma {:induction false} FreeOfLive(h: Heap, flags: Flags, a: int, onFreeList: bool)
    requires Inv(h) && a in h.slots && h.slots[a].kind.User? && h.slots[a].seen <= 2 * h.iter + 1
    ensures ChunkFree(h, flags, InfoOf(a, h.slots[a]).userStart, onFreeList) == (Release(h, flags, a), true)
  {
    hide InvBut, UsedSlotError, Release;
    LivePointerPasses(h, a);
  }

  // ---------------------------------------------------------------- realloc of any pointer

  predicate InAdminMemory(h: Heap, p: int) {
    exists a :: a in h.slots && h.slots[a].kind.Admin? && Holds(h, a, p)
  }

  /** realloc keeps the heap in order even for pointers into the middle of an area; only the
      manager's own blocks must be kept away from it. */
  lemma {:induction false} ReallocKeeps(h: Heap, flags: Flags, p: int, size: nat, func: Func, onFreeList: bool)
    requires Inv(h) && LevelsOk(h) && size <= LARGEST_ALLOCATION && !InAdminMemory(h, p)
    ensures var (h', r) := ChunkRealloc(h, flags, p, size, func, onFreeList);
      && Inv(h') && LevelsOk(h') && h'.iter == h.iter && h'.limit == h.limit
      && Slack(h') >= Slack(h) && (r.Some? ==> Slack(h') == Slack(h))
  {
    hide InvBut, LevelsOk, ChunkMalloc, ChunkFree, SlotGot, Copied, Moves, Resized;
    var a := FindUsed(h, p);
    if p == 0 {
      ErrorKeeps(h, IsNull);
      SameLevels(h, Error(h, IsNull));
    } else if a.None? || a.value !in h.slots {
      ErrorKeeps(h, NotFound);
      SameLevels(h, Error(h, NotFound));
    } else {
      HolderIsUser(h, p);
      if !Moves(flags, a.value, h.slots[a.value], size) {
        ResizedKeeps(h, flags, a.value, size, func);
        SameLevels(h, Resized(h, flags, a.value, size, func).0);
      } else {
        MovingKeeps(h, flags, p, a.value, size, func, onFreeList);
        var from, n := InfoOf(a.value, h.slots[a.value]).userStart, Min(size, h.slots[a.value].user);
        var (h1, q) := ChunkMalloc(h, flags, size, func, 0);
        assert q.None? ==> ChunkRealloc(h, flags, p, size, func, onFreeList) == (h1, None);
        if q.Some? {
          assert ChunkRealloc(h, flags, p, size, func, onFreeList).0 ==
                 ChunkFree(h1.(mem := Copied(h1.mem, from, q.value, n)), flags, p, onFreeList).0;
        }
      }
    }
  }

  lemma {:induction false} HolderIsUser(h: Heap, p: int)
    requires FindUsed(h, p).Some? && !InAdminMemory(h, p)
    ensures var a := FindUsed(h, p).value; a in h.slots && h.slots[a].kind.User? && Holds(h, a, p)
  {
  }

  lemma {:induction false} MovingKeeps(h: Heap, flags: Flags, p: int, a: int, size: nat, func: Func, onFreeList: bool)
    requires Inv(h) && LevelsOk(h) && a in h.slots && h.slots[a].kind.User? && Holds(h, a, p)
    ensures var from, n := InfoOf(a, h.slots[a]).userStart, Min(size, h.slots[a].user);
      var (h1, q) := ChunkMalloc(h, flags, size, func, 0);
      && Inv(h1) && LevelsOk(h1) && Slack(h1) >= Slack(h) && h1.iter == h.iter && h1.limit == h.limit
      && (q.Some? ==>
            && 0 <= from && from + n <= |h1.mem| && 0 <= q.value && q.value + n <= |h1.mem|
            && var (h2, ok) := ChunkFree(h1.(mem := Copied(h1.mem, from, q.value, n)), flags, p, onFreeList);
            Inv(h2) && LevelsOk(h2) && Slack(h2) == Slack(h) && h2.iter == h.iter && h2.limit == h.limit)
  {
    hide InvBut, LevelsOk, ChunkMalloc, ChunkFree, SlotGot, Copied, OthersKept, Fits, InPlace, OverwriteError;
    MallocKeeps(h, flags, size, func, 0);
    var (h1, q) := ChunkMalloc(h, flags, size, func, 0);
    if q.Some? {
      var b := SlotGot(h, flags, size, func, 0).value;
      OldSlotSurvives(h, h1, a, b, q.value, flags, size, func, 0);
      AreaInside(h, a);
      var from, n := InfoOf(a, h.slots[a]).userStart, Min(size, h.slots[a].user);
      CopyKeeps(h1, b, from, q.value, n);
      var h2 := h1.(mem := Copied(h1.mem, from, q.value, n));
      SameLevels(h1, h2);
      NotAdminStart(h2, a, p);
      FreeKeeps(h2, flags, p, onFreeList);
    }
  }

  lemma {:induction false} NotAdminStart(h: Heap, a: int, p: int)
    requires Inv(h) && a in h.slots && h.slots[a].kind.User? && Holds(h, a, p)
    ensures !(p in h.slots && h.slots[p].kind.Admin?)
  {
    if p in h.slots {
      assert InPlace(|h.mem|, p, h.slots[p].total);
      HolderUnique(h, a, p, p, {});
    }
  }
}
