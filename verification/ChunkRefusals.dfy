/** Why a request is refused, and what a refusal leaves behind. */
module ChunkRefusals {
  import opened Basics
  import opened ChunkModel
  import opened ChunkInvariant
  import opened ChunkOperations

  lemma {:induction false} GetSlotFails(h: Heap)
    ensures var (h', ok) := GetSlot(h); !ok ==> h'.errno == AllocFailed || h'.corrupt
  {
  }

  lemma {:induction false} InsertAddressFails(h: Heap, a: int, kind: Kind, total: nat)
    ensures var (h', ok) := InsertAddress(h, a, kind, total); !ok ==> h'.errno == AllocFailed || h'.corrupt
  {
    hide GetSlot, InsertFree;
    GetSlotFails(h);
  }

  lemma {:induction false} MakeChunksFails(h: Heap, a: int, last: int, div: nat)
    requires div > 0
    decreases if last < a then 0 else last - a + 1
    ensures var (h', ok) := MakeChunks(h, a, last, div); !ok ==> h'.errno == AllocFailed || h'.corrupt
  {
    hide InsertAddress;
    if a <= last {
      InsertAddressFails(h, a, Free, div);
      var (h1, ok) := InsertAddress(h, a, Free, div);
      if ok {
        MakeChunksFails(h1.(freeBytes := h1.freeBytes + div), a + div, last, div);
      }
    }
  }

  lemma {:induction false} GetMemoryFails(h: Heap, size: nat)
    ensures var (h', r) := GetMemory(h, size);
      var over := h.limit > 0 && h.given + size > h.limit;
      && (over ==> r.None? && h'.errno == OverLimit)
      && (!over && r.None? ==> h'.errno == AllocFailed || h'.corrupt)
  {
    hide UseFree, InsertAddress, MakeChunks;
    if size <= BLOCK / 2 {
      var div := ChunkFor(size, SMALLEST_CHUNK);
      var h1 := UseFree(h, div).0;
      var (h2, mem) := HeapAlloc(h1, BLOCK);
      if mem.Some? {
        MakeChunksFails(h2.(userBlocks := h2.userBlocks + 1), mem.value, mem.value + BLOCK - div, div);
      }
    } else {
      var need := BlocksFor(size) * BLOCK;
      var h1 := RetryLarger(UseFree(h, need).0, size, need).0;
      var (h2, mem) := HeapAlloc(h1, need);
      if mem.Some? {
        InsertAddressFails(h2.(userBlocks := h2.userBlocks + BlocksFor(size)), mem.value, User, need);
      }
    }
  }

  /** Why malloc refuses: too big, over the limit, or the system gave no memory; nothing else can
      make it fail, and the first two always do. */
  lemma {:induction false} RefusedMalloc(h: Heap, flags: Flags, size: nat, func: Func, alignment: nat)
    requires Inv(h) && LevelsOk(h)
    ensures var (h', r) := ChunkMalloc(h, flags, size, func, alignment);
      var over := h.limit > 0 && h.given + Needs(flags, size, alignment == BLOCK && func != Calloc) > h.limit;
      && (size > LARGEST_ALLOCATION || over ==> r.None?)
      && (r.None? ==> h'.errno == if size > LARGEST_ALLOCATION then TooBig else if over then OverLimit else AllocFailed)
  {
    NeedsIt(flags, size, func, alignment);
    MallocKeeps(h, flags, size, func, alignment);
    var h' := ChunkMalloc(h, flags, size, func, alignment).0;
    assert !h'.corrupt by { hide ChunkMalloc; }
    hide InvBut, LevelsOk, GetMemory, Hand;
    if size <= LARGEST_ALLOCATION {
      GetMemoryFails(h, NeededSize(flags, size, IsValloc(func, alignment)));
    }
  }

  /** A refusal that is not the system's leaves everything but the error number as it was. */
  lemma {:induction false} RefusedAtOnce(h: Heap, flags: Flags, size: nat, func: Func, alignment: nat)
    requires Inv(h) && LevelsOk(h)
    ensures var (h', r) := ChunkMalloc(h, flags, size, func, alignment);
      r.None? && h'.errno != AllocFailed ==> h' == Error(h, h'.errno)
  {
    RefusedMalloc(h, flags, size, func, alignment);
    hide InvBut, LevelsOk, GetDivided, UseFree, InsertAddress, Hand, RetryLarger, HeapAlloc;
  }
}
