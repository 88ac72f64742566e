/** The chunk manager as functions on its state: where a request is served from, what is written
    around a user area, and what freeing and reallocating do.  ChunkHeap carries out the same
    operations step by step over skip lists and is proved to agree with these functions. */
module ChunkModel {
  import opened Basics

  type Byte = b: int | 0 <= b < 0x100

  const BLOCK: nat := 0x8000
  const SMALLEST_CHUNK: nat := 16
  const LARGEST_ALLOCATION: nat := 0x1000_0000
  const REUSE_DELAY: nat := 20
  const BOTTOM: nat := 8
  const TOP: nat := 4
  const ALLOC_BLANK: Byte := 0xDA
  const FREE_BLANK: Byte := 0xDF
  /** The fence magics 0xC0C0AB1B (twice) and 0xFACADE69 as stored on a little-endian machine. */
  const FENCE_BOTTOM: seq<Byte> := [0x1B, 0xAB, 0xC0, 0xC0, 0x1B, 0xAB, 0xC0, 0xC0]
  const FENCE_TOP: seq<Byte> := [0x69, 0xDE, 0xCA, 0xFA]

  datatype Kind = User | Free | Admin

  /** A slot record; the address of its memory is the key it is stored under. */
  datatype Slot = Slot(total: nat, kind: Kind, user: nat, fence: bool, valloc: bool, blank: bool,
                       useIter: nat, seen: nat)

  /** The debug bits that change what memory operations do. */
  datatype Flags = Flags(checkFence: bool, checkBlank: bool, allocBlank: bool, freeBlank: bool,
                         reallocCopy: bool, neverReuse: bool, errorFreeNull: bool)

  datatype Func = Malloc | Calloc | Realloc | Recalloc

  datatype Errno = NoError | AddressList | AllocFailed | OverLimit | TooBig | IsNull | NotFound
                 | AlreadyFree | WouldOverwrite | NotStartBlock | BadSize | NotOnBlock | SlotCorrupt
                 | UnderFence | OverFence | FreeOverwritten

  /** What the system answers to one coming request for more heap: memory for any request of at
      most `size` bytes, at `base`.  A grant of size 0 refuses every request. */
  datatype Grant = Grant(base: int, size: nat)

  datatype Heap = Heap(
    mem: seq<Byte>,            // the address space
    slots: map<int, Slot>,     // every slot ever made
    free: seq<int>,            // free list, by size
    wait: seq<int>,            // freed slots waiting out the reuse delay, oldest first
    spare: map<nat, nat>,      // unused slot records, per level
    grants: seq<Grant>,        // coming answers of the system
    levels: seq<nat>,          // coming random levels
    iter: nat, limit: nat,
    current: int, given: int, pointers: int, freeBytes: int,
    userBlocks: nat, adminBlocks: nat,
    errno: Errno,
    corrupt: bool)             // a "this isn't right" branch was taken

  function Total(h: Heap, a: int): nat
  {
    if a in h.slots then h.slots[a].total else 0
  }

  function Error(h: Heap, e: Errno): Heap
  {
    h.(errno := e, corrupt := h.corrupt || e == AddressList)
  }

  // ---------------------------------------------------------------- memory

  /** memset / memcpy on the address space. */
  function Written(mem: seq<Byte>, at: int, bytes: seq<Byte>): seq<Byte>
    requires 0 <= at && at + |bytes| <= |mem|
  {
    mem[..at] + bytes + mem[at + |bytes|..]
  }

  function Filled(mem: seq<Byte>, at: int, n: nat, b: Byte): seq<Byte>
    requires 0 <= at && at + n <= |mem|
  {
    Written(mem, at, seq(n, _ => b))
  }

  /** get_pnt_info: the places inside a slot's memory. */
  datatype Info = Info(fenceBottom: int, userStart: int, userBounds: int, fenceTop: int,
                       upperBounds: int, allocBounds: int)

  function InfoOf(a: int, s: Slot): Info
  {
    var userStart := if s.fence then (if s.valloc then a + BLOCK else a + BOTTOM) else a;
    var userBounds := userStart + s.user;
    var allocBounds := a + s.total;
    Info(userStart - BOTTOM, userStart, userBounds, userBounds,
         if s.fence then allocBounds - TOP else allocBounds, allocBounds)
  }

  /** The byte clear_alloc leaves at address x, when the first `kept` user bytes are kept. */
  function ClearedByte(mem: seq<Byte>, a: int, s: Slot, kept: nat, zero: bool, x: int): Byte
    requires 0 <= x < |mem|
  {
    var i := InfoOf(a, s);
    if x < a || i.allocBounds <= x then mem[x]
    else if s.fence && x < i.fenceBottom then (if s.blank then ALLOC_BLANK else mem[x])
    else if s.fence && x < i.userStart then FENCE_BOTTOM[x - i.fenceBottom]
    else if x < i.userBounds then
      if x < i.userStart + kept then mem[x]
      else if zero then 0
      else if s.blank then ALLOC_BLANK
      else mem[x]
    else if s.fence && x < i.fenceTop + TOP then FENCE_TOP[x - i.fenceTop]
    else if s.blank then ALLOC_BLANK
    else mem[x]
  }

  /** The user area and the fences lie inside the slot. */
  predicate Fits(s: Slot) {
    && InfoOf(0, s).userBounds <= InfoOf(0, s).upperBounds
    && (s.valloc ==> s.total >= BLOCK)
  }

  function Cleared(mem: seq<Byte>, a: int, s: Slot, kept: nat, zero: bool): (r: seq<Byte>)
  {
    seq(|mem|, x requires 0 <= x < |mem| => ClearedByte(mem, a, s, kept, zero, x))
  }

  /** clear_alloc marks the slot as blanked when either blank bit is on. */
  function Blanked(s: Slot, flags: Flags): Slot
  {
    if flags.allocBlank || flags.checkBlank then s.(blank := true) else s
  }

  // ---------------------------------------------------------------- where memory comes from

  /** _dmalloc_heap_alloc. */
  function HeapAlloc(h: Heap, size: nat): (Heap, Option<int>)
  {
    if h.grants == [] || h.grants[0].size < size then
      (Error(h.(grants := if h.grants == [] then [] else h.grants[1..]), AllocFailed), None)
    else
      (h.(grants := h.grants[1..]), Some(h.grants[0].base))
  }

  /** Slot records that fit a block of records with `level` + 1 next pointers (64-bit pointers). */
  function RecordSize(level: nat): nat { 56 + 8 * level }

  function RecordsPerBlock(level: nat): nat
  {
    (BLOCK - 4 - 24 - 1) / RecordSize(level)
  }

  /** get_slot: an unused record, getting a block of records when there is none. */
  function GetSlot(h: Heap): (Heap, bool)
  {
    var level := if h.levels == [] then 0 else h.levels[0];
    var h := h.(levels := if h.levels == [] then [] else h.levels[1..]);
    if level in h.spare && h.spare[level] > 0 then
      (h.(spare := h.spare[level := h.spare[level] - 1]), true)
    else NewRecords(h, level)
  }

  const ADMIN_SLOT: Slot := Slot(BLOCK, Admin, 0, false, false, false, 0, 0)

  /** alloc_slots and the rest of get_slot: a block of records, which itself goes on the used list
      with one record; another record is for the caller. */
  function NewRecords(h: Heap, level: nat): (Heap, bool)
  {
    var (h, mem) := HeapAlloc(h, BLOCK);
    if mem.None? then (h, false)
    else if RecordsPerBlock(level) == 0 then (Error(h, AddressList), false)
    else if Used(h, mem.value) then (Error(h, AddressList), false)
    else
      var h := h.(slots := h.slots[mem.value := ADMIN_SLOT], adminBlocks := h.adminBlocks + 1);
      if RecordsPerBlock(level) == 1 then (Error(h, AddressList), false)
      else (h.(spare := h.spare[level := RecordsPerBlock(level) - 2]), true)
  }

  /** A slot of the used list starts at a. */
  predicate Used(h: Heap, a: int) {
    a in h.slots && !h.slots[a].kind.Free?
  }

  /** Index of the first free slot of at least the given size. */
  function SizePos(free: seq<int>, slots: map<int, Slot>, size: nat, i: nat): (p: nat)
    requires i <= |free|
    decreases |free| - i
    ensures i <= p <= |free|
  {
    if i == |free| || (free[i] in slots && slots[free[i]].total >= size) then i
    else SizePos(free, slots, size, i + 1)
  }

  /** insert_slot on the free list: in front of the slots of the same size. */
  function InsertFree(h: Heap, a: int): Heap
  {
    var p := SizePos(h.free, h.slots, Total(h, a), 0);
    h.(free := h.free[..p] + [a] + h.free[p..])
  }

  /** insert_address. */
  function InsertAddress(h: Heap, a: int, kind: Kind, total: nat): (Heap, bool)
  {
    var (h, ok) := GetSlot(h);
    if !ok then (h, false)
    else if kind.User? && Used(h, a) then (Error(h, AddressList), false)
    else
      var h := h.(slots := h.slots[a := Slot(total, kind, 0, false, false, false, 0, 0)]);
      (if kind.Free? then InsertFree(h, a) else h, true)
  }

  /** The loop of create_divided_chunks from address a on. */
  function MakeChunks(h: Heap, a: int, last: int, div: nat): (Heap, bool)
    requires div > 0
    decreases if last < a then 0 else last - a + 1
  {
    if last < a then (h, true)
    else
      var (h, ok) := InsertAddress(h, a, Free, div);
      if !ok then (h, false) else MakeChunks(h.(freeBytes := h.freeBytes + div), a + div, last, div)
  }

  function CreateDivided(h: Heap, div: nat): (Heap, bool)
    requires div > 0
  {
    var (h, mem) := HeapAlloc(h, BLOCK);
    if mem.None? then (h, false)
    else MakeChunks(h.(userBlocks := h.userBlocks + 1), mem.value, mem.value + BLOCK - div, div)
  }

  predicate Ripe(h: Heap, a: int) {
    a in h.slots && h.slots[a].useIter + REUSE_DELAY <= h.iter
  }

  /** The front of use_free_memory: waiters whose delay is over join the free list, oldest first. */
  function Promote(h: Heap): Heap
    decreases |h.wait|
  {
    if h.wait == [] || !Ripe(h, h.wait[0]) then h
    else Promote(InsertFree(h.(wait := h.wait[1..]), h.wait[0]))
  }

  /** find_free_size, remove_slot and the move to the used list. */
  function TakeFree(h: Heap, size: nat): (Heap, Option<int>)
  {
    var p := SizePos(h.free, h.slots, size, 0);
    if p == |h.free| || Total(h, h.free[p]) != size then (h, None)
    else
      var a := h.free[p];
      if !(a in h.slots && h.slots[a].kind.Free?) then (Error(h, AddressList), None)
      else
        var s := h.slots[a].(kind := User, fence := false, valloc := false, blank := false);
        (h.(free := h.free[..p] + h.free[p + 1..], slots := h.slots[a := s],
            freeBytes := h.freeBytes - s.total), Some(a))
  }

  function UseFree(h: Heap, size: nat): (Heap, Option<int>)
  {
    TakeFree(Promote(h), size)
  }

  /** The first of 16, 32, 64, ... that holds the request. */
  function ChunkFor(size: nat, from: nat): (c: nat)
    requires from > 0
    ensures c >= from && c >= size
    decreases size - from
  {
    if size <= from then from else ChunkFor(size, 2 * from)
  }

  function GetDivided(h: Heap, size: nat): (Heap, Option<int>)
  {
    var need := ChunkFor(size, SMALLEST_CHUNK);
    var (h, a) := UseFree(h, need);
    if a.Some? then (h, a)
    else
      var (h, ok) := CreateDivided(h, need);
      if !ok then (h, None)
      else
        var (h, a) := UseFree(h, need);
        if a.None? then (Error(h, AddressList), None) else (h, a)
  }

  function BlocksFor(size: nat): nat { (size + BLOCK - 1) / BLOCK }

  /** get_memory. */
  function GetMemory(h: Heap, size: nat): (Heap, Option<int>)
  {
    if h.limit > 0 && h.given + size > h.limit then (Error(h, OverLimit), None)
    else if size <= BLOCK / 2 then GetDivided(h, size)
    else
      var need := BlocksFor(size) * BLOCK;
      var (h, a) := UseFree(h, need);
      if a.Some? then (h, a)
      else
        var (h, again) := RetryLarger(h, size, need);
        if again.Some? then (Error(h, AddressList), None)
        else
          var (h, mem) := HeapAlloc(h, need);
          if mem.None? then (h, None)
          else
            var (h, ok) := InsertAddress(h.(userBlocks := h.userBlocks + BlocksFor(size)),
                                         mem.value, User, need);
            (h, if ok then mem else None)
  }

  /** The second look get_memory takes when the slot left of the search is larger than asked. */
  function RetryLarger(h: Heap, size: nat, need: nat): (Heap, Option<int>)
  {
    var p := SizePos(h.free, h.slots, need, 0);
    if p > 0 && Total(h, h.free[p - 1]) > size then UseFree(h, need) else (h, None)
  }

  // ---------------------------------------------------------------- malloc

  predicate IsValloc(func: Func, alignment: nat) {
    !func.Calloc? && alignment == BLOCK
  }

  /** What a request needs in all. */
  function NeededSize(flags: Flags, size: nat, valloc: bool): nat
  {
    if flags.checkFence then size + BOTTOM + TOP + (if valloc then BLOCK else 0)
    else if valloc && size <= BLOCK / 2 then BLOCK
    else size
  }

  predicate Zeroes(func: Func) { func.Calloc? || func.Recalloc? }

  /** The slot as malloc sets it up. */
  function SetUp(s: Slot, flags: Flags, size: nat, valloc: bool, iter: nat): Slot
  {
    Blanked(s.(fence := flags.checkFence, valloc := valloc, user := size), flags)
      .(useIter := iter, seen := s.seen + 1)
  }

  /** The part of _dmalloc_chunk_malloc after it got memory. */
  function Hand(h: Heap, flags: Flags, size: nat, func: Func, valloc: bool, a: int): (Heap, Option<int>)
  {
    if a !in h.slots then (h, None)
    else
      var s := SetUp(h.slots[a], flags, size, valloc, h.iter);
      (h.(slots := h.slots[a := s],
          mem := Cleared(h.mem, a, s, 0, Zeroes(func)),
          given := h.given + s.total,
          current := h.current + size,
          pointers := h.pointers + 1),
       Some(InfoOf(a, s).userStart))
  }

  /** _dmalloc_chunk_malloc. */
  function ChunkMalloc(h: Heap, flags: Flags, size: nat, func: Func, alignment: nat): (Heap, Option<int>)
  {
    if size > LARGEST_ALLOCATION then (Error(h, TooBig), None)
    else
      var valloc := IsValloc(func, alignment);
      var (h, a) := GetMemory(h, NeededSize(flags, size, valloc));
      if a.None? then (h, None) else Hand(h, flags, size, func, valloc, a.value)
  }

  // ---------------------------------------------------------------- the checks

  predicate BytesAre(mem: seq<Byte>, from: int, to: int, b: Byte) {
    forall x :: 0 <= x < |mem| && from <= x < to ==> mem[x] == b
  }

  predicate BytesMatch(mem: seq<Byte>, at: int, bytes: seq<Byte>) {
    forall k :: 0 <= k < |bytes| && 0 <= at + k < |mem| ==> mem[at + k] == bytes[k]
  }

  /** The overwrite part of check_used_slot: below the bottom fence of a valloc, the fences, and
      above the user area. */
  function OverwriteError(mem: seq<Byte>, a: int, s: Slot): Errno
  {
    var i := InfoOf(a, s);
    if s.valloc && s.fence && s.blank && !BytesAre(mem, a, i.fenceBottom, ALLOC_BLANK) then FreeOverwritten
    else if s.fence && !BytesMatch(mem, i.fenceBottom, FENCE_BOTTOM) then UnderFence
    else if s.fence && !BytesMatch(mem, i.fenceTop, FENCE_TOP) then OverFence
    else if s.blank && !BytesAre(mem, if s.fence then i.fenceTop + TOP else i.userBounds,
                                 i.allocBounds, ALLOC_BLANK) then FreeOverwritten
    else NoError
  }

  /** check_used_slot, asked about exactly the pointer p. */
  function UsedSlotError(mem: seq<Byte>, iter: nat, a: int, s: Slot, p: int): Errno
  {
    var i := InfoOf(a, s);
    if s.kind.Free? then SlotCorrupt
    else if p < i.userStart then WouldOverwrite
    else if p != i.userStart then NotStartBlock
    else if s.user > LARGEST_ALLOCATION then BadSize
    else if s.total > BLOCK / 2 && s.total % BLOCK != 0 then BadSize
    else if s.valloc && i.userStart % BLOCK != 0 then NotOnBlock
    else if s.valloc && s.total < BLOCK then SlotCorrupt
    else
      var e := OverwriteError(mem, a, s);
      if e != NoError then e
      else if s.seen / 2 > iter then SlotCorrupt
      else NoError
  }

  /** check_free_slot. */
  function FreeSlotError(mem: seq<Byte>, iter: nat, a: int, s: Slot): Errno
  {
    if !s.kind.Free? then SlotCorrupt
    else if s.blank && !BytesAre(mem, a, a + s.total, FREE_BLANK) then FreeOverwritten
    else if s.seen / 2 > iter then SlotCorrupt
    else NoError
  }

  // ---------------------------------------------------------------- free

  predicate Holds(h: Heap, a: int, p: int) {
    a in h.slots && a <= p < a + h.slots[a].total
  }

  /** The loose search of the used list. */
  ghost function FindUsed(h: Heap, p: int): Option<int>
  {
    if exists a :: Used(h, a) && Holds(h, a, p) then
      var a :| Used(h, a) && Holds(h, a, p);
      Some(a)
    else None
  }

  /** The search of the waiting slots, oldest first. */
  function FindWaiting(h: Heap, p: int, i: nat): Option<int>
    requires i <= |h.wait|
    decreases |h.wait| - i
  {
    if i == |h.wait| then None
    else if Holds(h, h.wait[i], p) then Some(h.wait[i])
    else FindWaiting(h, p, i + 1)
  }

  function ReleasedSlot(s: Slot, flags: Flags, iter: nat): Slot
  {
    s.(kind := Free, valloc := false, blank := flags.freeBlank || flags.checkBlank,
       useIter := iter, seen := s.seen + 1)
  }

  /** The part of _dmalloc_chunk_free after the checks: the slot leaves the used list, is blanked,
      and waits for reuse unless memory is never reused. */
  function Release(h: Heap, flags: Flags, a: int): Heap
  {
    if a !in h.slots then h
    else
      var s := ReleasedSlot(h.slots[a], flags, h.iter);
      h.(slots := h.slots[a := s],
         mem := if s.blank && 0 <= a && a + s.total <= |h.mem| then Filled(h.mem, a, s.total, FREE_BLANK)
                else h.mem,
         pointers := h.pointers - 1,
         current := h.current - s.user,
         given := h.given - s.total,
         freeBytes := h.freeBytes + s.total,
         wait := if flags.neverReuse then h.wait else h.wait + [a])
  }

  /** The error of freeing a pointer that no used slot holds.  What the free list, which is sorted
      by size, is found to hold at an address is a parameter. */
  function NotUsedError(h: Heap, p: int, onFreeList: bool): Errno
  {
    var w := FindWaiting(h, p, 0);
    if w.Some? && w.value in h.slots then
      if InfoOf(w.value, h.slots[w.value]).userStart == p then AlreadyFree else NotFound
    else if onFreeList then AlreadyFree
    else NotFound
  }

  /** _dmalloc_chunk_free. */
  ghost function ChunkFree(h: Heap, flags: Flags, p: int, onFreeList: bool): (Heap, bool)
  {
    if p == 0 then (if flags.errorFreeNull then Error(h, IsNull) else h, false)
    else
      var a := FindUsed(h, p);
      if a.None? || a.value !in h.slots then (Error(h, NotUsedError(h, p, onFreeList)), false)
      else
        var e := UsedSlotError(h.mem, h.iter, a.value, h.slots[a.value], p);
        if e != NoError then (Error(h, e), false)
        else (Release(h, flags, a.value), true)
  }

  // ---------------------------------------------------------------- realloc

  /** Realloc without moving. */
  function Resized(h: Heap, flags: Flags, a: int, size: nat, func: Func): (Heap, Option<int>)
  {
    if a !in h.slots then (h, None)
    else
      var was := h.slots[a];
      var s := Blanked(was.(user := size), flags);
      (h.(slots := h.slots[a := s.(useIter := h.iter, seen := was.seen + 2)],
          mem := Cleared(h.mem, a, s, was.user, Zeroes(func)),
          current := h.current + size - was.user),
       Some(InfoOf(a, was).userStart))
  }

  function Copied(mem: seq<Byte>, from: int, to: int, n: nat): seq<Byte>
    requires 0 <= from && from + n <= |mem| && 0 <= to && to + n <= |mem|
  {
    Written(mem, to, mem[from..from + n])
  }

  function Min(a: nat, b: nat): nat { if a < b then a else b }

  predicate Moves(flags: Flags, a: int, s: Slot, size: nat) {
    var i := InfoOf(a, s);
    i.userStart + size > i.upperBounds || flags.reallocCopy || flags.neverReuse
  }

  /** _dmalloc_chunk_realloc. */
  ghost function ChunkRealloc(h: Heap, flags: Flags, p: int, size: nat, func: Func, onFreeList: bool)
    : (Heap, Option<int>)
  {
    if p == 0 then (Error(h, IsNull), None)
    else
      var a := FindUsed(h, p);
      if a.None? || a.value !in h.slots then (Error(h, NotFound), None)
      else if !Moves(flags, a.value, h.slots[a.value], size) then Resized(h, flags, a.value, size, func)
      else
        var from, n := InfoOf(a.value, h.slots[a.value]).userStart, Min(size, h.slots[a.value].user);
        var (h, q) := ChunkMalloc(h, flags, size, func, 0);
        if q.None? then (h, None)
        else if !(0 <= from && from + n <= |h.mem| && 0 <= q.value && q.value + n <= |h.mem|) then (h, None)
        else
          var (h, ok) := ChunkFree(h.(mem := Copied(h.mem, from, q.value, n)), flags, p, onFreeList);
          (h, if ok then q else None)
  }
}
