/** The lock-protected node allocator: free lists threaded through the free blocks themselves, and a
    bump buffer that is refilled chunk by chunk.  Each operation runs under the one lock. */
module NodeAllocs {
  import opened Basics
  import opened NodePools

  const REFILL: nat := 20

  /** _S_FREELIST_INDEX. */
  function IndexOf(n: nat): nat
    requires n > 0
  {
    (n - 1) / ALIGN
  }

  lemma {:induction false} RoundedIndex(n: nat)
    requires 0 < n <= MAX_BYTES
    ensures IsSize(RoundUp(n)) && IndexOf(n) == ClassOf(RoundUp(n))
  {
  }

  // ---------------------------------------------------------------- threaded lists

  /** What follows the block at k; 0 at the end. */
  function After(list: seq<int>, k: nat): int
  {
    if k + 1 < |list| then list[k + 1] else 0
  }

  /** The list that starts at head and follows the next words. */
  predicate Threaded(head: int, next: map<int, int>, list: seq<int>) {
    && head == (if list == [] then 0 else list[0])
    && forall k :: 0 <= k < |list| ==> list[k] in next && next[list[k]] == After(list, k)
  }

  predicate Linked(heads: seq<int>, next: map<int, int>, lists: seq<seq<int>>) {
    && |heads| == |lists| == CLASSES
    && forall i :: 0 <= i < CLASSES ==> Threaded(heads[i], next, lists[i])
  }

  predicate OnNone(lists: seq<seq<int>>, a: int) {
    forall i :: 0 <= i < |lists| ==> a !in lists[i]
  }

  lemma {:induction false} ThreadedTail(head: int, next: map<int, int>, list: seq<int>)
    requires Threaded(head, next, list) && list != []
    ensures head == list[0] && head in next && Threaded(next[head], next, list[1..])
  {
    var tail := list[1..];
    forall k | 0 <= k < |tail|
      ensures tail[k] in next && next[tail[k]] == After(tail, k)
    {
      assert tail[k] == list[k + 1] && After(tail, k) == After(list, k + 1);
    }
    assert next[list[0]] == After(list, 0);
  }

  lemma {:induction false} ThreadedCons(head: int, next: map<int, int>, list: seq<int>, a: int)
    requires Threaded(head, next, list) && a !in list
    ensures Threaded(head, next[a := head], list)
    ensures Threaded(a, next[a := head], [a] + list)
  {
    var all, next' := [a] + list, next[a := head];
    forall k | 0 <= k < |all|
      ensures all[k] in next' && next'[all[k]] == After(all, k)
    {
      if k > 0 { assert all[k] == list[k - 1] && After(all, k) == After(list, k - 1); }
    }
  }

  lemma {:induction false} LinkedPop(heads: seq<int>, next: map<int, int>, lists: seq<seq<int>>, i: nat)
    requires Linked(heads, next, lists) && i < CLASSES && lists[i] != []
    ensures heads[i] == lists[i][0] && heads[i] in next
    ensures Linked(heads[i := next[heads[i]]], next, lists[i := lists[i][1..]])
  {
    assert Threaded(heads[i], next, lists[i]);
    ThreadedTail(heads[i], next, lists[i]);
    hide Threaded;
  }

  lemma {:induction false} LinkedPush(heads: seq<int>, next: map<int, int>, lists: seq<seq<int>>, i: nat, a: int)
    requires Linked(heads, next, lists) && i < CLASSES && OnNone(lists, a)
    ensures Linked(heads[i := a], next[a := heads[i]], lists[i := [a] + lists[i]])
  {
    var heads', next', lists' := heads[i := a], next[a := heads[i]], lists[i := [a] + lists[i]];
    forall j | 0 <= j < CLASSES ensures Threaded(heads'[j], next', lists'[j]) {
      assert Threaded(heads[j], next, lists[j]);
      if j == i { ThreadedCons(heads[i], next, lists[i], a); }
    }
  }

  /** A list that is being built: its last block has no next word yet. */
  predicate Building(heads: seq<int>, next: map<int, int>, lists: seq<seq<int>>, i: nat) {
    && |heads| == |lists| == CLASSES && i < CLASSES && lists[i] != [] && heads[i] == lists[i][0]
    && (forall k :: 0 <= k < |lists[i]| - 1 ==> lists[i][k] in next && next[lists[i][k]] == lists[i][k + 1])
    && forall j :: 0 <= j < CLASSES && j != i ==> Threaded(heads[j], next, lists[j])
  }

  lemma {:induction false} BuildFirst(heads: seq<int>, next: map<int, int>, lists: seq<seq<int>>, i: nat, a: int)
    requires Linked(heads, next, lists) && i < CLASSES && lists[i] == []
    ensures Building(heads[i := a], next, lists[i := lists[i] + [a]], i)
  {
  }

  lemma {:induction false} BuildMore(heads: seq<int>, next: map<int, int>, lists: seq<seq<int>>, i: nat, last: int,
                                     a: int)
    requires Building(heads, next, lists, i) && last == lists[i][|lists[i]| - 1]
    requires NoRepeats(lists[i]) && forall j :: 0 <= j < CLASSES && j != i ==> last !in lists[j]
    ensures Building(heads, next[last := a], lists[i := lists[i] + [a]], i)
  {
    forall j | 0 <= j < CLASSES && j != i ensures Threaded(heads[j], next[last := a], lists[j]) {
      assert Threaded(heads[j], next, lists[j]);
    }
  }

  lemma {:induction false} BuildDone(heads: seq<int>, next: map<int, int>, lists: seq<seq<int>>, i: nat, last: int)
    requires Building(heads, next, lists, i) && last == lists[i][|lists[i]| - 1]
    requires NoRepeats(lists[i]) && forall j :: 0 <= j < CLASSES && j != i ==> last !in lists[j]
    ensures Linked(heads, next[last := 0], lists)
  {
    forall j | 0 <= j < CLASSES && j != i ensures Threaded(heads[j], next[last := 0], lists[j]) {
      assert Threaded(heads[j], next, lists[j]);
    }
  }

  /** A block is on one list only. */
  lemma {:induction false} OnlyList(p: Pool, i: nat, a: int)
    requires Sound(p) && i < CLASSES && a in p.lists[i]
    ensures NoRepeats(p.lists[i]) && forall j :: 0 <= j < CLASSES && j != i ==> a !in p.lists[j]
  {
    forall j | 0 <= j < CLASSES ensures ListOk(p.lists[j], ALIGN * (j + 1), p.blocks, p.live) {}
  }

  lemma {:induction false} HeadTells(p: Pool, heads: seq<int>, next: map<int, int>, i: nat)
    requires Sound(p) && Linked(heads, next, p.lists) && i < CLASSES
    ensures heads[i] == 0 <==> p.lists[i] == []
  {
    assert ListOk(p.lists[i], ALIGN * (i + 1), p.blocks, p.live);
    assert Threaded(heads[i], next, p.lists[i]);
  }

  lemma {:induction false} LiveIsOnNone(p: Pool, a: int)
    requires Sound(p) && (a in p.live || a !in p.blocks)
    ensures OnNone(p.lists, a)
  {
    forall j | 0 <= j < CLASSES ensures a !in p.lists[j] {
      assert ListOk(p.lists[j], ALIGN * (j + 1), p.blocks, p.live);
    }
  }

  // ---------------------------------------------------------------- what operations keep

  /** The program's blocks are as they were. */
  predicate LiveKept(p: Pool, q: Pool) {
    p.live <= q.live && forall a :: a in p.live && a in p.blocks ==> a in q.blocks && q.blocks[a] == p.blocks[a]
  }

  /** No free block and no piece of the buffer could serve a request of n bytes. */
  predicate Exhausted(p: Pool, n: nat)
    requires |p.lists| == CLASSES && IsSize(n)
  {
    p.end - p.start < n && forall i :: ClassOf(n) <= i < CLASSES ==> p.lists[i] == []
  }

  /** The rest of the buffer is the size of a class. */
  predicate Divided(p: Pool) {
    |p.lists| == CLASSES && p.grants != [] && (p.end != p.start ==> IsSize(p.end - p.start))
  }

  /** The head of the list is the caller's, and nothing else changed. */
  ghost predicate TakenOffList(p: Pool, q: Pool, c: nat, r: int) {
    && |p.lists| == CLASSES && c < CLASSES && p.lists[c] != [] && r == p.lists[c][0]
    && q == p.(lists := p.lists[c := p.lists[c][1..]], live := p.live + {r})
  }

  /** How many of the wanted blocks fit. */
  function Fitting(left: nat, p: nat, want: nat): nat
    requires p > 0
  {
    if p * want <= left then want else left / p
  }

  /** How a chunk of wanted blocks is got: off the buffer as many as fit; else all of them off memory
      from the system, which is asked for twice as much and a sixteenth of all it gave before. */
  ghost predicate Chunked(p0: Pool, heap: nat, q: Pool, p: nat, want: nat, r: Option<int>, count: nat)
    requires p > 0
  {
    && (p0.end - p0.start >= p ==>
          && r.Some? && count == Fitting(p0.end - p0.start, p, want)
          && q == Bumped(p0, count * p))
    && (p0.end - p0.start < p && p0.grants != [] && p0.grants[0].size >= 2 * (p * want) + RoundUp(heap) ==>
          && r.Some? && count == want && Divided(p0)
          && q == Bumped(Stocked(p0, 2 * (p * want) + RoundUp(heap)), count * p))
  }

  lemma {:induction false} ChunkedNow(p0: Pool, heap: nat, q: Pool, p: nat, want: nat, count: nat)
    requires p > 0 && p0.end - p0.start >= p && count == Fitting(p0.end - p0.start, p, want)
    requires q == Bumped(p0, count * p)
    ensures Chunked(p0, heap, q, p, want, Some(q.flight), count)
  {
  }

  lemma {:induction false} NoChunk(p0: Pool, heap: nat, q: Pool, p: nat, want: nat)
    requires p > 0 && p0.end - p0.start < p
    requires p0.grants == [] || p0.grants[0].size < 2 * (p * want) + RoundUp(heap)
    ensures Chunked(p0, heap, q, p, want, None, want)
  {
  }

  lemma {:induction false} ChunkedLater(p0: Pool, heap: nat, p2: Pool, heap2: nat, q: Pool, p: nat, want: nat,
                                        r: Option<int>, count: nat)
    requires p > 0 && want >= 1 && |p0.lists| == CLASSES && 0 <= p0.end - p0.start < p
    requires p0.end != p0.start ==> IsSize(p0.end - p0.start)
    requires var bytes := 2 * (p * want) + RoundUp(heap);
      p0.grants != [] && p0.grants[0].size >= bytes ==>
        p2 == Supplied(if p0.end == p0.start then p0 else LeftOver(p0), bytes)
    requires Chunked(p2, heap2, q, p, want, r, count)
    ensures Chunked(p0, heap, q, p, want, r, count)
  {
    var bytes := 2 * (p * want) + RoundUp(heap);
    if p0.grants != [] && p0.grants[0].size >= bytes {
      StockedIs(p0, bytes);
      WholePortion(bytes, p, want);
      assert p * want >= p;
      hide LeftOver, Stocked;
    }
  }

  lemma {:induction false} ExhaustedSame(p: Pool, q: Pool, n: nat)
    requires |p.lists| == CLASSES && IsSize(n) && q == p.(grants := q.grants)
    ensures Exhausted(p, n) <==> Exhausted(q, n)
  {
  }

  /** How a list found empty is refilled: from the buffer if it has room for a block; else, if the system
      gives what it is asked for, from that. */
  ghost predicate Refilled(p0: Pool, heap: nat, q: Pool, n: nat, r: Option<int>)
    requires |p0.lists| == CLASSES && IsSize(n)
  {
    && (p0.end - p0.start >= n ==> r.Some? && TakenOffBuffer(p0, q, n, r.value))
    && (p0.end - p0.start < n && p0.grants != [] && p0.grants[0].size >= 40 * n + RoundUp(heap) ==>
          && r.Some? && Divided(p0)
          && TakenOffBuffer(Stocked(p0, 40 * n + RoundUp(heap)), q, n, r.value))
  }

  lemma {:induction false} NotRefilled(p0: Pool, heap: nat, q: Pool, n: nat, count: nat)
    requires |p0.lists| == CLASSES && IsSize(n) && Chunked(p0, heap, q, n, REFILL, None, count)
    ensures Refilled(p0, heap, q, n, None)
  {
  }

  lemma {:induction false} CutFor(p0: Pool, heap: nat, p1: Pool, n: nat, r: Option<int>, count: nat)
    requires |p0.lists| == CLASSES && IsSize(n) && p0.end - p0.start >= 0 && p0.lists[ClassOf(n)] == []
    requires Chunked(p0, heap, p1, n, REFILL, r, count) && r.Some? && r.value == p1.flight
    requires |p1.lists| == CLASSES && count >= 1
    ensures Refilled(p0, heap, CarvedAll(Carved(p1, n, Live), n, count - 1), n, r)
  {
    hide TakenOffBuffer, Stocked, CarvedAll, Carved;
    if p0.end - p0.start >= n {
      CutIsTaken(p0, n);
    } else if p0.grants != [] && p0.grants[0].size >= 40 * n + RoundUp(heap) {
      StockServes(p0, n, 40 * n + RoundUp(heap));
    }
  }

  /** The list that was empty still is when the system has given memory, and twenty blocks fit. */
  lemma {:induction false} StockServes(p: Pool, n: nat, bytes: nat)
    requires Divided(p) && IsSize(n) && 0 <= p.end - p.start < n && p.lists[ClassOf(n)] == [] && bytes >= 40 * n
    ensures var q := Stocked(p, bytes); var c := ClassOf(n);
      && |q.lists| == CLASSES && q.lists[c] == [] && q.end - q.start == bytes && Portion(bytes, n) == 20
      && TakenOffBuffer(q, CarvedAll(Carved(Bumped(q, 20 * n), n, Live), n, 19), n, q.start)
  {
    CutIsTaken(Stocked(p, bytes), n);
  }

  /** A chunk from the system has room for all. */
  lemma {:induction false} WholePortion(bytes: nat, p: nat, want: nat)
    requires p > 0 && bytes >= 2 * (p * want)
    ensures Fitting(bytes, p, want) == want
  {
  }

  /** The first block of the first list from class c on became the buffer. */
  ghost predicate RecycledFirst(p: Pool, q: Pool, c: nat, i: nat) {
    && |p.lists| == CLASSES && c <= i < CLASSES && p.lists[i] != []
    && (forall j :: c <= j < i ==> p.lists[j] == [])
    && q == p.(lists := p.lists[i := p.lists[i][1..]], blocks := p.blocks - {p.lists[i][0]},
               start := p.lists[i][0], end := p.lists[i][0] + 16 * (i + 1))
  }

  class NodeAlloc {
    const heads: array<int>
    var next: map<int, int>
    var startFree: int
    var endFree: int
    var heapSize: nat
    var grants: seq<Grant>
    ghost var pool: Pool

    /** The fields represent the pool, but for the list of class i if it is being built. */
    ghost predicate Represents()
      reads this
    {
      && startFree == pool.start && endFree == pool.end && grants == pool.grants
      && ALIGN * heapSize == pool.obtained
      && Sound(pool) && heads.Length == CLASSES == |pool.lists|
    }

    ghost predicate InFlight()
      reads this, heads
    {
      Represents() && Linked(heads[..], next, pool.lists)
    }

    ghost predicate Valid()
      reads this, heads
    {
      InFlight() && pool.bytes == 0
    }

    constructor (grants: seq<Grant>)
      requires GrantsOk(grants)
      ensures Valid() && fresh(heads) && pool.live == {} && pool.obtained == 0
    {
      heads := new int[CLASSES](_ => 0);
      next, startFree, endFree, heapSize, this.grants := map[], 0, 0, 0, grants;
      pool := Pool(seq(CLASSES, _ => []), map[], {}, 0, 0, 0, 0, grants, 0);
    }

    /** __stlp_new_chunk: memory from the system becomes the buffer, or the system refuses. */
    method NewChunk(bytes: nat) returns (ok: bool)
      requires Valid() && pool.start == pool.end && bytes > 0 && bytes % ALIGN == 0
      modifies this
      ensures Valid() && pool.lists == old(pool.lists) && pool.live == old(pool.live) && pool.blocks == old(pool.blocks)
      ensures ok <==> old(grants) != [] && old(grants)[0].size >= bytes
      ensures ok ==> endFree == startFree + bytes && pool == Supplied(old(pool), bytes)
      ensures !ok ==> pool == old(pool).(grants := pool.grants)
    {
      hide Sound, Linked;
      if grants == [] {
        return false;
      }
      if grants[0].size < bytes {
        RefuseKeeps(pool);
        pool := pool.(grants := pool.grants[1..]);
        grants := grants[1..];
        return false;
      }
      SupplyKeeps(pool, bytes);
      pool := Supplied(pool, bytes);
      startFree := grants[0].base;
      grants := grants[1..];
      heapSize := heapSize + bytes / ALIGN;
      endFree := startFree + bytes;
      return true;
    }

    /** The piece left in the buffer goes on the free list of exactly its size. */
    method ListLeftOver()
      requires Valid() && IsSize(endFree - startFree)
      modifies this, heads
      ensures Valid() && pool == LeftOver(old(pool))
    {
      hide Sound, Linked;
      var i := IndexOf(endFree - startFree);
      LeftOverKeeps(pool);
      LiveIsOnNone(pool, pool.start);
      LinkedPush(heads[..], next, pool.lists, i, pool.start);
      pool := LeftOver(pool);
      next := next[startFree := heads[i]];
      heads[i] := startFree;
      startFree, endFree := 0, 0;
    }

    /** A failed request: the first free block that is large enough becomes the buffer. */
    method RecycleBlock(p: nat) returns (found: bool)
      requires Valid() && IsSize(p) && pool.start == pool.end
      modifies this, heads
      ensures Valid() && pool.live == old(pool.live) && LiveKept(old(pool), pool)
      ensures found <==> exists i :: ClassOf(p) <= i < CLASSES && old(pool.lists)[i] != []
      ensures found ==> endFree - startFree >= p && |pool.lists| == CLASSES
      ensures !found ==> pool == old(pool)
      ensures found ==> exists i :: ClassOf(p) <= i < CLASSES && RecycledFirst(old(pool), pool, ClassOf(p), i)
      ensures old(pool.lists)[ClassOf(p)] == [] ==> pool.lists[ClassOf(p)] == []
    {
      hide Sound, Linked;
      var size := p;
      while size <= MAX_BYTES
        invariant size % ALIGN == 0 && p <= size <= MAX_BYTES + ALIGN
        invariant forall i :: ClassOf(p) <= i < size / ALIGN - 1 && i < |pool.lists| ==> pool.lists[i] == []
        invariant Valid() && pool == old(pool) && heads[..] == old(heads[..])
      {
        var i := IndexOf(size);
        HeadTells(pool, heads[..], next, i);
        if heads[i] != 0 {
          LinkedPop(heads[..], next, pool.lists, i);
          RecycleKeeps(pool, i);
          RecycledKept(pool, i);
          assert RecycledFirst(old(pool), Recycled(old(pool), i), ClassOf(p), i);
          pool := Recycled(pool, i);
          startFree := heads[i];
          heads[i] := next[heads[i]];
          endFree := startFree + size;
          return true;
        }
        size := size + ALIGN;
      }
      return false;
    }

    /** Memory is taken off the front of the buffer. */
    method Bump(total: nat) returns (a: int)
      requires Valid() && 0 < total <= endFree - startFree && total % ALIGN == 0
      modifies this
      ensures InFlight() && pool == Bumped(old(pool), total) && a == pool.flight
    {
      hide Sound, Linked;
      BumpKeeps(pool, total);
      pool := Bumped(pool, total);
      a := startFree;
      startFree := startFree + total;
    }

    /** The buffer is empty: a chunk for the request and more, else a free block, else a chunk for the
        request alone. */
    method FillBuffer(p: nat, total: nat) returns (ok: bool)
      requires Valid() && IsSize(p) && total >= p && total % ALIGN == 0 && pool.start == pool.end
      requires pool.lists[ClassOf(p)] == []
      modifies this, heads
      ensures Valid() && pool.live == old(pool.live) && LiveKept(old(pool), pool) && pool.lists[ClassOf(p)] == []
      ensures ok ==> endFree - startFree >= p
      ensures !ok ==> Exhausted(old(pool), p) && pool.obtained == old(pool.obtained)
      ensures var bytes := 2 * total + RoundUp(old(heapSize));
        old(grants) != [] && old(grants)[0].size >= bytes ==> ok && pool == Supplied(old(pool), bytes)
    {
      hide Sound, Linked, Supplied, Exhausted;
      var bytes := 2 * total + RoundUp(heapSize);
      ghost var p0 := pool;
      ok := NewChunk(bytes);
      if !ok {
        ExhaustedSame(p0, pool, p);
        ok := MakeDo(p, total);
      }
    }

    /** The catch block: a free block becomes the buffer, or the system is asked for the request alone. */
    method MakeDo(p: nat, total: nat) returns (ok: bool)
      requires Valid() && IsSize(p) && total >= p && total % ALIGN == 0 && pool.start == pool.end
      requires pool.lists[ClassOf(p)] == []
      modifies this, heads
      ensures Valid() && pool.live == old(pool.live) && LiveKept(old(pool), pool) && pool.lists[ClassOf(p)] == []
      ensures ok ==> endFree - startFree >= p
      ensures !ok ==> Exhausted(old(pool), p) && pool.obtained == old(pool.obtained)
      ensures !ok ==> pool == old(pool).(grants := pool.grants)
    {
      hide Sound, Linked, Supplied, RecycledFirst;
      ok := RecycleBlock(p);
      if !ok {
        ok := NewChunk(total);
      }
    }

    /** _S_chunk_alloc: room for up to `want` blocks of p bytes, taken from the buffer. */
    method ChunkAlloc(p: nat, want: nat) returns (r: Option<int>, count: nat)
      requires Valid() && IsSize(p) && want >= 1 && pool.lists[ClassOf(p)] == []
      modifies this, heads
      ensures r.Some? ==> InFlight() && 1 <= count <= want && r.value == pool.flight && pool.bytes == count * p
      ensures r.None? ==> Valid() && Exhausted(old(pool), p) && pool.obtained == old(pool.obtained)
      ensures pool.live == old(pool.live) && LiveKept(old(pool), pool)
      ensures |pool.lists| == CLASSES && pool.lists[ClassOf(p)] == []
      ensures Chunked(old(pool), old(heapSize), pool, p, want, r, count)
      decreases if endFree - startFree >= p then 0 else 1
    {
      hide Sound, Linked, LiveKept, Exhausted, Chunked;
      ghost var p0, heap := pool, heapSize;
      BufferSize(pool);
      var total, left := p * want, endFree - startFree;
      AtLeastOne(p, want);
      if left >= p {
        count := want;
        if left < total {
          count := left / p;
          FitsSome(left, p, want);
          total := p * count;
        }
        BumpKept(pool, total);
        var a := Bump(total);
        r := Some(a);
        ChunkedNow(p0, heap, pool, p, want, count);
        return;
      }
      if left > 0 {
        LeftOverKept(pool);
        ListLeftOver();
      } else {
        SameKept(pool);
      }
      ghost var p1 := pool;
      NearlyExhausted(p0, p1, p);
      ghost var bytes := 2 * total + RoundUp(heapSize);
      var ok := FillBuffer(p, total);
      KeptTwice(p0, p1, pool);
      if !ok {
        NoChunk(p0, heap, pool, p, want);
        return None, want;
      }
      ghost var p2, heap2 := pool, heapSize;
      r, count := ChunkAlloc(p, want);
      ChunkedLater(p0, heap, p2, heap2, pool, p, want, r, count);
      KeptTwice(p0, p2, pool);
      if r.None? {
        NotExhausted(p2, p);
      }
    }

    /** The blocks after the first one are threaded onto the empty list. */
    method BuildList(n: nat, first: int, more: nat)
      requires InFlight() && IsSize(n) && pool.lists[ClassOf(n)] == []
      requires more >= 1 && pool.bytes == more * n && pool.flight == first
      modifies this, heads
      ensures Valid() && LiveKept(old(pool), pool) && pool.live == old(pool.live)
      ensures pool == CarvedAll(old(pool), n, more)
    {
      hide Sound, Linked, Building, LiveKept;
      var i := IndexOf(n);
      var nextObj := first;
      ghost var p0 := pool;
      TakeOne(pool, n, more, Back);
      assert CarvedAll(p0, n, 1) == Carved(CarvedAll(p0, n, 0), n, Back);
      BuildFirst(heads[..], next, pool.lists, i, nextObj);
      pool := Carved(pool, n, Back);
      heads[i] := nextObj;
      var count := more - 1;
      while count > 0
        invariant Represents() && Building(heads[..], next, pool.lists, i) && count >= 0
        invariant pool.lists[i] != [] && nextObj == pool.lists[i][|pool.lists[i]| - 1] && pool.flight == nextObj + n
        invariant pool.bytes == count * n && LiveKept(p0, pool) && pool.live == p0.live
        invariant count < more && pool == CarvedAll(p0, n, more - count)
      {
        ghost var p1 := pool;
        var current := nextObj;
        nextObj := nextObj + n;
        OnlyList(pool, i, current);
        BuildMore(heads[..], next, pool.lists, i, current, nextObj);
        TakeOne(pool, n, count, Back);
        pool := Carved(pool, n, Back);
        next := next[current := nextObj];
        count := count - 1;
        KeptTwice(p0, p1, pool);
      }
      OnlyList(pool, i, nextObj);
      BuildDone(heads[..], next, pool.lists, i, nextObj);
      next := next[nextObj := 0];
    }

    /** _S_refill: one block for the caller, the others on the list, which was empty. */
    method Refill(n: nat) returns (r: Option<int>)
      requires Valid() && IsSize(n) && pool.lists[ClassOf(n)] == []
      modifies this, heads
      ensures Valid() && LiveKept(old(pool), pool)
      ensures r.None? ==> Exhausted(old(pool), n) && pool.obtained == old(pool.obtained) && pool.live == old(pool.live)
      ensures r.Some? ==> r.value !in old(pool.live) && pool.live == old(pool.live) + {r.value}
      ensures r.Some? ==> r.value in pool.blocks && pool.blocks[r.value] == n
      ensures Refilled(old(pool), old(heapSize), pool, n, r)
    {
      hide Sound, Linked, Exhausted, LiveKept, Chunked, Refilled;
      ghost var p0, heap := pool, heapSize;
      BufferSize(p0);
      var count;
      r, count := ChunkAlloc(n, REFILL);
      if r.None? {
        NotRefilled(p0, heap, pool, n, count);
        return;
      }
      ghost var p1 := pool;
      CutFor(p0, heap, p1, n, r, count);
      TakeOne(pool, n, count, Live);
      pool := Carved(pool, n, Live);
      KeptTwice(p0, p1, pool);
      ghost var p2 := pool;
      if count > 1 {
        BuildList(n, r.value + n, count - 1);
        KeptTwice(p0, p2, pool);
        StillThere(p2, pool, r.value);
      }
    }

    /** _M_allocate: a block that overlaps no other, of the size asked for rounded up; or a failure
        that leaves the allocator usable, only when nothing large enough is left. */
    method Allocate(bytes: nat) returns (r: Option<int>, n: nat)
      requires Valid() && 0 < bytes <= MAX_BYTES
      modifies this, heads
      ensures Valid() && n == RoundUp(bytes) && LiveKept(old(pool), pool)
      ensures r.Some? ==> r.value !in old(pool.live) && pool.live == old(pool.live) + {r.value}
      ensures r.Some? ==> r.value in pool.blocks && pool.blocks[r.value] == n
      ensures IsSize(n) && |old(pool).lists| == CLASSES
      ensures old(pool).lists[ClassOf(n)] != [] ==> r.Some? && TakenOffList(old(pool), pool, ClassOf(n), r.value)
      ensures old(pool).lists[ClassOf(n)] == [] ==> Refilled(old(pool), old(heapSize), pool, n, r)
      ensures r.None? ==>
        IsSize(n) && Exhausted(old(pool), n) && pool.live == old(pool.live) && pool.obtained == old(pool.obtained)
    {
      hide Sound, Linked, Refilled;
      n := RoundUp(bytes);
      RoundedIndex(bytes);
      RoundedIndex(n);
      var i := IndexOf(n);
      HeadTells(pool, heads[..], next, i);
      var first := heads[i];
      if first != 0 {
        LinkedPop(heads[..], next, pool.lists, i);
        PopKeeps(pool, i);
        pool := Popped(pool, i);
        heads[i] := next[first];
        r := Some(first);
      } else {
        r := Refill(n);
      }
    }

    /** _M_deallocate: the block goes back on the list of its size. */
    method Deallocate(a: int, bytes: nat)
      requires Valid() && 0 < bytes <= MAX_BYTES
      requires a in pool.live && a in pool.blocks && pool.blocks[a] == RoundUp(bytes)
      modifies this, heads
      ensures Valid() && IsSize(old(pool.blocks[a])) && |old(pool.lists)| == CLASSES
      ensures var c := old(pool.blocks[a]) / 16 - 1;
        && 0 <= c < CLASSES
        && pool == old(pool).(lists := old(pool.lists)[c := [a] + old(pool.lists)[c]], live := old(pool.live) - {a})
    {
      hide Sound, Linked;
      RoundedIndex(bytes);
      var i := IndexOf(bytes);
      PushKeeps(pool, a);
      LiveIsOnNone(pool, a);
      LinkedPush(heads[..], next, pool.lists, i, a);
      pool := Pushed(pool, i, a);
      next := next[a := heads[i]];
      heads[i] := a;
    }
  }

  lemma {:induction false} BufferSize(p: Pool)
    requires Sound(p) && p.bytes == 0
    ensures p.end - p.start >= 0 && (p.end - p.start) % ALIGN == 0
    ensures 0 < p.end - p.start < MAX_BYTES ==> IsSize(p.end - p.start)
    ensures |p.lists| == CLASSES
  {
  }

  lemma {:induction false} AtLeastOne(p: nat, want: nat)
    requires want >= 1 && p % ALIGN == 0
    ensures p * want >= p && (p * want) % ALIGN == 0
  {
    assert p * want == ALIGN * (p / ALIGN * want);
  }

  lemma {:induction false} FitsSome(left: nat, p: nat, want: nat)
    requires 0 < p <= left < p * want && p % ALIGN == 0
    ensures 1 <= left / p <= want && p * (left / p) <= left && (p * (left / p)) % ALIGN == 0 && p * (left / p) > 0
  {
    AtLeastOne(p, left / p);
  }

  lemma {:induction false} RecycledKept(p: Pool, i: nat)
    requires Sound(p) && i < CLASSES && p.lists[i] != []
    ensures LiveKept(p, Recycled(p, i))
  {
    assert ListOk(p.lists[i], ALIGN * (i + 1), p.blocks, p.live);
  }

  lemma {:induction false} LeftOverKept(p: Pool)
    requires Sound(p) && IsSize(p.end - p.start) && p.bytes == 0
    ensures LiveKept(p, LeftOver(p)) && LeftOver(p).live == p.live
  {
    NewIsNowhere(p, p.start, p.end - p.start);
  }

  /** The next block in flight. */
  lemma {:induction false} TakeOne(p: Pool, n: nat, count: nat, where: Where)
    requires Sound(p) && IsSize(n) && p.bytes == count * n && count >= 1
    ensures p.bytes >= n && Sound(Carved(p, n, where)) && Carved(p, n, where).bytes == (count - 1) * n
    ensures LiveKept(p, Carved(p, n, where)) && p.flight !in p.live
  {
    assert count * n == n + (count - 1) * n && (count - 1) * n >= 0;
    CarveKeeps(p, n, where);
  }

  lemma {:induction false} SameKept(p: Pool)
    ensures LiveKept(p, p)
  {
  }

  lemma {:induction false} KeptTwice(p: Pool, q: Pool, r: Pool)
    requires LiveKept(p, q)
    ensures LiveKept(q, r) ==> LiveKept(p, r)
  {
  }

  lemma {:induction false} StillThere(p: Pool, q: Pool, a: int)
    requires LiveKept(p, q) && a in p.live && a in p.blocks
    ensures a in q.live && a in q.blocks && q.blocks[a] == p.blocks[a]
  {
  }

  lemma {:induction false} BumpKept(p: Pool, total: nat)
    ensures LiveKept(p, Bumped(p, total))
  {
  }

  /** Listing the piece left in the buffer helps no request it was too small for. */
  lemma {:induction false} NearlyExhausted(p: Pool, q: Pool, n: nat)
    requires Sound(p) && |q.lists| == CLASSES && IsSize(n) && 0 <= p.end - p.start < n
    requires q == p || (IsSize(p.end - p.start) && q == LeftOver(p))
    ensures |p.lists| == CLASSES && q.lists[ClassOf(n)] == p.lists[ClassOf(n)] && (Exhausted(q, n) ==> Exhausted(p, n))
  {
    hide Geometry, Conserved;
    forall i | ClassOf(n) <= i < CLASSES ensures q.lists[i] == p.lists[i] {}
  }

  lemma {:induction false} NotExhausted(p: Pool, n: nat)
    requires |p.lists| == CLASSES && IsSize(n) && p.end - p.start >= n
    ensures !Exhausted(p, n)
  {
  }
}
