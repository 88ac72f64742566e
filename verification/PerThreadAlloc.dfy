/** The per-thread node allocator as interleaved steps.  A thread works on its own free lists without
    a lock; only the shared buffer and the parked states are touched under one, so a step is either
    thread-local work or one critical section. */
module PerThreadAllocs {
  import opened Basics
  import opened Sums

  const ALIGN: nat := 8
  const MAX_BYTES: nat := 256
  const CLASSES: nat := 32
  const REFILL: nat := 128

  type Thread = int
  type State = int

  /** Where a block is: held by the program, on a list of a per-thread state, or in the hands of a
      thread that is refilling. */
  datatype Where = Held | On(state: State) | Flight(thread: Thread)

  datatype Block = Block(size: int, where: Where)

  /** What a thread is doing: nothing; asking for a chunk for a class; or holding the blocks of the
      chunk it got. */
  datatype Doing = Idle | Asking(cls: nat) | Got(cls: nat, items: seq<int>)

  datatype Worker = Worker(state: State, doing: Doing)

  datatype Sys = Sys(
    workers: map<Thread, Worker>,
    parked: seq<State>,                // states of finished threads, last one first
    made: nat,                         // states made so far: 0 .. made - 1
    lists: map<State, seq<seq<int>>>,  // free lists of each state, by class
    start: int, end: int,              // the shared buffer
    heapSize: int,
    obtained: int,                     // bytes the system has provided
    blocks: map<int, Block>)           // every block ever cut

  const START: Sys := Sys(map[], [], 0, map[], 0, 0, 0, 0, map[])

  predicate IsSize(n: int) {
    ALIGN <= n <= MAX_BYTES && n % ALIGN == 0
  }

  function SizeOf(c: nat): (n: nat)
    requires c < CLASSES
    ensures IsSize(n)
  {
    ALIGN * (c + 1)
  }

  /** _S_freelist_index. */
  function ClassOf(n: nat): (c: nat)
    requires 0 < n <= MAX_BYTES
    ensures c < CLASSES && SizeOf(c) - ALIGN < n <= SizeOf(c)
  {
    (n + ALIGN - 1) / ALIGN - 1
  }

  function RoundUp(n: nat): nat
  {
    (n + ALIGN - 1) / ALIGN * ALIGN
  }

  /** What is asked of the system when a refill of class c finds too little. */
  function ChunkSize(s: Sys, c: nat): nat
    requires c < CLASSES && s.heapSize >= 0
  {
    2 * (SizeOf(c) * REFILL) + RoundUp(s.heapSize)
  }

  /** Memory the system may provide: it overlaps nothing that is in use. */
  predicate Free(s: Sys, a: int, n: int) {
    && a > 0 && a % ALIGN == 0
    && (forall b :: b in s.blocks ==> Apart(b, s.blocks[b].size, a, n))
    && (s.end > s.start ==> Apart(s.start, s.end - s.start, a, n))
  }

  // ---------------------------------------------------------------- the steps

  datatype Event =
    | Attach(t: Thread)              // a thread gets a recycled or a new state
    | Detach(t: Thread)              // a thread ends and its state is parked
    | Take(t: Thread, c: nat)        // allocate from the thread's own list
    | Ask(t: Thread, c: nat)         // allocate with that list empty
    | Chunk(t: Thread, base: int)    // the critical section of _S_chunk_alloc
    | Finish(t: Thread)              // the rest of _M_refill
    | Give(t: Thread, a: int)        // deallocate, by whichever thread

  /** The addresses of count blocks of n bytes from a on. */
  function Cut(a: int, n: int, count: nat): seq<int>
    decreases count
  {
    if count == 0 then [] else [a] + Cut(a + n, n, count - 1)
  }

  function AddCut(blocks: map<int, Block>, a: int, n: int, count: nat, w: Where): map<int, Block>
    decreases count
  {
    if count == 0 then blocks else AddCut(blocks[a := Block(n, w)], a + n, n, count - 1, w)
  }

  predicate Working(s: Sys, t: Thread) {
    t in s.workers && s.workers[t].state in s.lists && |s.lists[s.workers[t].state]| == CLASSES
  }

  function ListOf(s: Sys, t: Thread, c: nat): seq<int>
    requires Working(s, t) && c < CLASSES
  {
    s.lists[s.workers[t].state][c]
  }

  /** How many blocks _S_chunk_alloc takes from the buffer; none when there is room for none. */
  function Count(left: int, n: nat): nat
    requires n > 0 && left >= 0
  {
    if left >= n * REFILL then REFILL else left / n
  }

  predicate Enabled(s: Sys, e: Event) {
    match e
    case Attach(t) => t !in s.workers
    case Detach(t) => Working(s, t) && s.workers[t].doing.Idle?
    case Take(t, c) => Working(s, t) && s.workers[t].doing.Idle? && c < CLASSES && ListOf(s, t, c) != []
    case Ask(t, c) => Working(s, t) && s.workers[t].doing.Idle? && c < CLASSES && ListOf(s, t, c) == []
    case Chunk(t, base) =>
      && Working(s, t) && s.workers[t].doing.Asking? && s.workers[t].doing.cls < CLASSES
      && s.heapSize >= 0 && s.end >= s.start
      && (var c := s.workers[t].doing.cls;
          s.end - s.start < SizeOf(c) ==> Free(s, base, ChunkSize(s, c)))
    case Finish(t) =>
      && Working(s, t) && s.workers[t].doing.Got? && s.workers[t].doing.cls < CLASSES
      && s.workers[t].doing.items != []
    case Give(t, a) =>
      && Working(s, t) && s.workers[t].doing.Idle? && a in s.blocks && s.blocks[a].where.Held?
      && IsSize(s.blocks[a].size)
  }

  function SetList(s: Sys, t: Thread, c: nat, list: seq<int>): Sys
    requires Working(s, t) && c < CLASSES
  {
    var st := s.workers[t].state;
    s.(lists := s.lists[st := s.lists[st][c := list]])
  }

  function Now(s: Sys, t: Thread, doing: Doing): Sys
    requires t in s.workers
  {
    s.(workers := s.workers[t := s.workers[t].(doing := doing)])
  }

  function Moved(s: Sys, a: int, w: Where): Sys
    requires a in s.blocks
  {
    s.(blocks := s.blocks[a := s.blocks[a].(where := w)])
  }

  function MoveAll(blocks: map<int, Block>, items: seq<int>, w: Where): map<int, Block>
  {
    map a | a in blocks :: if a in items then blocks[a].(where := w) else blocks[a]
  }

  /** The piece of the buffer that is too small goes on the asking thread's own list of its size. */
  function LeftOver(s: Sys, t: Thread): Sys
    requires Working(s, t) && 0 <= s.end - s.start <= MAX_BYTES
  {
    var left := s.end - s.start;
    if left == 0 then s
    else
      SetList(s, t, ClassOf(left), [s.start] + ListOf(s, t, ClassOf(left)))
        .(blocks := s.blocks[s.start := Block(left, On(s.workers[t].state))])
  }

  function Next(s: Sys, e: Event): Sys
    requires Enabled(s, e)
  {
    match e
    case Attach(t) =>
      if s.parked != [] then
        s.(workers := s.workers[t := Worker(s.parked[0], Idle)], parked := s.parked[1..])
      else
        s.(workers := s.workers[t := Worker(s.made, Idle)], made := s.made + 1,
           lists := s.lists[s.made := seq(CLASSES, _ => [])])
    case Detach(t) =>
      s.(workers := s.workers - {t}, parked := [s.workers[t].state] + s.parked)
    case Take(t, c) =>
      var list := ListOf(s, t, c);
      if list[0] in s.blocks then Moved(SetList(s, t, c, list[1..]), list[0], Held) else s
    case Ask(t, c) => Now(s, t, Asking(c))
    case Chunk(t, base) =>
      var c := s.workers[t].doing.cls;
      var n := SizeOf(c);
      var left := s.end - s.start;
      if left >= n then
        var count := Count(left, n);
        Now(s, t, Got(c, Cut(s.start, n, count)))
          .(blocks := AddCut(s.blocks, s.start, n, count, Flight(t)), start := s.start + n * count)
      else
        var bytes := ChunkSize(s, c);
        LeftOver(s, t).(start := base, end := base + bytes,
                        heapSize := s.heapSize + bytes / 16, obtained := s.obtained + bytes)
    case Finish(t) =>
      var items := s.workers[t].doing.items;
      var c := s.workers[t].doing.cls;
      var blocks := MoveAll(MoveAll(s.blocks, items[..1], Held), items[1..], On(s.workers[t].state));
      // With one block there is nothing to list; otherwise the list is overwritten.
      (if |items| == 1 then Now(s, t, Idle) else SetList(Now(s, t, Idle), t, c, items[1..])).(blocks := blocks)
    case Give(t, a) =>
      var c := ClassOf(s.blocks[a].size);
      Moved(SetList(s, t, c, [a] + ListOf(s, t, c)), a, On(s.workers[t].state))
  }

  function Run(s: Sys, es: seq<Event>): Sys
    requires RunEnabled(s, es)
    decreases |es|
  {
    if es == [] then s else Run(Next(s, es[0]), es[1..])
  }

  /** A run: every event is possible where it happens. */
  predicate RunEnabled(s: Sys, es: seq<Event>)
    decreases |es|
  {
    es == [] || (Enabled(s, es[0]) && RunEnabled(Next(s, es[0]), es[1..]))
  }

  // ---------------------------------------------------------------- the invariant

  /** Every state belongs to at most one running thread, or is parked, never both. */
  ghost predicate OwnedOnce(workers: map<Thread, Worker>, parked: seq<State>, made: nat) {
    && NoRepeats(parked)
    && (forall i :: 0 <= i < |parked| ==> 0 <= parked[i] < made)
    && (forall t :: t in workers ==> 0 <= workers[t].state < made && workers[t].state !in parked)
    && (forall t, u :: t in workers && u in workers && t != u ==> workers[t].state != workers[u].state)
    && (forall s :: 0 <= s < made ==> s in parked || exists t :: t in workers && workers[t].state == s)
  }

  /** The sequence holds exactly the blocks of one size in one place, each once. */
  ghost predicate HoldsAll(items: seq<int>, size: int, w: Where, blocks: map<int, Block>) {
    && NoRepeats(items)
    && (forall k :: 0 <= k < |items| ==> items[k] in blocks && blocks[items[k]] == Block(size, w))
    && (forall a :: a in blocks && blocks[a] == Block(size, w) ==> a in items)
  }

  ghost predicate ListsOk(lists: map<State, seq<seq<int>>>, made: nat, blocks: map<int, Block>) {
    && (forall s :: s in lists <==> 0 <= s < made)
    && (forall s :: s in lists ==> |lists[s]| == CLASSES)
    && (forall s, c {:trigger lists[s][c]} :: s in lists && 0 <= c < CLASSES ==>
          HoldsAll(lists[s][c], SizeOf(c), On(s), blocks))
  }

  /** A refilling thread's list is empty, and what is in flight is what it holds. */
  ghost predicate WorkerOk(t: Thread, w: Worker, lists: map<State, seq<seq<int>>>, blocks: map<int, Block>)
    requires w.state in lists && |lists[w.state]| == CLASSES
  {
    match w.doing
    case Idle => true
    case Asking(c) => c < CLASSES && lists[w.state][c] == []
    case Got(c, items) =>
      && c < CLASSES && lists[w.state][c] == [] && items != []
      && HoldsAll(items, SizeOf(c), Flight(t), blocks)
  }

  ghost predicate WorkersOk(workers: map<Thread, Worker>, lists: map<State, seq<seq<int>>>, blocks: map<int, Block>)
  {
    && (forall t :: t in workers ==> workers[t].state in lists && |lists[workers[t].state]| == CLASSES
                                      && WorkerOk(t, workers[t], lists, blocks))
    && (forall a :: a in blocks && blocks[a].where.Flight? ==>
          var t := blocks[a].where.thread;
          t in workers && workers[t].doing.Got? && workers[t].doing.cls < CLASSES
          && blocks[a].size == SizeOf(workers[t].doing.cls))
  }

  /** No state is invented: blocks are only on lists of states that exist. */
  ghost predicate PlacesOk(blocks: map<int, Block>, made: nat) {
    forall a :: a in blocks ==> IsSize(blocks[a].size) && (blocks[a].where.On? ==> 0 <= blocks[a].where.state < made)
  }

  ghost predicate Geometry(blocks: map<int, Block>, start: int, end: int) {
    && (forall a :: a in blocks ==> a > 0 && a % ALIGN == 0 && blocks[a].size > 0)
    && (forall a, b :: a in blocks && b in blocks && a != b ==> Apart(a, blocks[a].size, b, blocks[b].size))
    && 0 <= start <= end && (end - start) % ALIGN == 0
    && (end > start ==> start > 0 && start % ALIGN == 0
                        && forall a :: a in blocks ==> Apart(a, blocks[a].size, start, end - start))
  }

  function Sizes(blocks: map<int, Block>): map<int, int>
  {
    map a | a in blocks :: blocks[a].size
  }

  ghost predicate Conserved(s: Sys) {
    s.obtained == Sum(Sizes(s.blocks)) + (s.end - s.start) && s.heapSize >= 0
  }

  ghost predicate Inv(s: Sys) {
    && OwnedOnce(s.workers, s.parked, s.made)
    && ListsOk(s.lists, s.made, s.blocks)
    && WorkersOk(s.workers, s.lists, s.blocks)
    && PlacesOk(s.blocks, s.made)
    && Geometry(s.blocks, s.start, s.end)
    && Conserved(s)
  }

  // ---------------------------------------------------------------- blocks that change places

  /** A block that is on no list, or on the one list named. */
  predicate Quiet(b: Block, size: int, st: State) {
    !b.where.On? || b == Block(size, On(st))
  }

  /** Only blocks of one list, or of none, appear or change. */
  ghost predicate Touches(blocks: map<int, Block>, blocks': map<int, Block>, size: int, st: State) {
    && (forall a :: a in blocks ==>
          a in blocks' && (blocks'[a] == blocks[a] || (Quiet(blocks[a], size, st) && Quiet(blocks'[a], size, st))))
    && (forall a :: a in blocks' && a !in blocks ==> Quiet(blocks'[a], size, st))
  }

  /** Only blocks in the hands of one thread, or of none, appear or change. */
  ghost predicate FliesOnly(blocks: map<int, Block>, blocks': map<int, Block>, t: Thread) {
    && (forall a :: a in blocks ==>
          a in blocks' && (blocks'[a] == blocks[a] || (NoOther(blocks[a], t) && NoOther(blocks'[a], t))))
    && (forall a :: a in blocks' && a !in blocks ==> NoOther(blocks'[a], t))
  }

  predicate NoOther(b: Block, t: Thread) {
    b.where.Flight? ==> b.where.thread == t
  }

  lemma {:induction false} ListsStep(lists: map<State, seq<seq<int>>>, made: nat, blocks: map<int, Block>,
                                     st: State, c: nat, list: seq<int>, blocks': map<int, Block>)
    requires ListsOk(lists, made, blocks) && st in lists && c < CLASSES && |lists[st]| == CLASSES
    requires Touches(blocks, blocks', SizeOf(c), st) && HoldsAll(list, SizeOf(c), On(st), blocks')
    ensures ListsOk(lists[st := lists[st][c := list]], made, blocks')
  {
    var lists' := lists[st := lists[st][c := list]];
    forall s, d {:trigger lists'[s][d]} | s in lists' && 0 <= d < CLASSES
      ensures HoldsAll(lists'[s][d], SizeOf(d), On(s), blocks')
    {
      if s != st || d != c {
        assert lists'[s][d] == lists[s][d];
        HoldsFrame(lists[s][d], SizeOf(d), s, blocks, blocks', SizeOf(c), st);
      }
    }
  }

  lemma {:induction false} HoldsFrame(items: seq<int>, size: int, s: State, blocks: map<int, Block>,
                                      blocks': map<int, Block>,
                                      size': int, st: State)
    requires HoldsAll(items, size, On(s), blocks) && Touches(blocks, blocks', size', st) && (s != st || size != size')
    ensures HoldsAll(items, size, On(s), blocks')
  {
    forall k | 0 <= k < |items| ensures items[k] in blocks' && blocks'[items[k]] == Block(size, On(s)) {
      var a := items[k];
      assert a in blocks && blocks[a] == Block(size, On(s));
      assert a in blocks';
    }
    forall a | a in blocks' && blocks'[a] == Block(size, On(s)) ensures a in items {
      assert a in blocks;
    }
  }

  lemma {:induction false} FlightFrame(items: seq<int>, size: int, u: Thread, blocks: map<int, Block>,
                                       blocks': map<int, Block>, t: Thread)
    requires HoldsAll(items, size, Flight(u), blocks) && FliesOnly(blocks, blocks', t) && u != t
    ensures HoldsAll(items, size, Flight(u), blocks')
  {
    forall k | 0 <= k < |items| ensures items[k] in blocks' && blocks'[items[k]] == Block(size, Flight(u)) {
      var a := items[k];
      assert a in blocks && blocks[a] == Block(size, Flight(u));
      assert a in blocks';
    }
    forall a | a in blocks' && blocks'[a] == Block(size, Flight(u)) ensures a in items {
      assert a in blocks;
    }
  }

  lemma {:induction false} WorkersStep(workers: map<Thread, Worker>, lists: map<State, seq<seq<int>>>,
                                       blocks: map<int, Block>,
                                       t: Thread, doing: Doing, c: nat, list: seq<int>, blocks': map<int, Block>)
    requires WorkersOk(workers, lists, blocks) && t in workers && c < CLASSES
    requires workers[t].state in lists && |lists[workers[t].state]| == CLASSES
    requires forall u :: u in workers && u != t ==> workers[u].state != workers[t].state
    requires FliesOnly(blocks, blocks', t)
    requires var st := workers[t].state; var lists' := lists[st := lists[st][c := list]];
      WorkerOk(t, Worker(st, doing), lists', blocks')
    requires forall a :: a in blocks' && blocks'[a].where == Flight(t) ==>
      doing.Got? && doing.cls < CLASSES && blocks'[a].size == SizeOf(doing.cls)
    ensures var st := workers[t].state;
      WorkersOk(workers[t := Worker(st, doing)], lists[st := lists[st][c := list]], blocks')
  {
    var st := workers[t].state;
    var workers', lists' := workers[t := Worker(st, doing)], lists[st := lists[st][c := list]];
    forall u | u in workers'
      ensures workers'[u].state in lists' && |lists'[workers'[u].state]| == CLASSES
        && WorkerOk(u, workers'[u], lists', blocks')
    {
      if u != t {
        assert WorkerOk(u, workers[u], lists, blocks);
        assert lists'[workers[u].state] == lists[workers[u].state];
        if workers[u].doing.Got? {
          FlightFrame(workers[u].doing.items, SizeOf(workers[u].doing.cls), u, blocks, blocks', t);
        }
      }
    }
    forall a | a in blocks' && blocks'[a].where.Flight?
      ensures var u := blocks'[a].where.thread;
        u in workers' && workers'[u].doing.Got? && workers'[u].doing.cls < CLASSES
        && blocks'[a].size == SizeOf(workers'[u].doing.cls)
    {
      if blocks'[a].where.thread != t {
        assert a in blocks && blocks[a] == blocks'[a];
      }
    }
  }

  lemma {:induction false} OwnedSame(workers: map<Thread, Worker>, parked: seq<State>, made: nat, t: Thread,
                                     doing: Doing)
    requires OwnedOnce(workers, parked, made) && t in workers
    ensures OwnedOnce(workers[t := workers[t].(doing := doing)], parked, made)
  {
    var workers' := workers[t := workers[t].(doing := doing)];
    forall s | 0 <= s < made ensures s in parked || exists u :: u in workers' && workers'[u].state == s {
      if s !in parked {
        var u :| u in workers && workers[u].state == s;
        assert workers'[u].state == s;
      }
    }
  }

  lemma {:induction false} SameSizes(blocks: map<int, Block>, blocks': map<int, Block>, start: int, end: int)
    requires Geometry(blocks, start, end) && blocks'.Keys == blocks.Keys
    requires forall a :: a in blocks ==> blocks'[a].size == blocks[a].size
    ensures Geometry(blocks', start, end) && Sum(Sizes(blocks')) == Sum(Sizes(blocks))
  {
    forall a | a in blocks' ensures a in blocks && blocks'[a].size == blocks[a].size {
      assert a in blocks'.Keys;
    }
    forall a | a in blocks ensures a in blocks' {
      assert a in blocks.Keys;
    }
    assert Sizes(blocks') == Sizes(blocks);
  }

  // ---------------------------------------------------------------- cutting the buffer

  lemma {:induction false} CutItems(a: int, n: int, count: nat)
    requires n > 0
    decreases count
    ensures |Cut(a, n, count)| == count && NoRepeats(Cut(a, n, count))
    ensures forall k :: 0 <= k < count ==> a <= Cut(a, n, count)[k]
  {
    if count > 0 {
      CutItems(a + n, n, count - 1);
      var rest := Cut(a + n, n, count - 1);
      assert forall k :: 0 < k < count ==> Cut(a, n, count)[k] == rest[k - 1];
    }
  }

  lemma {:induction false} CutBlocks(blocks: map<int, Block>, a: int, n: int, count: nat, w: Where)
    requires n > 0
    decreases count
    ensures forall b :: b in AddCut(blocks, a, n, count, w) <==> b in blocks || b in Cut(a, n, count)
    ensures forall b :: b in Cut(a, n, count) ==> AddCut(blocks, a, n, count, w)[b] == Block(n, w)
    ensures forall b :: b in blocks && b !in Cut(a, n, count) ==> AddCut(blocks, a, n, count, w)[b] == blocks[b]
  {
    if count > 0 {
      CutBlocks(blocks[a := Block(n, w)], a + n, n, count - 1, w);
      var rest := Cut(a + n, n, count - 1);
      assert Cut(a, n, count) == [a] + rest;
      assert a !in rest ==> AddCut(blocks, a, n, count, w)[a] == Block(n, w);
      assert forall b :: b in Cut(a, n, count) <==> b == a || b in rest;
    }
  }

  /** Cutting blocks off the front of the buffer keeps everything apart and loses no byte. */
  lemma {:induction false} CutKeeps(blocks: map<int, Block>, start: int, end: int, n: int, count: nat, w: Where)
    requires Geometry(blocks, start, end) && n > 0 && n % ALIGN == 0 && n * count <= end - start
    decreases count
    ensures Geometry(AddCut(blocks, start, n, count, w), start + n * count, end)
    ensures Sum(Sizes(AddCut(blocks, start, n, count, w))) == Sum(Sizes(blocks)) + n * count
    ensures forall b :: b in Cut(start, n, count) ==> b !in blocks
  {
    if count > 0 {
      hide Geometry, Sum, Sizes;
      OneMore(n, count);
      CutOne(blocks, start, end, n, w);
      CutKeeps(blocks[start := Block(n, w)], start + n, end, n, count - 1, w);
      assert Cut(start, n, count) == [start] + Cut(start + n, n, count - 1);
    }
  }

  lemma {:induction false} OneMore(n: int, count: nat)
    requires n > 0 && count > 0
    ensures n * count == n + n * (count - 1) && n * (count - 1) >= 0
  {
  }

  lemma {:induction false} CutOne(blocks: map<int, Block>, start: int, end: int, n: int, w: Where)
    requires Geometry(blocks, start, end) && 0 < n <= end - start && n % ALIGN == 0
    ensures Geometry(blocks[start := Block(n, w)], start + n, end) && start !in blocks
    ensures Sum(Sizes(blocks[start := Block(n, w)])) == Sum(Sizes(blocks)) + n
  {
    assert start in blocks ==> !Apart(start, blocks[start].size, start, end - start);
    CutGeometry(blocks, start, end, n, w);
    hide Geometry;
    SizesPlus(blocks, start, n, w);
  }

  lemma {:induction false} CutGeometry(blocks: map<int, Block>, start: int, end: int, n: int, w: Where)
    requires Geometry(blocks, start, end) && 0 < n <= end - start && n % ALIGN == 0 && start !in blocks
    ensures Geometry(blocks[start := Block(n, w)], start + n, end)
  {
    var blocks' := blocks[start := Block(n, w)];
    forall a | a in blocks && a != start
      ensures Apart(a, blocks[a].size, start, n) && Apart(a, blocks[a].size, start + n, end - start - n)
    {
      assert Apart(a, blocks[a].size, start, end - start);
    }
    assert (end - start - n) % ALIGN == 0 && (start + n) % ALIGN == 0;
  }

  lemma {:induction false} SizesPlus(blocks: map<int, Block>, a: int, n: int, w: Where)
    requires a !in blocks
    ensures Sum(Sizes(blocks[a := Block(n, w)])) == Sum(Sizes(blocks)) + n
  {
    assert Sizes(blocks[a := Block(n, w)]) == Sizes(blocks)[a := n];
    hide Sum;
    SumUpdate(Sizes(blocks), a, n);
  }

  // ---------------------------------------------------------------- the steps keep the invariant

  lemma {:induction false} HoldsTail(items: seq<int>, size: int, w: Where, blocks: map<int, Block>, w': Where)
    requires HoldsAll(items, size, w, blocks) && items != [] && w' != w && items[0] in blocks
    ensures HoldsAll(items[1..], size, w, blocks[items[0] := blocks[items[0]].(where := w')])
  {
    var rest, blocks' := items[1..], blocks[items[0] := blocks[items[0]].(where := w')];
    assert forall k :: 0 <= k < |rest| ==> rest[k] == items[k + 1];
    forall a | a in blocks' && blocks'[a] == Block(size, w) ensures a in rest {
      var k :| 0 <= k < |items| && items[k] == a;
      assert rest[k - 1] == a;
    }
  }

  lemma {:induction false} HoldsCons(items: seq<int>, size: int, w: Where, blocks: map<int, Block>, a: int)
    requires HoldsAll(items, size, w, blocks) && (a in blocks ==> blocks[a] != Block(size, w))
    ensures HoldsAll([a] + items, size, w, blocks[a := Block(size, w)])
  {
    var all := [a] + items;
    assert forall k :: 0 < k < |all| ==> all[k] == items[k - 1];
  }

  lemma {:induction false} WorkerParts(s: Sys, t: Thread)
    requires Inv(s) && t in s.workers
    ensures Working(s, t) && WorkerOk(t, s.workers[t], s.lists, s.blocks)
    ensures forall c :: 0 <= c < CLASSES ==> HoldsAll(ListOf(s, t, c), SizeOf(c), On(s.workers[t].state), s.blocks)
    ensures forall u :: u in s.workers && u != t ==> s.workers[u].state != s.workers[t].state
    ensures !s.workers[t].doing.Got? ==> forall a :: a in s.blocks ==> s.blocks[a].where != Flight(t)
    ensures 0 <= s.workers[t].state < s.made
  {
    var lists, st := s.lists, s.workers[t].state;
    forall c | 0 <= c < CLASSES ensures HoldsAll(ListOf(s, t, c), SizeOf(c), On(st), s.blocks) {
      assert HoldsAll(lists[st][c], SizeOf(c), On(st), s.blocks);
    }
  }

  lemma {:induction false} TakeKeeps(s: Sys, t: Thread, c: nat)
    requires Inv(s) && Enabled(s, Take(t, c))
    ensures Inv(Next(s, Take(t, c)))
  {
    hide OwnedOnce, ListsOk, WorkersOk, Geometry, Sum;
    WorkerParts(s, t);
    var list, st, blocks := ListOf(s, t, c), s.workers[t].state, s.blocks;
    var a := list[0];
    var blocks' := blocks[a := blocks[a].(where := Held)];
    HoldsTail(list, SizeOf(c), On(st), blocks, Held);
    ListsStep(s.lists, s.made, blocks, st, c, list[1..], blocks');
    WorkersStep(s.workers, s.lists, blocks, t, Idle, c, list[1..], blocks');
    OwnedSame(s.workers, s.parked, s.made, t, Idle);
    SameSizes(blocks, blocks', s.start, s.end);
    assert s.workers[t := Worker(st, Idle)] == s.workers;
  }

  lemma {:induction false} GiveKeeps(s: Sys, t: Thread, a: int)
    requires Inv(s) && Enabled(s, Give(t, a))
    ensures Inv(Next(s, Give(t, a)))
  {
    hide OwnedOnce, ListsOk, WorkersOk, Geometry, Sum;
    WorkerParts(s, t);
    var st, blocks, c := s.workers[t].state, s.blocks, ClassOf(s.blocks[a].size);
    var list := [a] + ListOf(s, t, c);
    var blocks' := blocks[a := blocks[a].(where := On(st))];
    assert blocks[a].size == SizeOf(c);
    HoldsCons(ListOf(s, t, c), SizeOf(c), On(st), blocks, a);
    ListsStep(s.lists, s.made, blocks, st, c, list, blocks');
    WorkersStep(s.workers, s.lists, blocks, t, Idle, c, list, blocks');
    OwnedSame(s.workers, s.parked, s.made, t, Idle);
    SameSizes(blocks, blocks', s.start, s.end);
    assert s.workers[t := Worker(st, Idle)] == s.workers;
  }

  lemma {:induction false} NothingTouched(blocks: map<int, Block>, size: int, st: State, t: Thread)
    ensures Touches(blocks, blocks, size, st) && FliesOnly(blocks, blocks, t)
  {
  }

  lemma {:induction false} AskKeeps(s: Sys, t: Thread, c: nat)
    requires Inv(s) && Enabled(s, Ask(t, c))
    ensures Inv(Next(s, Ask(t, c)))
  {
    WorkerParts(s, t);
    var st := s.workers[t].state;
    assert s.lists[st := s.lists[st][c := []]] == s.lists by { assert s.lists[st][c := []] == s.lists[st]; }
    NothingTouched(s.blocks, 0, st, t);
    WorkersStep(s.workers, s.lists, s.blocks, t, Asking(c), c, [], s.blocks);
    OwnedSame(s.workers, s.parked, s.made, t, Asking(c));
    hide OwnedOnce, ListsOk, WorkersOk, Geometry;
  }

  /** The blocks cut are all there is of their kind. */
  lemma {:induction false} CutHolds(blocks: map<int, Block>, a: int, n: int, count: nat, t: Thread, st: State)
    requires n > 0 && forall b :: b in Cut(a, n, count) ==> b !in blocks
    requires forall b :: b in blocks ==> blocks[b].where != Flight(t)
    requires HoldsAll([], n, On(st), blocks)
    ensures var blocks' := AddCut(blocks, a, n, count, Flight(t));
      && HoldsAll(Cut(a, n, count), n, Flight(t), blocks') && HoldsAll([], n, On(st), blocks')
      && Touches(blocks, blocks', n, st) && FliesOnly(blocks, blocks', t)
      && (forall b :: b in blocks' ==> (b in blocks && blocks'[b] == blocks[b]) || blocks'[b] == Block(n, Flight(t)))
  {
    CutItems(a, n, count);
    CutBlocks(blocks, a, n, count, Flight(t));
    hide AddCut, Cut;
    var items, blocks' := Cut(a, n, count), AddCut(blocks, a, n, count, Flight(t));
    forall k | 0 <= k < |items| ensures items[k] in blocks' && blocks'[items[k]] == Block(n, Flight(t)) {
      assert items[k] in items;
    }
  }

  /** Room in the buffer: the thread leaves the critical section with whole blocks. */
  lemma {:induction false} ServedKeeps(s: Sys, t: Thread, base: int)
    requires Inv(s) && Enabled(s, Chunk(t, base)) && s.end - s.start >= SizeOf(s.workers[t].doing.cls)
    ensures Inv(Next(s, Chunk(t, base)))
  {
    hide OwnedOnce, ListsOk, WorkersOk, Geometry, PlacesOk, AddCut, Cut, HoldsAll, Touches, FliesOnly, Sum, Count;
    WorkerParts(s, t);
    var st, blocks, c := s.workers[t].state, s.blocks, s.workers[t].doing.cls;
    var n := SizeOf(c);
    var count := Count(s.end - s.start, n);
    CountFits(s.end - s.start, n);
    var items, blocks' := Cut(s.start, n, count), AddCut(blocks, s.start, n, count, Flight(t));
    CutItems(s.start, n, count);
    CutKeeps(blocks, s.start, s.end, n, count, Flight(t));
    CutHolds(blocks, s.start, n, count, t, st);
    ListsStep(s.lists, s.made, blocks, st, c, [], blocks');
    SameList(s.lists, st, c);
    OnlyThese(s.workers, s.lists, blocks, t, n, blocks');
    WorkersStep(s.workers, s.lists, blocks, t, Got(c, items), c, [], blocks');
    OwnedSame(s.workers, s.parked, s.made, t, Got(c, items));
    PlacesGrow(blocks, blocks', s.made, items, n, Flight(t));
  }

  lemma {:induction false} SameList(lists: map<State, seq<seq<int>>>, st: State, c: nat)
    requires st in lists && c < |lists[st]|
    ensures lists[st := lists[st][c := lists[st][c]]] == lists
  {
    assert lists[st][c := lists[st][c]] == lists[st];
  }

  lemma {:induction false} OnlyThese(workers: map<Thread, Worker>, lists: map<State, seq<seq<int>>>,
                                     blocks: map<int, Block>,
                                     t: Thread, n: int, blocks': map<int, Block>)
    requires WorkersOk(workers, lists, blocks) && t in workers && !workers[t].doing.Got?
    requires forall b :: b in blocks' ==> (b in blocks && blocks'[b] == blocks[b]) || blocks'[b] == Block(n, Flight(t))
    ensures forall b :: b in blocks' && blocks'[b].where == Flight(t) ==> blocks'[b].size == n
  {
  }

  lemma {:induction false} PlacesGrow(blocks: map<int, Block>, blocks': map<int, Block>, made: nat, items: seq<int>,
                                      n: int, w: Where)
    requires PlacesOk(blocks, made) && IsSize(n) && (w.On? ==> 0 <= w.state < made)
    requires forall b :: b in blocks' ==> (b in blocks && blocks'[b] == blocks[b]) || blocks'[b] == Block(n, w)
    ensures PlacesOk(blocks', made)
  {
  }

  lemma {:induction false} CountFits(left: int, n: int)
    requires left >= n > 0
    ensures 1 <= Count(left, n) <= REFILL && n * Count(left, n) <= left
  {
    if left < n * REFILL {
      assert left / n < REFILL;
    }
  }

  /** Too little room: the rest of the buffer goes on the thread's own list, and a new chunk becomes
      the buffer; the thread will ask again. */
  lemma {:induction false} SupplyKeeps(s: Sys, t: Thread, base: int)
    requires Inv(s) && Enabled(s, Chunk(t, base)) && s.end - s.start < SizeOf(s.workers[t].doing.cls)
    ensures Inv(Next(s, Chunk(t, base)))
  {
    hide OwnedOnce, ListsOk, WorkersOk, PlacesOk, Sum, LeftOver;
    var s1 := LeftOver(s, t);
    LeftOverKeeps(s, t);
    var bytes := ChunkSize(s, s.workers[t].doing.cls);
    ChunkAligned(s, s.workers[t].doing.cls);
    NewBuffer(s1.blocks, s.end, s.end, base, bytes);
  }

  lemma {:induction false} ChunkAligned(s: Sys, c: nat)
    requires c < CLASSES && s.heapSize >= 0
    ensures ChunkSize(s, c) > 0 && ChunkSize(s, c) % ALIGN == 0
  {
    assert ChunkSize(s, c) == ALIGN * (2 * ((c + 1) * REFILL) + (s.heapSize + ALIGN - 1) / ALIGN);
  }

  lemma {:induction false} NewBuffer(blocks: map<int, Block>, start: int, end: int, base: int, bytes: int)
    requires Geometry(blocks, start, end) && start == end && base > 0 && base % ALIGN == 0 && bytes > 0
      && bytes % ALIGN == 0
    requires forall b :: b in blocks ==> Apart(b, blocks[b].size, base, bytes)
    ensures Geometry(blocks, base, base + bytes)
  {
  }

  lemma {:induction false} LeftOverKeeps(s: Sys, t: Thread)
    requires Inv(s) && t in s.workers && s.workers[t].doing.Asking? && s.workers[t].doing.cls < CLASSES
    requires s.end - s.start < SizeOf(s.workers[t].doing.cls)
    ensures Working(s, t) && 0 <= s.end - s.start <= MAX_BYTES
    ensures var s' := LeftOver(s, t);
      && OwnedOnce(s'.workers, s'.parked, s'.made) && ListsOk(s'.lists, s'.made, s'.blocks)
      && WorkersOk(s'.workers, s'.lists, s'.blocks) && PlacesOk(s'.blocks, s'.made)
      && s' == s.(lists := s'.lists, blocks := s'.blocks)
      && Geometry(s'.blocks, s.end, s.end) && Sum(Sizes(s'.blocks)) == Sum(Sizes(s.blocks)) + (s.end - s.start)
      && (forall b :: b in s'.blocks ==> (b in s.blocks && s'.blocks[b] == s.blocks[b])
                                         || (s.end > s.start && b == s.start && s'.blocks[b].size == s.end - s.start))
  {
    hide OwnedOnce, ListsOk, WorkersOk, PlacesOk, HoldsAll, Touches, FliesOnly, Sum;
    WorkerParts(s, t);
    var left := s.end - s.start;
    LeftIsSize(s.blocks, s.start, s.end, SizeOf(s.workers[t].doing.cls));
    if left > 0 {
      var st, blocks, c := s.workers[t].state, s.blocks, ClassOf(left);
      CutOne(blocks, s.start, s.end, left, On(st));
      hide Geometry;
      var list, blocks' := [s.start] + ListOf(s, t, c), blocks[s.start := Block(left, On(st))];
      HoldsCons(ListOf(s, t, c), left, On(st), blocks, s.start);
      ListedPiece(blocks, s.start, left, st, t);
      ListsStep(s.lists, s.made, blocks, st, c, list, blocks');
      WorkersStep(s.workers, s.lists, blocks, t, s.workers[t].doing, c, list, blocks');
      assert s.workers[t := Worker(st, s.workers[t].doing)] == s.workers;
      KnownState(s, t);
      PlacesGrow(blocks, blocks', s.made, [s.start], left, On(st));
    }
  }

  lemma {:induction false} LeftIsSize(blocks: map<int, Block>, start: int, end: int, n: int)
    requires Geometry(blocks, start, end) && end - start < n <= MAX_BYTES
    ensures 0 <= end - start <= MAX_BYTES
      && (end > start ==> IsSize(end - start) && SizeOf(ClassOf(end - start)) == end - start)
  {
  }

  lemma {:induction false} ListedPiece(blocks: map<int, Block>, a: int, n: int, st: State, t: Thread)
    requires a !in blocks
    ensures Touches(blocks, blocks[a := Block(n, On(st))], n, st) && FliesOnly(blocks, blocks[a := Block(n, On(st))], t)
  {
  }

  lemma {:induction false} KnownState(s: Sys, t: Thread)
    requires OwnedOnce(s.workers, s.parked, s.made) && t in s.workers
    ensures 0 <= s.workers[t].state < s.made
  {
  }

  lemma {:induction false} FinishBlocks(blocks: map<int, Block>, items: seq<int>, n: int, t: Thread, st: State)
    requires HoldsAll(items, n, Flight(t), blocks) && HoldsAll([], n, On(st), blocks) && items != []
    ensures var blocks' := MoveAll(MoveAll(blocks, items[..1], Held), items[1..], On(st));
      && HoldsAll(items[1..], n, On(st), blocks') && Touches(blocks, blocks', n, st) && FliesOnly(blocks, blocks', t)
      && (forall a :: a in blocks' ==> blocks'[a] != Block(n, Flight(t)))
      && (forall a :: a in blocks' ==>
            a in blocks && (blocks'[a] == blocks[a] || blocks'[a] == Block(n, Held) || blocks'[a] == Block(n, On(st))))
      && blocks'.Keys == blocks.Keys && forall a :: a in blocks ==> blocks'[a].size == blocks[a].size
  {
    var blocks' := MoveAll(MoveAll(blocks, items[..1], Held), items[1..], On(st));
    var rest := items[1..];
    assert items[..1] == [items[0]] && items == [items[0]] + rest;
    assert forall k :: 0 <= k < |rest| ==> rest[k] == items[k + 1];
    forall a | a in blocks ensures a in blocks' && blocks'[a] ==
      if a in rest then Block(n, On(st)) else if a == items[0] then Block(n, Held) else blocks[a]
    {
    }
    assert items[0] !in rest;
  }

  lemma {:induction false} FinishKeeps(s: Sys, t: Thread)
    requires Inv(s) && Enabled(s, Finish(t))
    ensures Inv(Next(s, Finish(t)))
  {
    hide OwnedOnce, ListsOk, WorkersOk, Geometry, PlacesOk, HoldsAll, Touches, FliesOnly, Sum, MoveAll;
    WorkerParts(s, t);
    var st, blocks, c, items := s.workers[t].state, s.blocks, s.workers[t].doing.cls, s.workers[t].doing.items;
    var n := SizeOf(c);
    assert ListOf(s, t, c) == [];
    FinishBlocks(blocks, items, n, t, st);
    var blocks' := MoveAll(MoveAll(blocks, items[..1], Held), items[1..], On(st));
    ListsStep(s.lists, s.made, blocks, st, c, items[1..], blocks');
    SameList(s.lists, st, c);
    NoneInFlight(s, t, blocks');
    WorkersStep(s.workers, s.lists, blocks, t, Idle, c, items[1..], blocks');
    OwnedSame(s.workers, s.parked, s.made, t, Idle);
    SameSizes(blocks, blocks', s.start, s.end);
    KnownState(s, t);
    PlacesStay(blocks, blocks', s.made, n, st);
  }

  lemma {:induction false} PlacesStay(blocks: map<int, Block>, blocks': map<int, Block>, made: nat, n: int, st: State)
    requires PlacesOk(blocks, made) && IsSize(n) && 0 <= st < made
    requires forall a :: a in blocks' ==>
      a in blocks && (blocks'[a] == blocks[a] || blocks'[a] == Block(n, Held) || blocks'[a] == Block(n, On(st)))
    ensures PlacesOk(blocks', made)
  {
  }

  lemma {:induction false} NoneInFlight(s: Sys, t: Thread, blocks': map<int, Block>)
    requires WorkersOk(s.workers, s.lists, s.blocks) && t in s.workers && s.workers[t].doing.Got?
      && s.workers[t].doing.cls < CLASSES
    requires var n := SizeOf(s.workers[t].doing.cls);
      && (forall a :: a in blocks' ==> blocks'[a] != Block(n, Flight(t)))
      && (forall a :: a in blocks' ==> a in s.blocks && (blocks'[a] == s.blocks[a] || !blocks'[a].where.Flight?))
    ensures forall a :: a in blocks' ==> blocks'[a].where != Flight(t)
  {
    forall a | a in blocks' ensures blocks'[a].where != Flight(t) {
      if blocks'[a].where.Flight? { assert blocks'[a] == s.blocks[a] && s.blocks[a].where.Flight?; }
    }
  }

  lemma {:induction false} AttachKeeps(s: Sys, t: Thread)
    requires Inv(s) && Enabled(s, Attach(t))
    ensures Inv(Next(s, Attach(t)))
  {
    hide OwnedOnce, ListsOk, Geometry, PlacesOk, WorkersOk, Sum;
    var s' := Next(s, Attach(t));
    AttachOwned(s.workers, s.parked, s.made, t);
    AttachLists(s);
    KnownParked(s);
    WorkersAttach(s.workers, s.lists, s.blocks, t, s'.workers[t].state, s'.lists);
  }

  lemma {:induction false} KnownParked(s: Sys)
    requires OwnedOnce(s.workers, s.parked, s.made) && ListsOk(s.lists, s.made, s.blocks)
    ensures s.parked != [] ==> s.parked[0] in s.lists && |s.lists[s.parked[0]]| == CLASSES
    ensures s.made !in s.lists
  {
    hide HoldsAll;
  }

  lemma {:induction false} WorkersAttach(workers: map<Thread, Worker>, lists: map<State, seq<seq<int>>>,
                                         blocks: map<int, Block>,
                                         t: Thread, st: State, lists': map<State, seq<seq<int>>>)
    requires WorkersOk(workers, lists, blocks) && t !in workers && st in lists' && |lists'[st]| == CLASSES
    requires forall s :: s in lists ==> s in lists' && lists'[s] == lists[s]
    ensures WorkersOk(workers[t := Worker(st, Idle)], lists', blocks)
  {
    hide HoldsAll;
    var workers' := workers[t := Worker(st, Idle)];
    forall u | u in workers'
      ensures workers'[u].state in lists' && |lists'[workers'[u].state]| == CLASSES
        && WorkerOk(u, workers'[u], lists', blocks)
    {
      if u != t {
        assert WorkerOk(u, workers[u], lists, blocks);
      }
    }
  }

  lemma {:induction false} AttachOwned(workers: map<Thread, Worker>, parked: seq<State>, made: nat, t: Thread)
    requires OwnedOnce(workers, parked, made) && t !in workers
    ensures parked != [] ==> OwnedOnce(workers[t := Worker(parked[0], Idle)], parked[1..], made)
    ensures parked == [] ==> OwnedOnce(workers[t := Worker(made, Idle)], parked, made + 1)
  {
    var st := if parked != [] then parked[0] else made;
    var workers', rest := workers[t := Worker(st, Idle)], if parked != [] then parked[1..] else [];
    if parked != [] {
      assert forall i :: 0 <= i < |rest| ==> rest[i] == parked[i + 1];
      assert parked == [parked[0]] + rest;
    }
    forall s | 0 <= s < (if parked != [] then made else made + 1)
      ensures s in rest || exists u :: u in workers' && workers'[u].state == s
    {
      if s == st {
        assert workers'[t].state == s;
      } else if s !in parked {
        var u :| u in workers && workers[u].state == s;
        assert workers'[u].state == s;
      }
    }
  }

  lemma {:induction false} AttachLists(s: Sys)
    requires ListsOk(s.lists, s.made, s.blocks) && PlacesOk(s.blocks, s.made)
    ensures ListsOk(s.lists[s.made := seq(CLASSES, _ => [])], s.made + 1, s.blocks) && PlacesOk(s.blocks, s.made + 1)
  {
    var lists, lists' := s.lists, s.lists[s.made := seq(CLASSES, _ => [])];
    forall st, c {:trigger lists'[st][c]} | st in lists' && 0 <= c < CLASSES
      ensures HoldsAll(lists'[st][c], SizeOf(c), On(st), s.blocks)
    {
      if st != s.made {
        assert lists'[st][c] == lists[st][c];
      }
    }
  }

  lemma {:induction false} DetachKeeps(s: Sys, t: Thread)
    requires Inv(s) && Enabled(s, Detach(t))
    ensures Inv(Next(s, Detach(t)))
  {
    WorkerParts(s, t);
    hide OwnedOnce, ListsOk, Geometry, WorkersOk, Sum;
    DetachOwned(s.workers, s.parked, s.made, t);
    DetachWorkers(s.workers, s.lists, s.blocks, t);
  }

  /** A thread that holds nothing in its hands can go. */
  lemma {:induction false} DetachWorkers(workers: map<Thread, Worker>, lists: map<State, seq<seq<int>>>,
                                         blocks: map<int, Block>, t: Thread)
    requires WorkersOk(workers, lists, blocks) && t in workers && !workers[t].doing.Got?
    ensures WorkersOk(workers - {t}, lists, blocks)
  {
    hide WorkerOk;
  }

  lemma {:induction false} DetachOwned(workers: map<Thread, Worker>, parked: seq<State>, made: nat, t: Thread)
    requires OwnedOnce(workers, parked, made) && t in workers
    ensures OwnedOnce(workers - {t}, [workers[t].state] + parked, made)
  {
    var workers', parked' := workers - {t}, [workers[t].state] + parked;
    assert forall i :: 0 < i < |parked'| ==> parked'[i] == parked[i - 1];
    forall s | 0 <= s < made ensures s in parked' || exists u :: u in workers' && workers'[u].state == s {
      if s !in parked' {
        assert forall x :: x in parked ==> x in parked';
        var u :| u in workers && workers[u].state == s;
        assert parked'[0] == workers[t].state;
        assert u != t;
        assert workers'[u].state == s;
      }
    }
  }

  lemma {:induction false} StepKeeps(s: Sys, e: Event)
    requires Inv(s) && Enabled(s, e)
    ensures Inv(Next(s, e))
  {
    hide Inv, Next;
    match e
    case Attach(t) => AttachKeeps(s, t);
    case Detach(t) => DetachKeeps(s, t);
    case Take(t, c) => TakeKeeps(s, t, c);
    case Ask(t, c) => AskKeeps(s, t, c);
    case Chunk(t, base) =>
      if s.end - s.start >= SizeOf(s.workers[t].doing.cls) {
        ServedKeeps(s, t, base);
      } else {
        SupplyKeeps(s, t, base);
      }
    case Finish(t) => FinishKeeps(s, t);
    case Give(t, a) => GiveKeeps(s, t, a);
  }

  // ---------------------------------------------------------------- every interleaving

  lemma {:induction false} StartIsSound()
    ensures Inv(START)
  {
    hide OwnedOnce, ListsOk, WorkersOk, PlacesOk, Geometry, Sum, Sizes;
    EmptyOwned(map[]);
    EmptyLists(map[], map[]);
    EmptyBlocks(map[], map[], map[]);
    EmptySum(map[]);
  }

  lemma {:induction false} EmptyOwned(workers: map<Thread, Worker>)
    requires workers == map[]
    ensures OwnedOnce(workers, [], 0)
  {
  }

  lemma {:induction false} EmptyLists(lists: map<State, seq<seq<int>>>, blocks: map<int, Block>)
    requires lists == map[] && blocks == map[]
    ensures ListsOk(lists, 0, blocks)
  {
    hide HoldsAll;
  }

  lemma {:induction false} EmptyBlocks(workers: map<Thread, Worker>, lists: map<State, seq<seq<int>>>,
                                       blocks: map<int, Block>)
    requires workers == map[] && lists == map[] && blocks == map[]
    ensures WorkersOk(workers, lists, blocks) && PlacesOk(blocks, 0) && Geometry(blocks, 0, 0)
  {
  }

  lemma {:induction false} EmptySum(blocks: map<int, Block>)
    requires blocks == map[]
    ensures Sum(Sizes(blocks)) == 0
  {
    assert Sizes(blocks).Keys == {};
  }

  /** Under every interleaving, blocks, lists and states stay in order. */
  lemma {:induction false} RunKeeps(s: Sys, es: seq<Event>)
    requires Inv(s) && RunEnabled(s, es)
    decreases |es|
    ensures Inv(Run(s, es))
  {
    hide Inv, Next, Enabled;
    if es != [] {
      StepKeeps(s, es[0]);
      RunKeeps(Next(s, es[0]), es[1..]);
    }
  }

  /** What the invariant comes to. */
  ghost predicate InOrder(s: Sys) {
    && (forall a, b :: a in s.blocks && b in s.blocks && a != b ==> Apart(a, s.blocks[a].size, b, s.blocks[b].size))
    && (forall a :: a in s.blocks && s.end > s.start ==> Apart(a, s.blocks[a].size, s.start, s.end - s.start))
    && (forall st :: st in s.lists ==> |s.lists[st]| == CLASSES)
    && (forall st, c {:trigger s.lists[st][c]} :: st in s.lists && 0 <= c < CLASSES ==>
          HoldsAll(s.lists[st][c], SizeOf(c), On(st), s.blocks))
    && (forall a :: a in s.blocks && s.blocks[a].where.On? ==> s.blocks[a].where.state in s.lists)
    && NoRepeats(s.parked)
    && (forall t, u :: t in s.workers && u in s.workers && t != u ==> s.workers[t].state != s.workers[u].state)
    && (forall t :: t in s.workers ==> s.workers[t].state !in s.parked)
    && (forall st :: st in s.lists ==> st in s.parked || exists t :: t in s.workers && s.workers[t].state == st)
    && (forall t :: t in s.workers && s.workers[t].doing.Got? ==> Refilling(s, t))
    && (forall a :: a in s.blocks && s.blocks[a].where.Flight? ==> InHand(s, s.blocks[a].where.thread, a))
    && s.obtained == Sum(Sizes(s.blocks)) + (s.end - s.start)
  }

  /** The list the refill will assign is empty, and its items are the blocks in its thread's hands. */
  ghost predicate Refilling(s: Sys, t: Thread)
    requires t in s.workers && s.workers[t].doing.Got?
  {
    var doing := s.workers[t].doing;
    && Working(s, t) && doing.cls < CLASSES && ListOf(s, t, doing.cls) == []
    && HoldsAll(doing.items, SizeOf(doing.cls), Flight(t), s.blocks)
  }

  /** A block in flight is one of the items of the refill that it is in the hands of. */
  ghost predicate InHand(s: Sys, t: Thread, a: int) {
    t in s.workers && s.workers[t].doing.Got? && a in s.workers[t].doing.items
  }

  /** In any reachable state a block is in exactly one place and there once, blocks never overlap each
      other or the shared buffer, a state serves at most one thread and is then not parked, a refill
      holds exactly its thread's blocks in flight, and the list it is about to assign is empty. */
  lemma {:induction false} WhatInterleavingsKeep(es: seq<Event>)
    requires RunEnabled(START, es)
    ensures InOrder(Run(START, es))
  {
    hide Inv, Run, RunEnabled, START, SizeOf, Sizes, Sum;
    StartIsSound();
    RunKeeps(START, es);
    ReachableState(Run(START, es));
  }

  lemma {:induction false} ReachableState(s: Sys)
    requires Inv(s)
    ensures InOrder(s)
  {
    forall t | t in s.workers && s.workers[t].doing.Got? ensures Refilling(s, t) {
      WorkerParts(s, t);
    }
    forall a | a in s.blocks && s.blocks[a].where.Flight? ensures InHand(s, s.blocks[a].where.thread, a) {
      var t := s.blocks[a].where.thread;
      WorkerParts(s, t);
      assert s.blocks[a] == Block(SizeOf(s.workers[t].doing.cls), Flight(t));
    }
    hide Sum;
  }

  // ---------------------------------------------------------------- linking a chunk

  /** Each item leads to the next one, and the last to none. */
  predicate Chained(next: map<int, int>, items: seq<int>) {
    forall k :: 0 <= k < |items| ==> items[k] in next && next[items[k]] == if k + 1 < |items| then items[k + 1] else 0
  }

  lemma {:induction false} CutPlaces(a: int, n: nat, count: nat)
    decreases count
    ensures |Cut(a, n, count)| == count
    ensures forall k :: 0 <= k < count ==> Cut(a, n, count)[k] == a + k * n
  {
    if count > 0 {
      CutPlaces(a + n, n, count - 1);
      var rest := Cut(a + n, n, count - 1);
      forall k | 0 <= k < count ensures Cut(a, n, count)[k] == a + k * n {
        if k > 0 { assert Cut(a, n, count)[k] == rest[k - 1] == a + n + (k - 1) * n; }
      }
    }
  }

  /** The loop of _M_refill: the first block of the chunk is for the caller, the others are linked from
      the head of the list in the order in which the chunk was cut. */
  method LinkChunk(chunk: int, n: nat, count: nat) returns (result: int, head: int, next: map<int, int>)
    requires n > 0 && count >= 2
    ensures var items := Cut(chunk, n, count);
      |items| == count && result == items[0] && head == items[1] && Chained(next, items[1..])
  {
    ghost var items := Cut(chunk, n, count);
    CutPlaces(chunk, n, count);
    result, head, next := chunk, chunk + n, map[];
    var nextObj, i := head, 1;
    while i < count - 1
      invariant 1 <= i < count && nextObj == items[i]
      invariant forall k :: 1 <= k < i ==> items[k] in next && next[items[k]] == items[k + 1]
    {
      var current := nextObj;
      nextObj := nextObj + n;
      Successors(chunk, n, count, i);
      next := next[current := nextObj];
      i := i + 1;
    }
    Successors(chunk, n, count, i);
    next := next[nextObj := 0];
  }

  /** The item after item i lies n bytes on, and those before it are elsewhere. */
  lemma {:induction false} Successors(a: int, n: nat, count: nat, i: nat)
    requires n > 0 && i < count
    ensures var items := Cut(a, n, count);
      && |items| == count && (i + 1 < count ==> items[i + 1] == items[i] + n)
      && forall k :: 0 <= k < i ==> items[k] != items[i]
  {
    CutPlaces(a, n, count);
    CutItems(a, n, count);
    assert (i + 1) * n == i * n + n;
  }
}
