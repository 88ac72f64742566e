/** What each step of the per-thread node allocator delivers, and that an allocation ends with a block
    in the caller's hands. */
module PerThreadSteps {
  import opened Arithmetic
  import opened Basics
  import opened Sums
  import opened PerThreadAllocs

  /** One list of one state is replaced. */
  ghost predicate ListReplaced(s: Sys, s': Sys, st: State, c: nat, list: seq<int>) {
    && st in s.lists && |s.lists[st]| == CLASSES && c < CLASSES
    && s'.lists == s.lists[st := s.lists[st][c := list]]
  }

  /** Allocating from the thread's own list: its head is the caller's, the rest stays, and nothing else
      changes. */
  lemma {:induction false} TakeDelivers(s: Sys, t: Thread, c: nat)
    requires Inv(s) && Enabled(s, Take(t, c))
    ensures var s', list := Next(s, Take(t, c)), ListOf(s, t, c);
      && list[0] in s.blocks && s.blocks[list[0]] == Block(8 * (c + 1), On(s.workers[t].state))
      && s'.blocks == s.blocks[list[0] := Block(8 * (c + 1), Held)]
      && ListReplaced(s, s', s.workers[t].state, c, list[1..])
      && s' == s.(blocks := s'.blocks, lists := s'.lists)
  {
    WorkerParts(s, t);
    hide Inv;
  }

  /** Deallocating: the block is first on the thread's own list of its size, whoever it came from. */
  lemma {:induction false} GiveDelivers(s: Sys, t: Thread, a: int)
    requires Inv(s) && Enabled(s, Give(t, a))
    ensures var s', st, n := Next(s, Give(t, a)), s.workers[t].state, s.blocks[a].size;
      && n % 8 == 0 && 8 <= n <= 256
      && s'.blocks == s.blocks[a := Block(n, On(st))]
      && ListReplaced(s, s', st, n / 8 - 1, [a] + ListOf(s, t, n / 8 - 1))
      && s' == s.(blocks := s'.blocks, lists := s'.lists)
  {
    hide Inv;
    assert ClassOf(s.blocks[a].size) == s.blocks[a].size / 8 - 1;
  }

  /** A list found empty: the thread goes for a chunk, and that is all. */
  lemma {:induction false} AskDelivers(s: Sys, t: Thread, c: nat)
    requires Inv(s) && Enabled(s, Ask(t, c))
    ensures Next(s, Ask(t, c)) == s.(workers := s.workers[t := Worker(s.workers[t].state, Asking(c))])
  {
    hide Inv;
  }

  /** How many blocks a chunk has: all the refill wants, or as many as the buffer has room for. */
  function Cuttable(left: nat, n: nat): nat
    requires n > 0
  {
    if 128 * n <= left then 128 else left / n
  }

  /** The items are new blocks of n bytes in the hands of t, one behind the other from `start` on; all
      other blocks are as they were. */
  ghost predicate CutOff(before: map<int, Block>, after: map<int, Block>, items: seq<int>, start: int, n: nat,
                         t: Thread) {
    && (forall i :: 0 <= i < |items| ==> items[i] == start + i * n)
    && (forall a :: a in after <==> a in before || a in items)
    && (forall a :: a in items ==> a !in before && a in after && after[a] == Block(n, Flight(t)))
    && (forall a :: a in before ==> a in after && after[a] == before[a])
  }

  /** The critical section that finds room: blocks are cut one behind the other from the start of the
      buffer, as many as fit, at most 128, and are in the hands of the thread. */
  lemma {:induction false} ServedDelivers(s: Sys, t: Thread, base: int)
    requires Inv(s) && Enabled(s, Chunk(t, base)) && s.end - s.start >= 8 * (s.workers[t].doing.cls + 1)
    ensures var s', c, w := Next(s, Chunk(t, base)), s.workers[t].doing.cls, s.workers[t];
      var n := 8 * (c + 1);
      var k := Cuttable(s.end - s.start, n);
      && 1 <= k <= 128 && (k < 128 ==> s.end - s.start - k * n < n)
      && t in s'.workers && s'.workers[t].doing.Got? && |s'.workers[t].doing.items| == k
      && s'.workers == s.workers[t := Worker(w.state, Got(c, s'.workers[t].doing.items))]
      && CutOff(s.blocks, s'.blocks, s'.workers[t].doing.items, s.start, n, t)
      && s' == s.(workers := s'.workers, blocks := s'.blocks, start := s.start + n * k)
  {
    var n, left := SizeOf(s.workers[t].doing.cls), s.end - s.start;
    Rooms(left, n);
    CutsOff(s.blocks, s.start, s.end, n, Count(left, n), t);
    hide Inv, AddCut, Cut, CutOff;
  }

  lemma {:induction false} CutsOff(blocks: map<int, Block>, start: int, end: int, n: nat, k: nat, t: Thread)
    requires Geometry(blocks, start, end) && n > 0 && n % ALIGN == 0 && n * k <= end - start
    ensures |Cut(start, n, k)| == k
    ensures CutOff(blocks, AddCut(blocks, start, n, k, Flight(t)), Cut(start, n, k), start, n, t)
  {
    CutPlaces(start, n, k);
    CutBlocks(blocks, start, n, k, Flight(t));
    CutKeeps(blocks, start, end, n, k, Flight(t));
    hide AddCut, Cut, Sum, Geometry;
  }

  lemma {:induction false} Rooms(left: nat, n: nat)
    requires 0 < n <= left
    ensures Count(left, n) == Cuttable(left, n) && 1 <= Count(left, n) <= 128 && n * Count(left, n) <= left
    ensures Count(left, n) < 128 ==> left - Count(left, n) * n < n
  {
    var q := left / n;
    Quotient(left, n);
    if left < 128 * n {
      if q >= 128 { Times(128, q, n); }
      if q <= 0 { Times(q, 0, n); }
    }
  }

  /** The critical section that finds too little: the rest of the buffer is first on the thread's own
      list of its size, and memory from the system, twice the request and a sixteenth of all obtained
      before, is the buffer; the thread will ask again. */
  lemma {:induction false} SupplyDelivers(s: Sys, t: Thread, base: int)
    requires Inv(s) && Enabled(s, Chunk(t, base)) && s.end - s.start < 8 * (s.workers[t].doing.cls + 1)
    ensures var s', c, st, left := Next(s, Chunk(t, base)), s.workers[t].doing.cls, s.workers[t].state, s.end - s.start;
      var bytes := 256 * (8 * (c + 1)) + (s.heapSize + 7) / 8 * 8;
      && s'.start == base && s'.end == base + bytes && s'.obtained == s.obtained + bytes
      && s'.heapSize == s.heapSize + bytes / 16
      && (if left > 0 then
            && left % 8 == 0 && s'.blocks == s.blocks[s.start := Block(left, On(st))]
            && ListReplaced(s, s', st, left / 8 - 1, [s.start] + ListOf(s, t, left / 8 - 1))
          else s'.blocks == s.blocks && s'.lists == s.lists)
      && s'.workers == s.workers && s'.parked == s.parked && s'.made == s.made
  {
    var left := s.end - s.start;
    LeftIsSize(s.blocks, s.start, s.end, SizeOf(s.workers[t].doing.cls));
    hide Inv;
    if left > 0 { assert ClassOf(left) == left / 8 - 1; }
  }

  /** The first item is held, the others are on the list of the state; all other blocks are as they
      were. */
  ghost predicate Settled(before: map<int, Block>, after: map<int, Block>, items: seq<int>, n: nat, st: State) {
    && after.Keys == before.Keys && items != []
    && items[0] in after && after[items[0]] == Block(n, Held)
    && (forall k :: 1 <= k < |items| ==> items[k] in after && after[items[k]] == Block(n, On(st)))
    && (forall a :: a in before && a !in items ==> after[a] == before[a])
  }

  /** The end of a refill: the first block is the caller's, the others are the thread's list. */
  lemma {:induction false} FinishDelivers(s: Sys, t: Thread)
    requires Inv(s) && Enabled(s, Finish(t))
    ensures var s', items, c, st := Next(s, Finish(t)), s.workers[t].doing.items, s.workers[t].doing.cls,
      s.workers[t].state;
      && Settled(s.blocks, s'.blocks, items, 8 * (c + 1), st)
      && ListReplaced(s, s', st, c, items[1..])
      && s'.workers == s.workers[t := Worker(st, Idle)]
      && s' == s.(workers := s'.workers, blocks := s'.blocks, lists := s'.lists)
  {
    WorkerParts(s, t);
    var w := s.workers[t];
    SettlesItems(s.blocks, w.doing.items, SizeOf(w.doing.cls), t, w.state);
    hide Inv, Settled, HoldsAll, MoveAll, ListReplaced;
    FinishLists(s, t);
  }

  /** The list is overwritten, or was empty anyway. */
  lemma {:induction false} FinishLists(s: Sys, t: Thread)
    requires Enabled(s, Finish(t)) && ListOf(s, t, s.workers[t].doing.cls) == []
    ensures var s', w := Next(s, Finish(t)), s.workers[t];
      && ListReplaced(s, s', w.state, w.doing.cls, w.doing.items[1..])
      && s'.workers == s.workers[t := Worker(w.state, Idle)]
      && s'.blocks == MoveAll(MoveAll(s.blocks, w.doing.items[..1], Held), w.doing.items[1..], On(w.state))
      && s' == s.(workers := s'.workers, blocks := s'.blocks, lists := s'.lists)
  {
    hide MoveAll;
    var w := s.workers[t];
    if |w.doing.items| == 1 {
      assert w.doing.items[1..] == [];
      assert s.lists[w.state][w.doing.cls := []] == s.lists[w.state];
    }
  }

  lemma {:induction false} SettlesItems(blocks: map<int, Block>, items: seq<int>, n: nat, t: Thread, st: State)
    requires HoldsAll(items, n, Flight(t), blocks) && items != []
    ensures Settled(blocks, MoveAll(MoveAll(blocks, items[..1], Held), items[1..], On(st)), items, n, st)
  {
    assert forall k :: 1 <= k < |items| ==> items[k] == items[1..][k - 1] && items[k] != items[0];
    assert items[..1] == [items[0]];
    assert forall a :: a in items[1..] ==> a in items;
    assert items[0] !in items[1..];
  }

  /** A thread that starts gets the state parked last, with its lists as they are, or a new one with
      empty lists. */
  lemma {:induction false} AttachDelivers(s: Sys, t: Thread)
    requires Inv(s) && Enabled(s, Attach(t))
    ensures var s' := Next(s, Attach(t));
      if s.parked != [] then s' == s.(workers := s.workers[t := Worker(s.parked[0], Idle)], parked := s.parked[1..])
      else
        && s.made !in s.lists && s.made in s'.lists && s'.lists == s.lists[s.made := s'.lists[s.made]]
        && |s'.lists[s.made]| == 32 && (forall c :: 0 <= c < 32 ==> s'.lists[s.made][c] == [])
        && s' == s.(workers := s.workers[t := Worker(s.made, Idle)], made := s.made + 1, lists := s'.lists)
  {
  }

  /** A thread that ends parks its state in front of the others. */
  lemma {:induction false} DetachDelivers(s: Sys, t: Thread)
    requires Inv(s) && Enabled(s, Detach(t))
    ensures Next(s, Detach(t)) ==
      s.(workers := s.workers - {t}, parked := [s.workers[t].state] + s.parked)
  {
    hide Inv;
  }

  // ---------------------------------------------------------------- an allocation as a whole

  /** The thread is idle and holds one block more, of the size of the class; what was held before is
      held still. */
  ghost predicate Obtained(s: Sys, s': Sys, t: Thread, c: nat, a: int) {
    && c < CLASSES && t in s.workers && s'.workers == s.workers && s'.workers[t].doing.Idle?
    && a in s'.blocks && s'.blocks[a] == Block(8 * (c + 1), Held)
    && (a in s.blocks ==> !s.blocks[a].where.Held?)
    && (forall b :: b in s.blocks && s.blocks[b].where.Held? ==> b in s'.blocks && s'.blocks[b] == s.blocks[b])
    && (forall b :: b in s'.blocks && s'.blocks[b].where.Held? && b != a ==> b in s.blocks && s.blocks[b].where.Held?)
  }

  /** Run undisturbed, an allocation takes one step from the thread's own list, or goes for a chunk once
      or, after the system has been asked, twice; it ends with the block. */
  lemma {:induction false} AllocateDelivers(s: Sys, t: Thread, c: nat, base: int) returns (es: seq<Event>, a: int)
    requires Inv(s) && Working(s, t) && s.workers[t].doing.Idle? && c < CLASSES
    requires s.end - s.start < SizeOf(c) && s.heapSize >= 0 ==> Free(s, base, ChunkSize(s, c))
    ensures |es| <= 4 && RunEnabled(s, es) && Obtained(s, Run(s, es), t, c, a)
  {
    if ListOf(s, t, c) != [] {
      es, a := [Take(t, c)] + [], ListOf(s, t, c)[0];
      TakeDelivers(s, t, c);
      hide Inv;
      RunOne(s, Take(t, c), []);
    } else {
      AskDelivers(s, t, c);
      AskKeeps(s, t, c);
      var s1 := Next(s, Ask(t, c));
      WorkerParts(s1, t);
      Room(s, t);
      hide Inv;
      es, a := ChunksDeliver(s1, t, base);
      BackToIdle(s, s1, t);
      hide Enabled, Next, Obtained;
      RunOne(s, Ask(t, c), es);
      es := [Ask(t, c)] + es;
    }
  }

  lemma {:induction false} BackToIdle(s: Sys, s1: Sys, t: Thread)
    requires Working(s, t) && s.workers[t].doing.Idle?
    requires t in s1.workers && s1 == s.(workers := s.workers[t := Worker(s.workers[t].state, s1.workers[t].doing)])
    ensures s1.(workers := s1.workers[t := Worker(s1.workers[t].state, Idle)]) == s
  {
    assert s.workers[t] == Worker(s.workers[t].state, Idle);
  }

  /** The thread as it was before it asked. */
  function Rested(s: Sys, t: Thread): Sys
    requires t in s.workers
  {
    s.(workers := s.workers[t := Worker(s.workers[t].state, Idle)])
  }

  lemma {:induction false} ChunksDeliver(s: Sys, t: Thread, base: int) returns (es: seq<Event>, a: int)
    requires Inv(s) && Working(s, t) && s.workers[t].doing.Asking? && s.workers[t].doing.cls < CLASSES
    requires s.heapSize >= 0 && s.end >= s.start
    requires s.end - s.start < SizeOf(s.workers[t].doing.cls) ==> Free(s, base, ChunkSize(s, s.workers[t].doing.cls))
    ensures |es| <= 3 && RunEnabled(s, es) && Obtained(Rested(s, t), Run(s, es), t, s.workers[t].doing.cls, a)
  {
    if s.end - s.start >= SizeOf(s.workers[t].doing.cls) {
      es, a := RefillDelivers(s, t, base);
    } else {
      assert Enabled(s, Chunk(t, base));
      SupplyKeeps(s, t, base);
      SupplyDelivers(s, t, base);
      var s2 := Next(s, Chunk(t, base));
      WorkerParts(s2, t);
      hide Inv;
      es, a := RefillDelivers(s2, t, base);
      SupplyHoldsNothing(s, s2, t, Run(s2, es), s.workers[t].doing.cls, a);
      hide Enabled, Next, Obtained;
      RunOne(s, Chunk(t, base), es);
      es := [Chunk(t, base)] + es;
    }
  }

  lemma {:induction false} SupplyHoldsNothing(s: Sys, s2: Sys, t: Thread, s': Sys, c: nat, a: int)
    requires t in s.workers && s2.workers == s.workers && Obtained(Rested(s2, t), s', t, c, a)
    requires s2.blocks == s.blocks || (s.start !in s.blocks && s.start in s2.blocks && s2.blocks[s.start].where.On?
                                       && s2.blocks == s.blocks[s.start := s2.blocks[s.start]])
    ensures Obtained(Rested(s, t), s', t, c, a)
  {
  }

  lemma {:induction false} Room(s: Sys, t: Thread)
    requires Inv(s)
    ensures s.heapSize >= 0 && s.start <= s.end
  {
  }

  lemma {:induction false} RunOne(s: Sys, e: Event, es: seq<Event>)
    requires Enabled(s, e) && RunEnabled(Next(s, e), es)
    ensures RunEnabled(s, [e] + es) && Run(s, [e] + es) == Run(Next(s, e), es)
  {
    assert ([e] + es)[1..] == es;
  }

  /** With room in the buffer the refill goes through. */
  lemma {:induction false} RefillDelivers(s: Sys, t: Thread, base: int) returns (es: seq<Event>, a: int)
    requires Inv(s) && Working(s, t) && s.workers[t].doing.Asking? && s.workers[t].doing.cls < CLASSES
    requires s.end - s.start >= SizeOf(s.workers[t].doing.cls)
    ensures |es| == 2 && RunEnabled(s, es)
    ensures Obtained(Rested(s, t), Run(s, es), t, s.workers[t].doing.cls, a)
  {
    CanBeServed(s, t, base);
    ServedKeeps(s, t, base);
    var s1 := Next(s, Chunk(t, base));
    a := CutForMe(s, s1, t, base);
    CanFinish(s1, t);
    hide Inv, Enabled, Next, Obtained, CutOff;
    FinishesObtained(s, s1, t, a);
    RunOne(s1, Finish(t), []);
    RunOne(s, Chunk(t, base), [Finish(t)]);
    es := [Chunk(t, base)] + [Finish(t)];
  }

  lemma {:induction false} CanBeServed(s: Sys, t: Thread, base: int)
    requires Inv(s) && Working(s, t) && s.workers[t].doing.Asking? && s.workers[t].doing.cls < CLASSES
    requires s.end - s.start >= SizeOf(s.workers[t].doing.cls)
    ensures Enabled(s, Chunk(t, base))
  {
    Room(s, t);
    hide Inv;
  }

  lemma {:induction false} SettledSome(s: Sys, t: Thread)
    requires Enabled(s, Finish(t))
    ensures s.workers[t].doing.items != []
  {
  }

  lemma {:induction false} FinishesObtained(s: Sys, s1: Sys, t: Thread, a: int)
    requires t in s.workers && s.workers[t].doing.Asking? && s.workers[t].doing.cls < CLASSES
    requires Inv(s1) && Enabled(s1, Finish(t)) && a == s1.workers[t].doing.items[0]
    requires s1.workers
      == s.workers[t := Worker(s.workers[t].state, Got(s.workers[t].doing.cls, s1.workers[t].doing.items))]
    requires CutOff(s.blocks, s1.blocks, s1.workers[t].doing.items, s.start, 8 * (s.workers[t].doing.cls + 1), t)
    ensures Obtained(Rested(s, t), Next(s1, Finish(t)), t, s.workers[t].doing.cls, a)
  {
    hide Inv, Enabled, Next, Obtained, CutOff, Settled, ListReplaced, Rested, SizeOf;
    FinishDelivers(s1, t);
    assert s1.workers[t].doing.items != [] by { SettledSome(s1, t); }
    HandsOver(s, s1, Next(s1, Finish(t)), t, s.workers[t].doing.cls, s1.workers[t].doing.items);
  }

  lemma {:induction false} CutForMe(s: Sys, s1: Sys, t: Thread, base: int) returns (a: int)
    requires Inv(s) && Enabled(s, Chunk(t, base)) && s.end - s.start >= SizeOf(s.workers[t].doing.cls)
    requires s1 == Next(s, Chunk(t, base)) && Inv(s1)
    ensures Working(s1, t) && s1.workers[t].doing.Got? && s1.workers[t].doing.items != []
    ensures a == s1.workers[t].doing.items[0]
    ensures s1.workers
      == s.workers[t := Worker(s.workers[t].state, Got(s.workers[t].doing.cls, s1.workers[t].doing.items))]
    ensures CutOff(s.blocks, s1.blocks, s1.workers[t].doing.items, s.start, 8 * (s.workers[t].doing.cls + 1), t)
  {
    ServedDelivers(s, t, base);
    WorkerParts(s1, t);
    hide Inv, Next, CutOff;
    a := s1.workers[t].doing.items[0];
  }

  /** Blocks cut off and then settled are one block more for the thread. */
  lemma {:induction false} HandsOver(s: Sys, s1: Sys, s': Sys, t: Thread, c: nat, items: seq<int>)
    requires t in s.workers && c < CLASSES && items != []
    requires s1.workers == s.workers[t := Worker(s.workers[t].state, Got(c, items))]
    requires s'.workers == s1.workers[t := Worker(s.workers[t].state, Idle)]
    requires CutOff(s.blocks, s1.blocks, items, s.start, 8 * (c + 1), t)
    requires Settled(s1.blocks, s'.blocks, items, 8 * (c + 1), s.workers[t].state)
    ensures Obtained(Rested(s, t), s', t, c, items[0])
  {
    hide CutOff, Settled;
    OneHeld(s.blocks, s1.blocks, s'.blocks, items, s.start, 8 * (c + 1), t, s.workers[t].state);
    SetTwice(s.workers, t, Worker(s.workers[t].state, Got(c, items)), Worker(s.workers[t].state, Idle));
    hide Obtained;
    ThatIsObtained(Rested(s, t), s', t, c, items[0]);
  }

  lemma {:induction false} SetTwice(m: map<Thread, Worker>, t: Thread, v: Worker, w: Worker)
    ensures m[t := v][t := w] == m[t := w]
  {
  }

  lemma {:induction false} CanFinish(s: Sys, t: Thread)
    requires Inv(s) && Working(s, t) && s.workers[t].doing.Got? && s.workers[t].doing.items != []
    ensures Enabled(s, Finish(t))
  {
    WorkerParts(s, t);
    hide Inv;
  }

  lemma {:induction false} ThatIsObtained(s: Sys, s': Sys, t: Thread, c: nat, a: int)
    requires c < CLASSES && t in s.workers && s'.workers == s.workers && s.workers[t].doing.Idle?
    requires a !in s.blocks && a in s'.blocks && s'.blocks[a] == Block(8 * (c + 1), Held)
    requires forall b :: b in s.blocks && s.blocks[b].where.Held? ==> b in s'.blocks && s'.blocks[b] == s.blocks[b]
    requires forall b :: b in s'.blocks && s'.blocks[b].where.Held? && b != a ==>
      b in s.blocks && s.blocks[b].where.Held?
    ensures Obtained(s, s', t, c, a)
  {
  }

  /** Of new blocks in flight one is held in the end. */
  lemma {:induction false} OneHeld(before: map<int, Block>, cut: map<int, Block>, after: map<int, Block>,
                                   items: seq<int>, start: int, n: nat, t: Thread, st: State)
    requires items != [] && CutOff(before, cut, items, start, n, t) && Settled(cut, after, items, n, st)
    ensures items[0] !in before && items[0] in after && after[items[0]] == Block(n, Held)
    ensures forall b :: b in before && before[b].where.Held? ==> b in after && after[b] == before[b]
    ensures forall b :: b in after && after[b].where.Held? && b != items[0] ==> b in before && before[b].where.Held?
  {
    forall b | b in items && b != items[0] ensures b in after && !after[b].where.Held? {
      var k :| 0 <= k < |items| && items[k] == b;
    }
  }
}
