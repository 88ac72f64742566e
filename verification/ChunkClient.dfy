/** A client program running on the manager: the steps of ChunkRuns, carried out. */
module ChunkClients {
  import opened ChunkModel
  import opened ChunkInvariant
  import opened ChunkOperations
  import opened ChunkRuns
  import opened ChunkHeaps

  lemma {:induction false} OneByte(mem: seq<Byte>, at: int, byte: Byte)
    requires 0 <= at < |mem|
    ensures Written(mem, at, [byte]) == mem[at := byte]
  {
  }

  /** One call, or one byte written by the client. */
  method Perform(heap: ChunkHeap, op: Op)
    requires heap.Valid() && Sound(heap.View()) && Legal(heap.View(), op)
    modifies heap.Repr()
    ensures heap.Valid() && heap.View() == Step(old(heap.View()), op) && Sound(heap.View())
    ensures forall o :: o in heap.Repr() && old(allocated(o)) ==> o in old(heap.Repr())
  {
    hide ChunkHeap.Valid, Listed, Addrs, ChunkHeap.Repr, ChunkMalloc, ChunkFree, ChunkRealloc, InvBut, LevelsOk;
    hide SeenUpTo;
    ghost var h := heap.View();
    StepKeeps(h, op);
    TickKeeps(h);
    match op
    case DoMalloc(flags, size, func, alignment) =>
      heap.CountCall();
      var r := heap.Malloc(flags, size, func, alignment);
    case DoFree(flags, p, onFreeList) =>
      heap.CountCall();
      var ok := heap.Free(flags, p, onFreeList);
    case DoRealloc(flags, p, size, func, onFreeList) =>
      AdminSame(h, Tick(h), p);
      heap.CountCall();
      var r := heap.Realloc(flags, p, size, func, onFreeList);
    case DoWrite(at, byte) =>
      if 0 <= at < |heap.mem| {
        OneByte(heap.mem, at, byte);
        heap.Put(at, [byte]);
      }
  }

  /** A whole run, from the sound heap it starts in to the heap the functions say it ends in. */
  method Execute(heap: ChunkHeap, ops: seq<Op>)
    requires heap.Valid() && Sound(heap.View()) && LegalRun(heap.View(), ops)
    modifies heap.Repr()
    ensures heap.Valid() && heap.View() == Run(old(heap.View()), ops) && Sound(heap.View())
  {
    hide ChunkHeap.Valid, ChunkHeap.View, ChunkHeap.Repr, Sound, Step, Legal;
    ghost var h := heap.View();
    var i := 0;
    assert ops[0..] == ops;
    while i < |ops|
      invariant 0 <= i <= |ops| && heap.Valid() && Sound(heap.View())
      invariant LegalRun(heap.View(), ops[i..]) && Run(heap.View(), ops[i..]) == Run(h, ops)
      invariant forall o :: o in heap.Repr() && old(allocated(o)) ==> o in old(heap.Repr())
    {
      assert ops[i..][1..] == ops[i + 1..];
      Perform(heap, ops[i]);
      i := i + 1;
    }
  }
}
