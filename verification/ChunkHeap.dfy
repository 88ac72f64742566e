/** The chunk manager itself: slot records on skip lists and on the waiting list, memory written byte
    range by byte range, counters.  Every operation is proved to do what its function in ChunkModel
    says; ChunkInvariant, ChunkOperations and ChunkRuns speak about those functions. */
module ChunkHeaps {
  import opened Basics
  import SkipLists
  import SlotLists
  import opened ChunkModel
  import opened ChunkInvariant
  import opened ChunkContents
  import opened ChunkOperations
  import ChunkChecks

  type Record = SkipLists.Slot

  // ---------------------------------------------------------------- lists of records as addresses

  function Addrs(nodes: seq<Record>): seq<int>
  {
    seq(|nodes|, i requires 0 <= i < |nodes| => nodes[i].mem)
  }

  /** The slots behind the head of a skip list. */
  function Listed(nodes: seq<Record>): seq<int>
  {
    if nodes == [] then [] else Addrs(nodes[1..])
  }

  /** A listed record and the slot it stands for agree. */
  ghost predicate Agree(nodes: seq<Record>, from: nat, info: map<int, Slot>) {
    forall i :: from <= i < |nodes| ==> nodes[i].mem in info && info[nodes[i].mem].total == nodes[i].total
  }

  /** The used list holds exactly the slots that are not free. */
  ghost predicate ListsUsed(used: seq<Record>, info: map<int, Slot>) {
    && (forall i :: 1 <= i < |used| ==> used[i].mem in info && !info[used[i].mem].kind.Free?)
    && (forall a :: a in info && !info[a].kind.Free? ==> exists i :: 1 <= i < |used| && used[i].mem == a)
  }

  ghost predicate Coupled(used: seq<Record>, free: seq<Record>, wait: seq<Record>, info: map<int, Slot>) {
    && used != [] && free != []
    && Agree(used, 1, info) && Agree(free, 1, info) && Agree(wait, 0, info)
    && ListsUsed(used, info)
  }

  lemma {:induction false} AgreeUpdate(nodes: seq<Record>, from: nat, info: map<int, Slot>, a: int, s: Slot)
    requires Agree(nodes, from, info) && (a in info ==> s.total == info[a].total)
    ensures Agree(nodes, from, info[a := s])
  {
  }

  lemma {:induction false} AgreeInserted(nodes: seq<Record>, from: nat, info: map<int, Slot>, p: nat, x: Record)
    requires Agree(nodes, from, info) && from <= p <= |nodes| && x.mem in info && info[x.mem].total == x.total
    ensures Agree(SkipLists.Inserted(nodes, p, x), from, info)
  {
    SkipLists.InsertedAt(nodes, p, x);
  }

  lemma {:induction false} AgreeRemoved(nodes: seq<Record>, from: nat, info: map<int, Slot>, p: nat)
    requires Agree(nodes, from, info) && from <= p < |nodes|
    ensures Agree(SkipLists.Removed(nodes, p), from, info)
  {
    var after := SkipLists.Removed(nodes, p);
    assert forall k :: 0 <= k < |after| ==> after[k] == nodes[if k < p then k else k + 1];
  }

  /** A slot that was not listed as used becomes so. */
  lemma {:induction false} UsedInserted(used: seq<Record>, info: map<int, Slot>, p: nat, x: Record, s: Slot)
    requires ListsUsed(used, info) && 1 <= p <= |used| && !s.kind.Free?
    ensures ListsUsed(SkipLists.Inserted(used, p, x), info[x.mem := s])
  {
    var after, info' := SkipLists.Inserted(used, p, x), info[x.mem := s];
    SkipLists.InsertedAt(used, p, x);
    forall a | a in info' && !info'[a].kind.Free? ensures exists i :: 1 <= i < |after| && after[i].mem == a {
      if a == x.mem {
        assert after[p].mem == a;
      } else {
        var i :| 1 <= i < |used| && used[i].mem == a;
        assert after[if i < p then i else i + 1].mem == a;
      }
    }
  }

  lemma {:induction false} UsedRemoved(used: seq<Record>, info: map<int, Slot>, p: nat, s: Slot)
    requires ListsUsed(used, info) && 1 <= p < |used| && s.kind.Free?
    requires forall i :: 1 <= i < |used| && i != p ==> used[i].mem != used[p].mem
    ensures ListsUsed(SkipLists.Removed(used, p), info[used[p].mem := s])
  {
    var after, x := SkipLists.Removed(used, p), used[p].mem;
    var info' := info[x := s];
    assert forall k :: 0 <= k < |after| ==> after[k] == used[if k < p then k else k + 1];
    forall a | a in info' && !info'[a].kind.Free? ensures exists i :: 1 <= i < |after| && after[i].mem == a {
      var i :| 1 <= i < |used| && used[i].mem == a;
      assert after[if i < p then i else i - 1].mem == a;
    }
  }

  /** A free slot that is not on the used list changes. */
  lemma {:induction false} UsedElsewhere(used: seq<Record>, info: map<int, Slot>, a: int, s: Slot)
    requires ListsUsed(used, info) && (a in info ==> info[a].kind.Free?) && s.kind.Free?
    ensures ListsUsed(used, info[a := s])
  {
    var info' := info[a := s];
    forall b | b in info' && !info'[b].kind.Free? ensures exists i :: 1 <= i < |used| && used[i].mem == b {
      assert b in info && !info[b].kind.Free?;
    }
  }

  /** A used slot changes and stays used. */
  lemma {:induction false} UsedInPlace(used: seq<Record>, info: map<int, Slot>, a: int, s: Slot)
    requires ListsUsed(used, info) && a in info && !info[a].kind.Free? && !s.kind.Free?
    ensures ListsUsed(used, info[a := s])
  {
    var info' := info[a := s];
    forall b | b in info' && !info'[b].kind.Free? ensures exists i :: 1 <= i < |used| && used[i].mem == b {
      assert b in info && !info[b].kind.Free?;
    }
  }

  /** Searching the free skip list by size is searching the free addresses by size. */
  lemma {:induction false} SameSizePos(nodes: seq<Record>, info: map<int, Slot>, size: nat, i: nat)
    requires 1 <= i <= |nodes| && Agree(nodes, 1, info)
    decreases |nodes| - i
    ensures |Listed(nodes)| == |nodes| - 1
    ensures SizePos(Listed(nodes), info, size, i - 1) == SkipLists.CutOf(nodes, SkipLists.Size(size), i) - 1
  {
    if i < |nodes| {
      assert Listed(nodes)[i - 1] == nodes[i].mem;
      SameSizePos(nodes, info, size, i + 1);
    }
  }

  lemma {:induction false} ListedInserted(nodes: seq<Record>, p: nat, x: Record)
    requires 1 <= p <= |nodes|
    ensures Listed(SkipLists.Inserted(nodes, p, x)) == Listed(nodes)[..p - 1] + [x.mem] + Listed(nodes)[p - 1..]
  {
    var a, b := Listed(SkipLists.Inserted(nodes, p, x)), Listed(nodes)[..p - 1] + [x.mem] + Listed(nodes)[p - 1..];
    SkipLists.InsertedAt(nodes, p, x);
    assert |a| == |b|;
    forall k | 0 <= k < |a| ensures a[k] == b[k] {
      assert a[k] == SkipLists.Inserted(nodes, p, x)[k + 1].mem;
    }
  }

  lemma {:induction false} ListedRemoved(nodes: seq<Record>, p: nat)
    requires 1 <= p < |nodes|
    ensures Listed(SkipLists.Removed(nodes, p)) == Listed(nodes)[..p - 1] + Listed(nodes)[p..]
  {
    var a, b := Listed(SkipLists.Removed(nodes, p)), Listed(nodes)[..p - 1] + Listed(nodes)[p..];
    assert |a| == |b|;
    forall k | 0 <= k < |a| ensures a[k] == b[k] {
      assert a[k] == SkipLists.Removed(nodes, p)[k + 1].mem;
    }
  }

  /** A slot apart from all others fits between the records of the used list. */
  lemma {:induction false} RecordsApart(used: seq<Record>, info: map<int, Slot>, x: Record)
    requires Agree(used, 1, info) && x.total > 0
    requires forall b :: b in info && b != x.mem ==> Apart(b, info[b].total, x.mem, x.total)
    ensures SlotLists.FitsBetween(used, x)
  {
    forall i | 1 <= i < |used|
      ensures used[i].mem == x.mem || used[i].mem + used[i].total <= x.mem || x.mem + x.total <= used[i].mem
    {
      assert used[i].mem in info;
    }
  }

  lemma {:induction false} ExactScan(used: seq<Record>, info: map<int, Slot>, a: int)
    requires used != [] && ListsUsed(used, info)
    ensures SkipLists.Scan(used, 1, SkipLists.Exact(a)) == null <==> !(a in info && !info[a].kind.Free?)
  {
    SkipLists.ScanMissesNone(used, 1, SkipLists.Exact(a));
    if a in info && !info[a].kind.Free? {
      var i :| 1 <= i < |used| && used[i].mem == a;
      assert SkipLists.Matches(used[i], SkipLists.Exact(a));
    }
  }

  function Objects(nodes: seq<Record>): set<Record>
  {
    set n | n in nodes
  }

  lemma {:induction false} ObjectsInserted(nodes: seq<Record>, p: nat, x: Record)
    requires p <= |nodes|
    ensures Objects(SkipLists.Inserted(nodes, p, x)) == Objects(nodes) + {x}
  {
    var after := SkipLists.Inserted(nodes, p, x);
    SkipLists.InsertedAt(nodes, p, x);
    assert nodes == nodes[..p] + nodes[p..];
    assert forall n :: n in after <==> n == x || n in nodes;
  }

  lemma {:induction false} ObjectsRemoved(nodes: seq<Record>, p: nat)
    requires p < |nodes|
    ensures Objects(SkipLists.Removed(nodes, p)) <= Objects(nodes) && nodes[p] in Objects(nodes)
  {
  }

  lemma {:induction false} ObjectsPlus(nodes: seq<Record>, x: Record)
    ensures Objects(nodes + [x]) == Objects(nodes) + {x}
  {
  }

  /** A new used slot. */
  lemma {:induction false} CoupledNewUsed(used: seq<Record>, free: seq<Record>, wait: seq<Record>, info: map<int, Slot>,
                                          p: nat, x: Record, s: Slot)
    requires Coupled(used, free, wait, info) && 1 <= p <= |used|
    requires x.mem in info ==> info[x.mem].total == s.total
    requires !s.kind.Free? && s.total == x.total
    ensures Coupled(SkipLists.Inserted(used, p, x), free, wait, info[x.mem := s])
  {
    var a, info' := x.mem, info[x.mem := s];
    UsedInserted(used, info, p, x, s);
    AgreeUpdate(used, 1, info, a, s);
    AgreeUpdate(free, 1, info, a, s);
    AgreeUpdate(wait, 0, info, a, s);
    AgreeInserted(used, 1, info', p, x);
    SkipLists.InsertedAt(used, p, x);
  }

  /** The size of the slot that a search by size passed last; 0 for the head of the list. */
  function LeftOfSearch(h: Heap, size: nat): nat
  {
    var p := SizePos(h.free, h.slots, size, 0);
    if p > 0 then Total(h, h.free[p - 1]) else 0
  }

  // ---------------------------------------------------------------- the manager

  class ChunkHeap {
    const lists: SlotLists.Lists
    var mem: seq<Byte>
    var info: map<int, Slot>
    var spare: map<nat, nat>
    var grants: seq<Grant>
    var levels: seq<nat>
    var iter: nat
    var limit: nat
    var current: int
    var given: int
    var pointers: int
    var freeBytes: int
    var userBlocks: nat
    var adminBlocks: nat
    var errno: Errno
    var corrupt: bool

    /** The state the functions of ChunkModel speak about. */
    ghost function View(): Heap
      reads this, lists, lists.free
    {
      Heap(mem, info, Listed(lists.free.nodes), Addrs(lists.wait), spare, grants, levels, iter, limit,
           current, given, pointers, freeBytes, userBlocks, adminBlocks, errno, corrupt)
    }

    ghost predicate Valid()
      reads this, lists, lists.used, lists.free, lists.used.nodes, lists.free.nodes, lists.wait
    {
      && lists.Valid()
      && Coupled(lists.used.nodes, lists.free.nodes, lists.wait, info)
    }

    /** The objects an operation may change. */
    ghost function Repr(): set<object>
      reads lists, lists.used, lists.free
      ensures this in Repr()
    {
      {this, lists, lists.used, lists.free}
        + Objects(lists.used.nodes) + Objects(lists.free.nodes) + Objects(lists.wait)
    }

    constructor (mem: seq<Byte>, grants: seq<Grant>, levels: seq<nat>, limit: nat)
      ensures Valid()
      ensures View() == Heap(mem, map[], [], [], map[], grants, levels, 0, limit, 0, 0, 0, 0, 0, 0, NoError, false)
    {
      lists := new SlotLists.Lists();
      this.mem, this.grants, this.levels, this.limit := mem, grants, levels, limit;
      info, spare, iter, current, given, pointers, freeBytes := map[], map[], 0, 0, 0, 0, 0;
      userBlocks, adminBlocks, errno, corrupt := 0, 0, NoError, false;
    }

    method Fail(e: Errno)
      requires Valid()
      modifies this
      ensures Valid() && View() == Error(old(View()), e) && Repr() == old(Repr())
    {
      hide Coupled, Listed, SlotLists.Lists.Valid, Addrs, Repr;
      errno := e;
      corrupt := corrupt || e == AddressList;
    }

    method AllocHeap(size: nat) returns (r: Option<int>)
      requires Valid()
      modifies this
      ensures Valid() && (View(), r) == HeapAlloc(old(View()), size) && Repr() == old(Repr())
    {
      hide Coupled, Listed, SlotLists.Lists.Valid, Addrs, Repr;
      if grants == [] || grants[0].size < size {
        if grants != [] {
          grants := grants[1..];
        }
        Fail(AllocFailed);
        r := None;
      } else {
        r := Some(grants[0].base);
        grants := grants[1..];
      }
    }

    /** A record of a slot that is not used goes on the used list. */
    method ListUsed(x: Record, s: Slot) returns (ok: bool)
      requires Valid() && lists.Loose(x) && x.total == s.total > 0 && !s.kind.Free?
      requires x.mem in info ==> info[x.mem].kind.Free? && info[x.mem].total == s.total
      requires forall b :: b in info && b != x.mem ==> Apart(b, info[b].total, x.mem, x.total)
      modifies Repr(), x
      ensures ok && Valid() && View() == old(View()).(slots := old(info)[x.mem := s])
      ensures Repr() == old(Repr()) + {x}
    {
      hide SkipLists.Inserted, SkipLists.CutOf, SkipLists.Scan, Coupled, Apart, Listed, Addrs, SlotLists.FitsBetween;
      hide SlotLists.Lists.Valid;
      ghost var used := lists.used.nodes;
      CoupledParts(used, lists.free.nodes, lists.wait, info);
      ExactScan(used, info, x.mem);
      RecordsApart(used, info, x);
      ghost var p := SkipLists.CutOf(used, SkipLists.Exact(x.mem), 1);
      CoupledNewUsed(used, lists.free.nodes, lists.wait, info, p, x, s);
      ObjectsInserted(used, p, x);
      ok := lists.AddUsed(x);
      info := info[x.mem := s];
    }

    /** A fresh record for new memory goes on the used list. */
    method ListAsUsed(a: int, s: Slot, level: nat) returns (ok: bool)
      requires Valid() && level + 1 < SkipLists.MAX_SKIP_LEVEL
      requires s.total > 0 && !s.kind.Free?
      requires a !in info && forall b :: b in info ==> Apart(b, info[b].total, a, s.total)
      modifies Repr()
      ensures ok && Valid() && View() == old(View()).(slots := old(info)[a := s])
      ensures forall o :: o in Repr() && old(allocated(o)) ==> o in old(Repr())
    {
      var x := new SkipLists.Slot(a, s.total, level);
      assert lists.Loose(x);
      hide Coupled, Apart, Listed, Addrs, SlotLists.Lists.Valid, Repr, SlotLists.Lists.Loose;
      ok := ListUsed(x, s);
    }

    lemma {:induction false} CoupledParts(used: seq<Record>, free: seq<Record>, wait: seq<Record>, info: map<int, Slot>)
      requires Coupled(used, free, wait, info)
      ensures used != [] && free != [] && Agree(used, 1, info) && Agree(free, 1, info) && Agree(wait, 0, info)
      ensures ListsUsed(used, info)
    {
    }

    /** alloc_slots, and the record of the new block itself. */
    method GetRecords(level: nat) returns (ok: bool)
      requires Valid() && InvBut(View(), {}) && level + 1 < SkipLists.MAX_SKIP_LEVEL
      modifies Repr()
      ensures Valid() && (View(), ok) == NewRecords(old(View()), level)
      ensures forall o :: o in Repr() && old(allocated(o)) ==> o in old(Repr())
    {
      hide InvBut, ListsOk, Coupled, Listed, Addrs, SlotLists.Lists.Valid, Repr;
      HeapAllocKeeps(View(), BLOCK, {});
      var r := AllocHeap(BLOCK);
      if r.None? {
        return false;
      }
      RecordsFit(level);
      FreshIsNew(View(), r.value, {}, Grant(r.value + BLOCK, 1));
      FreshApart(View(), r.value, BLOCK);
      ok := ListAsUsed(r.value, ADMIN_SLOT, level);
      adminBlocks := adminBlocks + 1;
      spare := spare[level := RecordsPerBlock(level) - 2];
    }

    lemma {:induction false} FreshApart(h: Heap, a: int, n: nat)
      requires Fresh(h, a, n)
      ensures forall b :: b in h.slots ==> Apart(b, h.slots[b].total, a, n)
    {
    }

    method NextLevel() returns (level: nat)
      requires Valid() && InvBut(View(), {}) && LevelsOk(View())
      modifies this
      ensures Valid() && InvBut(View(), {}) && LevelsOk(View()) && Repr() == old(Repr())
      ensures level + 1 < SkipLists.MAX_SKIP_LEVEL && level == if old(levels) == [] then 0 else old(levels)[0]
      ensures View() == old(View()).(levels := if old(levels) == [] then [] else old(levels)[1..])
    {
      hide InvBut, Coupled, Listed, Addrs, SlotLists.Lists.Valid, Repr;
      LevelTaken(View());
      level := if levels == [] then 0 else levels[0];
      levels := if levels == [] then [] else levels[1..];
    }

    lemma {:induction false} LevelTaken(h: Heap)
      requires InvBut(h, {}) && LevelsOk(h)
      ensures var h' := h.(levels := if h.levels == [] then [] else h.levels[1..]);
        InvBut(h', {}) && LevelsOk(h')
    {
      hide InvBut;
      SameCoreKeeps(h, h.(levels := if h.levels == [] then [] else h.levels[1..]), {});
    }

    /** get_slot: the level of a record to use. */
    method TakeRecord() returns (ok: bool, level: nat)
      requires Valid() && InvBut(View(), {}) && LevelsOk(View())
      modifies Repr()
      ensures Valid() && (View(), ok) == GetSlot(old(View())) && level + 1 < SkipLists.MAX_SKIP_LEVEL
      ensures forall o :: o in Repr() && old(allocated(o)) ==> o in old(Repr())
    {
      hide InvBut, LevelsOk, Coupled, Listed, Addrs, SlotLists.Lists.Valid, Repr, NewRecords;
      level := NextLevel();
      if level in spare && spare[level] > 0 {
        spare := spare[level := spare[level] - 1];
        ok := true;
      } else {
        ok := GetRecords(level);
      }
    }

    /** A fresh record for new memory goes on the free list. */
    method ListAsFree(a: int, s: Slot, level: nat)
      requires Valid() && level + 1 < SkipLists.MAX_SKIP_LEVEL
      requires s.total > 0 && s.kind.Free? && a !in info
      modifies Repr()
      ensures Valid() && View() == InsertFree(old(View()).(slots := old(info)[a := s]), a)
      ensures forall o :: o in Repr() && old(allocated(o)) ==> o in old(Repr())
    {
      hide SkipLists.Inserted, SkipLists.CutOf, Coupled, Listed, Addrs, SlotLists.Lists.Valid;
      var x := new SkipLists.Slot(a, s.total, level);
      ghost var free := lists.free.nodes;
      CoupledParts(lists.used.nodes, free, lists.wait, info);
      ghost var p := SkipLists.CutOf(free, SkipLists.Size(s.total), 1);
      CoupledNewFree(lists.used.nodes, free, lists.wait, info, p, x, s);
      NewFreeView(free, info[a := s], p, x);
      ObjectsInserted(free, p, x);
      lists.AddFree(x);
      info := info[a := s];
    }

    /** insert_address on the free list. */
    method InsertFreeAddress(a: int, total: nat, ghost n: nat) returns (ok: bool)
      requires Valid() && InvBut(View(), {}) && LevelsOk(View())
      requires Fresh(View(), a, n) && total <= n && InPlace(|View().mem|, a, total)
      modifies Repr()
      ensures Valid() && (View(), ok) == InsertAddress(old(View()), a, Kind.Free, total)
      ensures forall o :: o in Repr() && old(allocated(o)) ==> o in old(Repr())
    {
      hide InvBut, LevelsOk, Coupled, Listed, Addrs, SlotLists.Lists.Valid, Repr, GetSlot, InsertFree, Fresh, InPlace;
      ghost var h0 := View();
      RecordTaken(h0, a, total, n);
      var level;
      ok, level := TakeRecord();
      if ok {
        ListAsFree(a, NewSlot(Kind.Free, total), level);
      }
    }

    /** insert_address on the used list. */
    method InsertUsedAddress(a: int, total: nat) returns (ok: bool)
      requires Valid() && InvBut(View(), {}) && LevelsOk(View())
      requires Fresh(View(), a, total) && InPlace(|View().mem|, a, total)
      modifies Repr()
      ensures Valid() && (View(), ok) == InsertAddress(old(View()), a, User, total)
      ensures forall o :: o in Repr() && old(allocated(o)) ==> o in old(Repr())
    {
      hide InvBut, LevelsOk, Coupled, Listed, Addrs, SlotLists.Lists.Valid, Repr, GetSlot, Fresh, InPlace, Apart;
      ghost var h0 := View();
      RecordTaken(h0, a, total, total);
      var level;
      ok, level := TakeRecord();
      if ok {
        ok := ListAsUsed(a, NewSlot(User, total), level);
      }
    }

    lemma {:induction false} RecordTaken(h: Heap, a: int, total: nat, n: nat)
      requires InvBut(h, {}) && LevelsOk(h) && Fresh(h, a, n) && total <= n && InPlace(|h.mem|, a, total)
      ensures total > 0
      ensures var (h1, ok) := GetSlot(h);
        ok ==> a !in h1.slots && forall b :: b in h1.slots ==> Apart(b, h1.slots[b].total, a, total)
    {
      hide InvBut, Fresh;
      TotalsPositive(|h.mem|, a, total);
      GetSlotKeeps(h, {}, Grant(a, n));
      var h1 := GetSlot(h).0;
      OutOfNowhere(h1, a, n);
      FreshPart(h1, a, n, a, total);
      FreshApart(h1, a, total);
    }

    /** The loop of create_divided_chunks. */
    method CutUp(base: int, div: nat) returns (ok: bool)
      requires Valid() && InvBut(View(), {}) && LevelsOk(View()) && ChunkSize(div)
      requires BLOCK <= base && base % 16 == 0 && base + BLOCK <= |View().mem| && Fresh(View(), base, BLOCK)
      modifies Repr()
      ensures Valid() && (View(), ok) == MakeChunks(old(View()), base, base + BLOCK - div, div)
      ensures forall o :: o in Repr() && old(allocated(o)) ==> o in old(Repr())
    {
      hide InvBut, LevelsOk, Coupled, Listed, Addrs, SlotLists.Lists.Valid, Repr, Fresh, InPlace, InsertAddress;
      hide ChunkSize, Steps;
      ChunksFillBlock(div);
      var at, last := base, base + BLOCK - div;
      ghost var h0 := View();
      while at <= last
        invariant Valid() && InvBut(View(), {}) && LevelsOk(View())
        invariant BLOCK <= base <= at && at % 16 == 0 && at <= last + div <= |View().mem|
        invariant Steps(last + div - at, div) && Fresh(View(), at, last + div - at)
        invariant MakeChunks(h0, base, last, div) == MakeChunks(View(), at, last, div)
        invariant forall o :: o in Repr() && old(allocated(o)) ==> o in old(Repr())
        decreases last - at
      {
        ghost var h := View();
        CutStep(h, at, last, div);
        var more := InsertFreeAddress(at, div, last + div - at);
        if !more {
          return false;
        }
        freeBytes := freeBytes + div;
        at := at + div;
      }
      return true;
    }

    lemma {:induction false} CutStep(h: Heap, at: int, last: int, div: nat)
      requires InvBut(h, {}) && LevelsOk(h) && ChunkSize(div) && at % 16 == 0 && BLOCK <= at <= last
      requires last + div <= |h.mem| && Steps(last + div - at, div) && Fresh(h, at, last + div - at)
      ensures div > 0 && InPlace(|h.mem|, at, div) && div <= last + div - at
      ensures var (h1, ok) := InsertAddress(h, at, Kind.Free, div);
        var h2 := h1.(freeBytes := h1.freeBytes + div);
        && (!ok ==> MakeChunks(h, at, last, div) == (h1, false))
        && (ok ==>
              && MakeChunks(h, at, last, div) == MakeChunks(h2, at + div, last, div)
              && InvBut(h2, {}) && LevelsOk(h2) && |h2.mem| == |h.mem|
              && at + div <= last + div && (at + div) % 16 == 0
              && Steps(last - at, div) && Fresh(h2, at + div, last - at))
    {
      hide InvBut, LevelsOk, Fresh, InsertAddress;
      ChunksFillBlock(div);
      ChunkKeeps(h, at, last + div - at, div);
    }

    /** create_divided_chunks. */
    method CutBlock(div: nat) returns (ok: bool)
      requires Valid() && InvBut(View(), {}) && LevelsOk(View()) && ChunkSize(div)
      modifies Repr()
      ensures Valid() && div > 0 && (View(), ok) == CreateDivided(old(View()), div)
      ensures forall o :: o in Repr() && old(allocated(o)) ==> o in old(Repr())
    {
      hide InvBut, LevelsOk, Coupled, Listed, Addrs, SlotLists.Lists.Valid, Repr, Fresh, MakeChunks, ChunkSize;
      ChunksFillBlock(div);
      ghost var h0 := View();
      BlockToCut(h0);
      var r := AllocHeap(BLOCK);
      if r.None? {
        return false;
      }
      userBlocks := userBlocks + 1;
      ok := CutUp(r.value, div);
    }

    lemma {:induction false} BlockToCut(h: Heap)
      requires InvBut(h, {}) && LevelsOk(h)
      ensures var (h1, mem) := HeapAlloc(h, BLOCK);
        mem.Some? ==>
          var h2 := h1.(userBlocks := h1.userBlocks + 1);
          && InvBut(h2, {}) && LevelsOk(h2) && Fresh(h2, mem.value, BLOCK)
          && BLOCK <= mem.value && mem.value % 16 == 0 && mem.value + BLOCK <= |h2.mem|
    {
      HeapAllocKeeps(h, BLOCK, {});
      hide *;
      var (h1, mem) := HeapAlloc(h, BLOCK);
      LevelsPastGrant(h, BLOCK);
      if mem.Some? {
        BlocksCounted(h1, 1, mem.value, BLOCK);
        RegionAligned(|h.mem|, mem.value, BLOCK);
      }
    }

    lemma {:induction false} LevelsPastGrant(h: Heap, n: nat)
      requires LevelsOk(h)
      ensures LevelsOk(HeapAlloc(h, n).0) && |HeapAlloc(h, n).0.mem| == |h.mem|
    {
    }

    lemma {:induction false} RegionAligned(n: nat, a: int, size: nat)
      requires RegionOk(n, Grant(a, size))
      ensures BLOCK <= a && a % 16 == 0 && a + size <= n
    {
      assert a == 16 * (2048 * (a / BLOCK));
    }

    lemma {:induction false} BlocksCounted(h: Heap, n: nat, a: int, size: nat)
      requires InvBut(h, {}) && LevelsOk(h) && Fresh(h, a, size)
      ensures var h2 := h.(userBlocks := h.userBlocks + n);
        InvBut(h2, {}) && LevelsOk(h2) && Fresh(h2, a, size)
    {
    }

    /** The oldest waiting slot joins the free list. */
    method PromoteOne()
      requires Valid() && lists.waitHead != null
      modifies Repr()
      ensures Valid() && old(View()).wait != []
      ensures View() == InsertFree(old(View()).(wait := old(View()).wait[1..]), old(View()).wait[0])
      ensures forall o :: o in Repr() && old(allocated(o)) ==> o in old(Repr())
    {
      hide SkipLists.Inserted, SkipLists.CutOf, Coupled, Listed;
      ghost var free, wait := lists.free.nodes, lists.wait;
      assert wait != [];
      hide SlotLists.Lists.Valid;
      CoupledParts(lists.used.nodes, free, wait, info);
      ghost var p := SkipLists.CutOf(free, SkipLists.Size(wait[0].total), 1);
      CoupledPromoted(lists.used.nodes, free, wait, info, p);
      NewFreeView(free, info, p, wait[0]);
      ObjectsInserted(free, p, wait[0]);
      assert Objects(wait[1..]) <= Objects(wait);
      lists.PromoteHead();
    }

    lemma {:induction false} CoupledPromoted(used: seq<Record>, free: seq<Record>, wait: seq<Record>,
                                             info: map<int, Slot>, p: nat)
      requires Coupled(used, free, wait, info) && wait != [] && 1 <= p <= |free|
      ensures Coupled(used, SkipLists.Inserted(free, p, wait[0]), wait[1..], info)
      ensures wait[0].mem in info && info[wait[0].mem].total == wait[0].total
      ensures Addrs(wait[1..]) == Addrs(wait)[1..] && Addrs(wait)[0] == wait[0].mem
    {
      AgreeInserted(free, 1, info, p, wait[0]);
      SkipLists.InsertedAt(free, p, wait[0]);
    }

    /** The front of use_free_memory. */
    method PromoteRipe()
      requires Valid()
      modifies Repr()
      ensures Valid() && View() == Promote(old(View()))
      ensures forall o :: o in Repr() && old(allocated(o)) ==> o in old(Repr())
    {
      ghost var h0 := View();
      while true
        invariant Valid() && Promote(View()) == Promote(h0)
        invariant forall o :: o in Repr() && old(allocated(o)) ==> o in old(Repr())
        decreases |View().wait|
      {
        hide Coupled, Listed, Repr, InsertFree;
        assert lists.waitHead == null <==> View().wait == [];
        assert lists.waitHead != null ==> lists.waitHead.mem == View().wait[0];
        hide SlotLists.Lists.Valid, Addrs;
        if lists.waitHead == null {
          break;
        }
        WaitersKnown(lists.used.nodes, lists.free.nodes, lists.wait, info);
        if info[lists.waitHead.mem].useIter + REUSE_DELAY > iter {
          break;
        }
        PromoteOne();
      }
    }

    lemma {:induction false} WaitersKnown(used: seq<Record>, free: seq<Record>, wait: seq<Record>, info: map<int, Slot>)
      requires Coupled(used, free, wait, info)
      ensures forall a :: a in Addrs(wait) ==> a in info
    {
    }

    lemma {:induction false} FreeIsSorted()
      requires Valid()
      ensures SkipLists.SortedBySize(lists.free.nodes)
    {
    }

    /** find_free_size and remove_slot: the first free slot of exactly the size is unlinked. */
    method Unlink(size: nat) returns (x: SkipLists.Slot?, below: Record)
      requires Valid()
      modifies Repr()
      ensures Valid() && (x == null ==> View() == old(View()))
      ensures below.total == LeftOfSearch(old(View()), size)
      ensures var h := old(View()); var p := SizePos(h.free, h.slots, size, 0);
        && (x == null <==> p == |h.free| || Total(h, h.free[p]) != size)
        && (x != null ==>
              && lists.Loose(x) && x.mem == h.free[p] && x.mem in info && info[x.mem].total == x.total
              && View() == h.(free := h.free[..p] + h.free[p + 1..]))
      ensures Repr() <= old(Repr()) && (x != null ==> x in old(Repr()))
    {
      FreeIsSorted();
      hide SkipLists.Inserted, SkipLists.Removed, SkipLists.CutOf, SkipLists.Scan, Coupled, Listed;
      hide SlotLists.Lists.Valid, Addrs, SkipLists.SortedBySize;
      ghost var used, free, wait := lists.used.nodes, lists.free.nodes, lists.wait;
      CoupledParts(used, free, wait, info);
      ghost var p := SkipLists.CutOf(free, SkipLists.Size(size), 1);
      FreeSearch(View(), used, free, wait, size);
      HeadIsEmpty();
      x, below := lists.TakeFree(size);
      if x != null {
        CoupledUnlinked(used, free, wait, info, p);
        ObjectsRemoved(free, p);
      }
    }

    lemma {:induction false} HeadIsEmpty()
      requires Valid()
      ensures lists.free.nodes != [] && lists.free.nodes[0].total == 0
    {
    }

    /** The rest of use_free_memory: check, mark as used, list as used. */
    method TakeExact(size: nat) returns (r: Option<int>, below: Record)
      requires Valid() && InvBut(View(), {})
      modifies Repr()
      ensures Valid() && (View(), r) == ChunkModel.TakeFree(old(View()), size)
      ensures r.None? ==> below.total == LeftOfSearch(View(), size)
      ensures forall o :: o in Repr() && old(allocated(o)) ==> o in old(Repr())
    {
      hide Coupled, Listed, InvBut, SlotLists.Lists.Valid, SlotLists.Lists.Loose, Addrs, Repr, Apart;
      ghost var h0 := View();
      var x: SkipLists.Slot?;
      x, below := Unlink(size);
      if x == null {
        return None, below;
      }
      FreeIsFree(h0, SizePos(h0.free, h0.slots, size, 0));
      ApartFrom(h0, x.mem);
      if !info[x.mem].kind.Free? {
        assert false;
      }
      var s := info[x.mem].(kind := User, fence := false, valloc := false, blank := false);
      var ok := ListUsed(x, s);
      freeBytes := freeBytes - s.total;
      r := Some(x.mem);
    }

    /** use_free_memory. */
    method UseFreeMemory(size: nat) returns (r: Option<int>, below: Record)
      requires Valid() && InvBut(View(), {})
      modifies Repr()
      ensures Valid() && (View(), r) == UseFree(old(View()), size)
      ensures r.None? ==> below.total == LeftOfSearch(View(), size)
      ensures forall o :: o in Repr() && old(allocated(o)) ==> o in old(Repr())
    {
      hide Coupled, Listed, InvBut, SlotLists.Lists.Valid, Addrs, Repr, Promote, TakeFree;
      PromoteKeeps(View());
      PromoteRipe();
      r, below := TakeExact(size);
    }

    /** get_divided_memory: the bit_sizes search, then reuse, or a new block cut into chunks. */
    method GetDividedMemory(size: nat) returns (r: Option<int>)
      requires Valid() && InvBut(View(), {}) && LevelsOk(View()) && size <= BLOCK / 2
      modifies Repr()
      ensures Valid() && (View(), r) == GetDivided(old(View()), size)
      ensures forall o :: o in Repr() && old(allocated(o)) ==> o in old(Repr())
    {
      hide Coupled, Listed, InvBut, LevelsOk, SlotLists.Lists.Valid, Addrs, Repr, UseFree, CreateDivided, ChunkSize;
      var need: nat := SMALLEST_CHUNK;
      assert ChunkSize(need) by { SmallestIsChunk(); }
      while need < size
        invariant need > 0 && ChunkFor(size, need) == ChunkFor(size, SMALLEST_CHUNK)
        decreases size - need
      {
        need := 2 * need;
      }
      ChunkForFits(size, SMALLEST_CHUNK);
      ghost var h0 := View();
      UseFreeKeeps(h0, need);
      var below: Record;
      r, below := UseFreeMemory(need);
      if r.Some? {
        return;
      }
      ghost var h1 := View();
      CreateDividedKeeps(h1, need);
      var ok := CutBlock(need);
      if !ok {
        return None;
      }
      r, below := UseFreeMemory(need);
      if r.None? {
        Fail(AddressList);
      }
    }

    lemma {:induction false} SmallestIsChunk()
      ensures ChunkSize(SMALLEST_CHUNK)
    {
    }

    /** get_memory.  Its second look at the free list needs a slot of more than `size` bytes in front
        of the place where the first search ended; NoRetry shows that there is none. */
    method GetMemoryFor(size: nat) returns (r: Option<int>)
      requires Valid() && InvBut(View(), {}) && LevelsOk(View())
      modifies Repr()
      ensures Valid() && (View(), r) == GetMemory(old(View()), size)
      ensures forall o :: o in Repr() && old(allocated(o)) ==> o in old(Repr())
    {
      hide Coupled, Listed, InvBut, LevelsOk, SlotLists.Lists.Valid, Addrs, Repr, UseFree, GetDivided, RetryLarger;
      hide HeapAlloc, InsertAddress;
      if limit > 0 && given + size > limit {
        Fail(OverLimit);
        return None;
      }
      if size <= BLOCK / 2 {
        r := GetDividedMemory(size);
        return;
      }
      var need := BlocksFor(size) * BLOCK;
      UseFreeKeeps(View(), need);
      var below: Record;
      r, below := UseFreeMemory(need);
      if r.Some? {
        return;
      }
      ghost var h1 := View();
      if below.total > size {
        r, below := UseFreeMemory(need);
      }
      assert (View(), r) == RetryLarger(h1, size, need) by { SecondLook(h1, size, need); }
      if r.Some? {
        Fail(AddressList);
        return None;
      }
      NoRetry(h1, size);
      r := NewBlocks(size);
    }

    lemma {:induction false} SecondLook(h: Heap, size: nat, need: nat)
      ensures RetryLarger(h, size, need) == if LeftOfSearch(h, need) > size then UseFree(h, need) else (h, None)
    {
      hide UseFree;
    }

    /** The end of get_memory: whole new blocks from the system. */
    method NewBlocks(size: nat) returns (r: Option<int>)
      requires Valid() && InvBut(View(), {}) && LevelsOk(View()) && size > BLOCK / 2
      modifies Repr()
      ensures Valid()
      ensures var need := BlocksFor(size) * BLOCK;
        var (h1, mem) := HeapAlloc(old(View()), need);
        if mem.None? then (View(), r) == (h1, None)
        else
          var (h2, ok) := InsertAddress(h1.(userBlocks := h1.userBlocks + BlocksFor(size)), mem.value, User, need);
          (View(), r) == (h2, if ok then mem else None)
      ensures forall o :: o in Repr() && old(allocated(o)) ==> o in old(Repr())
    {
      hide Coupled, Listed, InvBut, LevelsOk, SlotLists.Lists.Valid, Addrs, Repr, Fresh, InPlace, InsertAddress;
      var need := BlocksFor(size) * BLOCK;
      BlocksToUse(View(), size);
      r := AllocHeap(need);
      if r.Some? {
        userBlocks := userBlocks + BlocksFor(size);
        var ok := InsertUsedAddress(r.value, need);
        if !ok {
          r := None;
        }
      }
    }

    lemma {:induction false} BlocksToUse(h: Heap, size: nat)
      requires InvBut(h, {}) && LevelsOk(h) && size > BLOCK / 2
      ensures var need := BlocksFor(size) * BLOCK;
        var (h1, mem) := HeapAlloc(h, need);
        mem.Some? ==>
          var h2 := h1.(userBlocks := h1.userBlocks + BlocksFor(size));
          InvBut(h2, {}) && LevelsOk(h2) && Fresh(h2, mem.value, need) && InPlace(|h2.mem|, mem.value, need)
    {
      var need := BlocksFor(size) * BLOCK;
      HeapAllocKeeps(h, need, {});
      hide InvBut, LevelsOk, Fresh, InPlace, HeapAlloc, RegionOk, BlocksFor;
      var (h1, mem) := HeapAlloc(h, need);
      LevelsPastGrant(h, need);
      if mem.Some? {
        BlocksCounted(h1, BlocksFor(size), mem.value, need);
        BigBlocks(|h.mem|, mem.value, size);
      }
    }

    /** memset / memcpy into the address space. */
    method Put(at: int, bytes: seq<Byte>)
      requires Valid() && 0 <= at && at + |bytes| <= |mem|
      modifies this
      ensures Valid() && View() == old(View()).(mem := Written(old(mem), at, bytes)) && Repr() == old(Repr())
      ensures |mem| == |old(mem)|
    {
      mem := Written(mem, at, bytes);
    }

    /** memset of a range that is not empty. */
    method Fill(at: int, num: nat, b: Byte)
      requires Valid() && 0 <= at && at + num <= |mem|
      modifies this
      ensures Valid() && View() == old(View()).(mem := mem) && Repr() == old(Repr())
      ensures |mem| == |old(mem)| && mem == Written(old(mem), at, seq(num, _ => b))
      ensures FilledBytewise(true, old(mem), at, num, b, mem)
    {
      hide Coupled, Listed, SlotLists.Lists.Valid, Addrs, Repr;
      WrittenBytes(mem, at, seq(num, _ => b));
      Put(at, seq(num, _ => b));
    }

    /** clear_alloc, range by range. */
    method ClearAlloc(a: int, s: Slot, kept: nat, zero: bool)
      requires Valid() && Inside(mem, a, s) && Fits(s)
      modifies this
      ensures Valid() && View() == old(View()).(mem := Cleared(old(mem), a, s, kept, zero)) && Repr() == old(Repr())
    {
      hide Coupled, Listed, SlotLists.Lists.Valid, Addrs, Repr, Written, Fits, FilledBytewise, FencedBytewise, Cleared;
      FitsBounds(a, s);
      var i := InfoOf(a, s);
      hide InfoOf;
      ghost var m0 := mem;
      ClearOutside(a, i.fenceBottom - a, s.fence && s.blank);
      ghost var m1 := mem;
      ClearUser(i.userStart + kept, i.userBounds - (i.userStart + kept), s.blank, zero);
      ghost var m2 := mem;
      WriteFences(s.fence, i.fenceBottom, i.fenceTop);
      ghost var m3 := mem;
      var start := if s.fence then i.fenceTop + TOP else i.userBounds;
      ClearOutside(start, i.allocBounds - start, s.blank);
      ClearedInSteps(m0, m1, m2, m3, mem, a, s, kept, zero);
    }

    /** Blanks a range outside the user area, if there is one to blank. */
    method ClearOutside(at: int, num: int, blank: bool)
      requires Valid() && (blank && num > 0 ==> 0 <= at && at + num <= |mem|)
      modifies this
      ensures Valid() && View() == old(View()).(mem := mem) && Repr() == old(Repr())
      ensures |mem| == |old(mem)| && FilledBytewise(blank, old(mem), at, num, ALLOC_BLANK, mem)
    {
      hide Coupled, Listed, SlotLists.Lists.Valid, Addrs, Repr, Written, FilledBytewise;
      if num > 0 && blank {
        Fill(at, num, ALLOC_BLANK);
      } else {
        NothingFilled(blank, mem, at, num, ALLOC_BLANK);
      }
    }

    /** Zeroes or blanks the part of the user area that is not kept. */
    method ClearUser(at: int, num: int, blank: bool, zero: bool)
      requires Valid() && (num > 0 ==> 0 <= at && at + num <= |mem|)
      modifies this
      ensures Valid() && View() == old(View()).(mem := mem) && Repr() == old(Repr())
      ensures |mem| == |old(mem)|
        && FilledBytewise(zero || blank, old(mem), at, num, if zero then 0 else ALLOC_BLANK, mem)
    {
      hide Coupled, Listed, SlotLists.Lists.Valid, Addrs, Repr, Written, FilledBytewise;
      if num > 0 && zero {
        Fill(at, num, 0);
      } else if num > 0 && blank {
        Fill(at, num, ALLOC_BLANK);
      } else {
        NothingFilled(zero || blank, mem, at, num, if zero then 0 else ALLOC_BLANK);
      }
    }

    /** fence_write. */
    method WriteFences(fence: bool, bottom: int, top: int)
      requires Valid()
      requires fence ==> 0 <= bottom && bottom + BOTTOM <= |mem| && 0 <= top && top + TOP <= |mem|
      modifies this
      ensures Valid() && View() == old(View()).(mem := mem) && Repr() == old(Repr())
      ensures |mem| == |old(mem)| && FencedBytewise(fence, old(mem), bottom, top, mem)
    {
      hide Coupled, Listed, SlotLists.Lists.Valid, Addrs, Repr, Written, FencedBytewise;
      if fence {
        FencedBytes(mem, bottom, top);
        Put(bottom, FENCE_BOTTOM);
        Put(top, FENCE_TOP);
      } else {
        NotFenced(mem, bottom, top);
      }
    }

    /** A used slot is rewritten in place. */
    method Rewrite(a: int, s: Slot)
      requires Valid() && a in info && !info[a].kind.Free? && !s.kind.Free? && s.total == info[a].total
      modifies this
      ensures Valid() && View() == old(View()).(slots := old(info)[a := s]) && Repr() == old(Repr())
    {
      hide Coupled, Listed, SlotLists.Lists.Valid, Addrs, Repr;
      CoupledInPlace(lists.used.nodes, lists.free.nodes, lists.wait, info, a, s);
      info := info[a := s];
    }

    /** The counters of the bytes and pointers that the program holds. */
    method Account(user: int, total: int, pointer: int)
      requires Valid()
      modifies this
      ensures Valid() && Repr() == old(Repr()) && mem == old(mem) && info == old(info)
      ensures View() == old(View()).(current := old(current) + user, given := old(given) + total,
                                     pointers := old(pointers) + pointer)
    {
      hide Coupled, Listed, SlotLists.Lists.Valid, Addrs, Repr;
      current, given, pointers := current + user, given + total, pointers + pointer;
    }

    /** The part of _dmalloc_chunk_malloc after it got memory. */
    method HandOut(flags: Flags, size: nat, func: Func, valloc: bool, a: int) returns (r: Option<int>)
      requires Valid() && a in info && info[a].kind.User?
      requires var s := SetUp(info[a], flags, size, valloc, iter); Fits(s) && Inside(mem, a, s)
      modifies this
      ensures Valid() && (View(), r) == Hand(old(View()), flags, size, func, valloc, a) && Repr() == old(Repr())
    {
      hide Coupled, Listed, SlotLists.Lists.Valid, Addrs, Repr, Fits, Cleared, InfoOf, Inside;
      var s := SetUp(info[a], flags, size, valloc, iter);
      assert s.total == info[a].total && s.kind == info[a].kind;
      hide SetUp;
      Rewrite(a, s);
      ClearAlloc(a, s, 0, Zeroes(func));
      Account(size, s.total, 1);
      r := Some(InfoOf(a, s).userStart);
    }

    /** _dmalloc_chunk_malloc. */
    method Malloc(flags: Flags, size: nat, func: Func, alignment: nat) returns (r: Option<int>)
      requires Valid() && Inv(View()) && LevelsOk(View())
      modifies Repr()
      ensures Valid() && (View(), r) == ChunkMalloc(old(View()), flags, size, func, alignment)
      ensures forall o :: o in Repr() && old(allocated(o)) ==> o in old(Repr())
    {
      hide Coupled, Listed, InvBut, LevelsOk, SlotLists.Lists.Valid, Addrs, Repr, GetMemory, Hand, NeededSize, Fits;
      if size > LARGEST_ALLOCATION {
        Fail(TooBig);
        return None;
      }
      var valloc := IsValloc(func, alignment);
      ghost var h := View();
      FoundFits(h, flags, size, valloc);
      var got := GetMemoryFor(NeededSize(flags, size, valloc));
      if got.None? {
        return None;
      }
      r := HandOut(flags, size, func, valloc, got.value);
    }

    /** The slot on the used list that holds an address. */
    method FindHolder(p: int) returns (x: SkipLists.Slot?, update: seq<SkipLists.Slot>, ghost c: nat)
      requires Valid() && Inv(View())
      ensures x == null <==> FindUsed(View(), p).None?
      ensures x != null ==>
        && FindUsed(View(), p) == Some(x.mem) && x.mem in info && Holds(View(), x.mem, p)
        && x.total == info[x.mem].total
        && 1 <= c < |lists.used.nodes| && x == lists.used.nodes[c] && SkipLists.Path(lists.used.nodes, c, update)
      ensures x != null ==> !info[x.mem].kind.Free?
    {
      hide Coupled, Listed, InvBut, SlotLists.Lists.Valid, Addrs, Repr, SkipLists.Path, SkipLists.Scan, FindUsed;
      ghost var used := lists.used.nodes;
      CoupledParts(used, lists.free.nodes, lists.wait, info);
      x, update, c := lists.FindUsed(p);
      LooseScan(View(), used, p);
    }

    /** The search of the waiting list, from its head along the next pointers. */
    method SearchWaiting(p: int) returns (w: Option<int>)
      requires Valid()
      ensures w == FindWaiting(View(), p, 0) && (w.Some? ==> w.value in info)
    {
      hide Coupled, Listed;
      WaitersKnown(lists.used.nodes, lists.free.nodes, lists.wait, info);
      var d := lists.waitHead;
      ghost var i: nat := 0;
      while d != null
        invariant i <= |lists.wait| && d == (if i < |lists.wait| then lists.wait[i] else null)
        invariant FindWaiting(View(), p, 0) == FindWaiting(View(), p, i)
        decreases |lists.wait| - i
      {
        assert d.mem == View().wait[i];
        if d.mem <= p < d.mem + info[d.mem].total {
          return Some(d.mem);
        }
        d := d.next[0];
        i := i + 1;
      }
      return None;
    }

    /** What free says about a pointer that no used slot holds. */
    method BlameUnused(p: int, onFreeList: bool) returns (e: Errno)
      requires Valid()
      ensures e == NotUsedError(View(), p, onFreeList)
    {
      hide Coupled, Listed, SlotLists.Lists.Valid, Addrs, FindWaiting;
      var w := SearchWaiting(p);
      if w.Some? {
        return if InfoOf(w.value, info[w.value]).userStart == p then AlreadyFree else NotFound;
      }
      return if onFreeList then AlreadyFree else NotFound;
    }

    /** remove_slot on the used list, and the flags of a freed slot. */
    method DropSlot(x: SkipLists.Slot, update: seq<SkipLists.Slot>, s: Slot, ghost c: nat)
      requires Valid() && 1 <= c < |lists.used.nodes| && lists.used.nodes[c] == x
      requires SkipLists.Path(lists.used.nodes, c, update)
      requires s.kind.Free? && s.total == x.total
      modifies Repr()
      ensures Valid() && lists.Loose(x) && x.mem in info && View() == old(View()).(slots := old(info)[x.mem := s])
      ensures Repr() <= old(Repr()) && x in old(Repr()) && x.mem in old(info)
    {
      UsedIsSorted();
      hide Coupled, Listed, SlotLists.Lists.Valid, Addrs, SkipLists.Path, SkipLists.Removed;
      hide SkipLists.SortedByAddress, Objects, SlotLists.Lists.Loose;
      ghost var used, free, wait, was := lists.used.nodes, lists.free.nodes, lists.wait, info;
      CoupledDropped(used, free, wait, was, c, s);
      ObjectsRemoved(used, c);
      info := info[x.mem := s];
      var ok := lists.DropUsed(x, update, c);
      assert Coupled(lists.used.nodes, lists.free.nodes, lists.wait, info);
    }

    lemma {:induction false} UsedIsSorted()
      requires Valid()
      ensures SkipLists.SortedByAddress(lists.used.nodes)
    {
    }

    /** A freed slot waits for its reuse. */
    method AwaitReuse(x: SkipLists.Slot)
      requires Valid() && lists.Loose(x) && x.mem in info && info[x.mem].total == x.total
      modifies Repr(), x
      ensures Valid() && View() == old(View()).(wait := old(View()).wait + [x.mem])
      ensures Repr() == old(Repr()) + {x}
    {
      hide Coupled, Listed, SlotLists.Lists.Valid;
      CoupledWaiting(lists.used.nodes, lists.free.nodes, lists.wait, info, x);
      ObjectsPlus(lists.wait, x);
      lists.PushWaiting(x);
    }

    /** The part of _dmalloc_chunk_free after the checks. */
    method ReleaseSlot(x: SkipLists.Slot, update: seq<SkipLists.Slot>, flags: Flags, ghost c: nat)
      requires Valid() && 1 <= c < |lists.used.nodes| && lists.used.nodes[c] == x
      requires SkipLists.Path(lists.used.nodes, c, update)
      requires x.mem in info && x.total == info[x.mem].total && Inside(mem, x.mem, info[x.mem])
      modifies Repr()
      ensures Valid() && old(x.mem in info) && View() == Release(old(View()), flags, x.mem)
      ensures forall o :: o in Repr() && old(allocated(o)) ==> o in old(Repr())
    {
      hide Coupled, Listed, SlotLists.Lists.Valid, Addrs, Repr, SkipLists.Path, SlotLists.Lists.Loose, Written;
      var was := info[x.mem];
      var s := ReleasedSlot(was, flags, iter);
      DropSlot(x, update, s, c);
      Account(0 - was.user, 0 - was.total, -1);
      BlankFreed(x.mem, s);
      if !flags.neverReuse {
        AwaitReuse(x);
      }
    }

    /** The bytes of a freed slot are free again, and blanked if its flag says so. */
    method BlankFreed(a: int, s: Slot)
      requires Valid() && Inside(mem, a, s)
      modifies this
      ensures Valid() && Repr() == old(Repr()) && info == old(info)
      ensures View() == old(View()).(freeBytes := old(freeBytes) + s.total,
        mem := if s.blank then Filled(old(mem), a, s.total, FREE_BLANK) else old(mem))
    {
      hide Coupled, Listed, SlotLists.Lists.Valid, Addrs, Repr, Written;
      freeBytes := freeBytes + s.total;
      if s.blank {
        Fill(a, s.total, FREE_BLANK);
      }
    }

    /** _dmalloc_chunk_free. */
    method Free(flags: Flags, p: int, onFreeList: bool) returns (ok: bool)
      requires Valid() && Inv(View())
      modifies Repr()
      ensures Valid() && (View(), ok) == ChunkFree(old(View()), flags, p, onFreeList)
      ensures forall o :: o in Repr() && old(allocated(o)) ==> o in old(Repr())
    {
      hide Coupled, Listed, InvBut, SlotLists.Lists.Valid, Addrs, Repr, SkipLists.Path, FindUsed, UsedSlotError;
      hide Release, NotUsedError, Holds, Fits, Inside;
      if p == 0 {
        if flags.errorFreeNull {
          Fail(IsNull);
        }
        return false;
      }
      var x, update, c := FindHolder(p);
      if x == null {
        var e := BlameUnused(p, onFreeList);
        Fail(e);
        return false;
      }
      UsedFits(View(), x.mem);
      var e := ChunkChecks.CheckUsedSlot(mem, iter, x.mem, info[x.mem], p);
      if e != NoError {
        Fail(e);
        return false;
      }
      ReleaseSlot(x, update, flags, c);
      return true;
    }

    /** realloc where the new size fits the old slot. */
    method Resize(a: int, flags: Flags, size: nat, func: Func) returns (r: Option<int>)
      requires Valid() && a in info && !info[a].kind.Free? && Inside(mem, a, info[a])
      requires Fits(info[a]) && !Moves(flags, a, info[a], size)
      modifies this
      ensures Valid() && (View(), r) == Resized(old(View()), flags, a, size, func) && Repr() == old(Repr())
    {
      hide Coupled, Listed, SlotLists.Lists.Valid, Addrs, Repr, Cleared;
      var was := info[a];
      var s := Blanked(was.(user := size), flags);
      ResizedFits(a, was, flags, size);
      hide Fits, Moves, InfoOf, Inside;
      Account(size - was.user, 0, 0);
      ClearAlloc(a, s, was.user, Zeroes(func));
      Rewrite(a, s.(useIter := iter, seen := was.seen + 2));
      r := Some(InfoOf(a, was).userStart);
    }

    /** memcpy of the kept bytes. */
    method CopyBytes(from: int, to: int, n: nat)
      requires Valid() && 0 <= from && from + n <= |mem| && 0 <= to && to + n <= |mem|
      modifies this
      ensures Valid() && Repr() == old(Repr())
      ensures View() == old(View()).(mem := Copied(old(mem), from, to, n))
    {
      hide Coupled, Listed, SlotLists.Lists.Valid, Addrs, Repr, Written;
      if n > 0 {
        Put(to, mem[from..from + n]);
      } else {
        assert Copied(mem, from, to, n) == mem by { WrittenBytes(mem, to, mem[from..from + n]); }
      }
    }

    /** realloc into a new slot: malloc, memcpy, free. */
    method Move(flags: Flags, p: int, a: int, size: nat, func: Func, onFreeList: bool) returns (r: Option<int>)
      requires Valid() && Inv(View()) && LevelsOk(View())
      requires a in info && info[a].kind.User? && Holds(View(), a, p)
      modifies Repr()
      ensures Valid()
      ensures a in old(info)
      ensures var was := old(info[a]); var from, n := InfoOf(a, was).userStart, Min(size, was.user);
        var (h1, q) := ChunkMalloc(old(View()), flags, size, func, 0);
        if q.None? then (View(), r) == (h1, None)
        else
          && 0 <= from && from + n <= |h1.mem| && 0 <= q.value && q.value + n <= |h1.mem|
          && var (h2, ok) := ChunkFree(h1.(mem := Copied(h1.mem, from, q.value, n)), flags, p, onFreeList);
             (View(), r) == (h2, if ok then q else None)
      ensures forall o :: o in Repr() && old(allocated(o)) ==> o in old(Repr())
    {
      hide Coupled, Listed, InvBut, LevelsOk, SlotLists.Lists.Valid, Addrs, Repr, ChunkMalloc, ChunkFree, Copied;
      hide Holds, InfoOf;
      var from, n := InfoOf(a, info[a]).userStart, Min(size, info[a].user);
      MovingIsSafe(View(), flags, p, a, size, func);
      r := Malloc(flags, size, func, 0);
      if r.Some? {
        CopyBytes(from, r.value, n);
        var ok := Free(flags, p, onFreeList);
        if !ok {
          r := None;
        }
      }
    }

    /** _dmalloc_chunk_realloc. */
    method Realloc(flags: Flags, p: int, size: nat, func: Func, onFreeList: bool) returns (r: Option<int>)
      requires Valid() && Inv(View()) && LevelsOk(View()) && !InAdminMemory(View(), p)
      modifies Repr()
      ensures Valid() && (View(), r) == ChunkRealloc(old(View()), flags, p, size, func, onFreeList)
      ensures forall o :: o in Repr() && old(allocated(o)) ==> o in old(Repr())
    {
      hide Coupled, Listed, InvBut, LevelsOk, SlotLists.Lists.Valid, Addrs, Repr, SkipLists.Path, FindUsed;
      hide ChunkMalloc, ChunkFree;
      hide Copied, Holds, InfoOf, Moves, Fits, Inside, InAdminMemory, Resized;
      if p == 0 {
        Fail(IsNull);
        return None;
      }
      var x, update, c := FindHolder(p);
      if x == null {
        Fail(NotFound);
        return None;
      }
      UsedFits(View(), x.mem);
      HolderIsUser(View(), p);
      if !Moves(flags, x.mem, info[x.mem], size) {
        r := Resize(x.mem, flags, size, func);
      } else {
        r := Move(flags, p, x.mem, size, func, onFreeList);
      }
    }

    /** Each call of the library counts one iteration. */
    method CountCall()
      requires Valid()
      modifies this
      ensures Valid() && View() == old(View()).(iter := old(iter) + 1) && Repr() == old(Repr())
    {
      hide Coupled, Listed, SlotLists.Lists.Valid, Addrs, Repr;
      iter := iter + 1;
    }

    lemma {:induction false} NewFreeView(free: seq<Record>, info: map<int, Slot>, p: nat, x: Record)
      requires free != [] && Agree(free, 1, info) && p == SkipLists.CutOf(free, SkipLists.Size(x.total), 1)
      requires x.mem in info && info[x.mem].total == x.total
      ensures var q := SizePos(Listed(free), info, x.total, 0);
        Listed(SkipLists.Inserted(free, p, x)) == Listed(free)[..q] + [x.mem] + Listed(free)[q..]
    {
      SameSizePos(free, info, x.total, 1);
      ListedInserted(free, p, x);
    }
  }

  /** A used slot changes and stays used. */
  lemma {:induction false} CoupledInPlace(used: seq<Record>, free: seq<Record>, wait: seq<Record>,
                                          info: map<int, Slot>, a: int, s: Slot)
    requires Coupled(used, free, wait, info)
    requires a in info && !info[a].kind.Free? && !s.kind.Free? && s.total == info[a].total
    ensures Coupled(used, free, wait, info[a := s])
  {
    UsedInPlace(used, info, a, s);
    AgreeUpdate(used, 1, info, a, s);
    AgreeUpdate(free, 1, info, a, s);
    AgreeUpdate(wait, 0, info, a, s);
  }

  lemma {:induction false} CoupledDropped(used: seq<Record>, free: seq<Record>, wait: seq<Record>,
                                          info: map<int, Slot>, c: nat, s: Slot)
    requires Coupled(used, free, wait, info) && SkipLists.SortedByAddress(used)
    requires 1 <= c < |used| && s.kind.Free? && s.total == used[c].total
    ensures Coupled(SkipLists.Removed(used, c), free, wait, info[used[c].mem := s])
    ensures used[c].mem in info && info[used[c].mem].total == used[c].total
  {
    var a := used[c].mem;
    UsedRemoved(used, info, c, s);
    AgreeUpdate(used, 1, info, a, s);
    AgreeUpdate(free, 1, info, a, s);
    AgreeUpdate(wait, 0, info, a, s);
    AgreeRemoved(used, 1, info[a := s], c);
  }

  lemma {:induction false} CoupledWaiting(used: seq<Record>, free: seq<Record>, wait: seq<Record>,
                                          info: map<int, Slot>, x: Record)
    requires Coupled(used, free, wait, info) && x.mem in info && info[x.mem].total == x.total
    ensures Coupled(used, free, wait + [x], info)
    ensures Addrs(wait + [x]) == Addrs(wait) + [x.mem]
  {
  }

  /** The loose search of the used records finds the used slot that holds the address. */
  lemma {:induction false} LooseScan(h: Heap, used: seq<Record>, p: int)
    requires Inv(h) && used != [] && Agree(used, 1, h.slots) && ListsUsed(used, h.slots)
    ensures var x := SkipLists.Scan(used, 1, SkipLists.Loose(p));
      && (x == null <==> FindUsed(h, p).None?)
      && (x != null ==> FindUsed(h, p) == Some(x.mem) && x.mem in h.slots && Holds(h, x.mem, p)
                        && x.total == h.slots[x.mem].total && !h.slots[x.mem].kind.Free?)
  {
    hide InvBut;
    var q := SkipLists.Loose(p);
    SkipLists.ScanMissesNone(used, 1, q);
    var x := SkipLists.Scan(used, 1, q);
    if x != null {
      ScanIsListed(used, 1, q);
      FindUsedIs(h, x.mem, p);
    } else {
      forall a | Used(h, a) ensures !Holds(h, a, p) {
        var i :| 1 <= i < |used| && used[i].mem == a;
        assert !SkipLists.Matches(used[i], q);
      }
    }
  }

  lemma {:induction false} ScanIsListed(nodes: seq<Record>, i: nat, q: SkipLists.Query)
    requires i <= |nodes| && SkipLists.Scan(nodes, i, q) != null
    decreases |nodes| - i
    ensures exists k :: i <= k < |nodes| && nodes[k] == SkipLists.Scan(nodes, i, q)
  {
    if !SkipLists.Matches(nodes[i], q) { ScanIsListed(nodes, i + 1, q); }
  }

  /** What get_memory finds has room for the request. */
  lemma {:induction false} FoundFits(h: Heap, flags: Flags, size: nat, valloc: bool)
    requires Inv(h) && LevelsOk(h) && size <= LARGEST_ALLOCATION
    ensures var (h1, got) := GetMemory(h, NeededSize(flags, size, valloc));
      got.Some? ==>
        && got.value in h1.slots && h1.slots[got.value].kind.User?
        && var s := SetUp(h1.slots[got.value], flags, size, valloc, h1.iter);
           Fits(s) && Inside(h1.mem, got.value, s)
  {
    hide InvBut, LevelsOk, GetMemory, NeededSize;
    var needed := NeededSize(flags, size, valloc);
    GetMemoryKeeps(h, needed);
    var (h1, got) := GetMemory(h, needed);
    if got.Some? {
      TotalIsSmallest(needed);
      SetUpFits(h1.slots[got.value], flags, size, valloc, h1.iter);
      SlotInPlace(h1, got.value, {got.value});
    }
  }

  /** A used slot lies in the address space, with its user area and fences inside it. */
  lemma {:induction false} UsedFits(h: Heap, a: int)
    requires Inv(h) && a in h.slots && !h.slots[a].kind.Free?
    ensures Fits(h.slots[a]) && Inside(h.mem, a, h.slots[a])
  {
    assert a in h.slots - {};
    assert InPlace(|h.mem|, a, h.slots[a].total);
  }

  lemma {:induction false} ResizedFits(a: int, was: Slot, flags: Flags, size: nat)
    requires Fits(was) && !Moves(flags, a, was, size)
    ensures Fits(Blanked(was.(user := size), flags)) && Blanked(was.(user := size), flags).total == was.total
  {
  }

  lemma {:induction false} MovingIsSafe(h: Heap, flags: Flags, p: int, a: int, size: nat, func: Func)
    requires Inv(h) && LevelsOk(h) && a in h.slots && h.slots[a].kind.User? && Holds(h, a, p)
    ensures var from, n := InfoOf(a, h.slots[a]).userStart, Min(size, h.slots[a].user);
      var (h1, q) := ChunkMalloc(h, flags, size, func, 0);
      && Inv(h1)
      && (q.Some? ==> 0 <= from && from + n <= |h1.mem| && 0 <= q.value && q.value + n <= |h1.mem|
                      && Inv(h1.(mem := Copied(h1.mem, from, q.value, n))))
  {
    hide InvBut, LevelsOk, ChunkMalloc, SlotGot, Copied, OthersKept, Fits, InPlace, OverwriteError;
    MallocKeeps(h, flags, size, func, 0);
    var (h1, q) := ChunkMalloc(h, flags, size, func, 0);
    if q.Some? {
      var b := SlotGot(h, flags, size, func, 0).value;
      OldSlotSurvives(h, h1, a, b, q.value, flags, size, func, 0);
      AreaInside(h, a);
      CopyKeeps(h1, b, InfoOf(a, h.slots[a]).userStart, q.value, Min(size, h.slots[a].user));
    }
  }

  /** A new free slot. */
  lemma {:induction false} CoupledNewFree(used: seq<Record>, free: seq<Record>, wait: seq<Record>, info: map<int, Slot>,
                                          p: nat, x: Record, s: Slot)
    requires Coupled(used, free, wait, info) && x.mem !in info && 1 <= p <= |free|
    requires s.kind.Free? && s.total == x.total
    ensures Coupled(used, SkipLists.Inserted(free, p, x), wait, info[x.mem := s])
    ensures Agree(free, 1, info[x.mem := s])
  {
    var a, info' := x.mem, info[x.mem := s];
    UsedElsewhere(used, info, a, s);
    AgreeUpdate(used, 1, info, a, s);
    AgreeUpdate(free, 1, info, a, s);
    AgreeUpdate(wait, 0, info, a, s);
    AgreeInserted(free, 1, info', p, x);
    SkipLists.InsertedAt(free, p, x);
  }

  /** What find_free_size returns, in terms of addresses. */
  lemma {:induction false} FreeSearch(h: Heap, used: seq<Record>, free: seq<Record>, wait: seq<Record>, size: nat)
    requires Coupled(used, free, wait, h.slots) && h.free == Listed(free)
    requires SkipLists.SortedBySize(free)
    ensures var p := SkipLists.CutOf(free, SkipLists.Size(size), 1);
      var x := SkipLists.Scan(free, 1, SkipLists.Size(size));
      && SizePos(h.free, h.slots, size, 0) == p - 1 && |h.free| == |free| - 1
      && (x == null <==> p == |free| || Total(h, h.free[p - 1]) != size)
      && (x != null ==> h.free[p - 1] == x.mem && x.mem in h.slots && h.slots[x.mem].total == x.total)
      && (free[0].total == 0 ==> free[p - 1].total == LeftOfSearch(h, size))
  {
    var q := SkipLists.Size(size);
    var p := SkipLists.CutOf(free, q, 1);
    SameSizePos(free, h.slots, size, 1);
    SkipLists.CutIsExact(free, q);
    SkipLists.ScanAtCut(free, q, p, 1);
    if p < |free| {
      assert Listed(free)[p - 1] == free[p].mem;
    }
    if p > 1 {
      assert Listed(free)[p - 2] == free[p - 1].mem;
    }
  }

  lemma {:induction false} CoupledUnlinked(used: seq<Record>, free: seq<Record>, wait: seq<Record>,
                                           info: map<int, Slot>, p: nat)
    requires Coupled(used, free, wait, info) && 1 <= p < |free|
    ensures Coupled(used, SkipLists.Removed(free, p), wait, info)
    ensures Listed(SkipLists.Removed(free, p)) == Listed(free)[..p - 1] + Listed(free)[p..]
  {
    AgreeRemoved(free, 1, info, p);
    ListedRemoved(free, p);
  }

  lemma {:induction false} FreeIsFree(h: Heap, i: nat)
    requires InvBut(h, {}) && i < |h.free|
    ensures h.free[i] in h.slots && h.slots[h.free[i]].kind.Free?
  {
  }

  lemma {:induction false} ApartFrom(h: Heap, a: int)
    requires InvBut(h, {}) && a in h.slots
    ensures h.slots[a].total > 0
    ensures forall b :: b in h.slots && b != a ==> Apart(b, h.slots[b].total, a, h.slots[a].total)
  {
    assert InPlace(|h.mem|, a, h.slots[a].total);
  }

  lemma {:induction false} FitsBounds(a: int, s: Slot)
    requires Fits(s)
    ensures var i := InfoOf(a, s);
      && a <= i.fenceBottom + BOTTOM <= i.userStart <= i.userBounds == i.fenceTop
      && i.userStart == i.fenceBottom + BOTTOM
      && (if s.fence then a <= i.fenceBottom && i.fenceTop + TOP <= i.allocBounds
          else a == i.userStart && i.userBounds <= i.allocBounds)
      && i.allocBounds == a + s.total
  {
  }

  lemma {:induction false} WrittenBytes(m: seq<Byte>, at: int, bytes: seq<Byte>)
    requires 0 <= at && at + |bytes| <= |m|
    ensures |Written(m, at, bytes)| == |m|
    ensures forall x :: 0 <= x < |m| ==>
      Written(m, at, bytes)[x] == if at <= x < at + |bytes| then bytes[x - at] else m[x]
  {
  }

  /** m' is m but for the bytes that were filled. */
  ghost predicate FilledBytewise(c: bool, m: seq<Byte>, at: int, num: int, b: Byte, m': seq<Byte>) {
    |m'| == |m| && forall x :: 0 <= x < |m| ==> m'[x] == if c && at <= x < at + num then b else m[x]
  }

  /** m' is m but for the two fences. */
  ghost predicate FencedBytewise(fence: bool, m: seq<Byte>, bottom: int, top: int, m': seq<Byte>) {
    |m'| == |m| && forall x :: 0 <= x < |m| ==> m'[x] == FencedByte(fence, m[x], bottom, top, x)
  }

  function FencedByte(fence: bool, was: Byte, bottom: int, top: int, x: int): Byte
  {
    if fence && top <= x < top + TOP then FENCE_TOP[x - top]
    else if fence && bottom <= x < bottom + BOTTOM then FENCE_BOTTOM[x - bottom]
    else was
  }

  lemma {:induction false} NothingFilled(c: bool, m: seq<Byte>, at: int, num: int, b: Byte)
    requires !c || num <= 0
    ensures FilledBytewise(c, m, at, num, b, m)
  {
  }

  lemma {:induction false} NotFenced(m: seq<Byte>, bottom: int, top: int)
    ensures FencedBytewise(false, m, bottom, top, m)
  {
  }

  lemma {:induction false} FencedBytes(m: seq<Byte>, bottom: int, top: int)
    requires 0 <= bottom && bottom + BOTTOM <= |m| && 0 <= top && top + TOP <= |m|
    ensures var m1 := Written(m, bottom, FENCE_BOTTOM);
      |m1| == |m| && FencedBytewise(true, m, bottom, top, Written(m1, top, FENCE_TOP))
  {
    WrittenBytes(m, bottom, FENCE_BOTTOM);
    WrittenBytes(Written(m, bottom, FENCE_BOTTOM), top, FENCE_TOP);
  }

  /** The ranges clear_alloc writes one after the other add up to what it is said to leave. */
  lemma {:induction false} ClearedInSteps(m0: seq<Byte>, m1: seq<Byte>, m2: seq<Byte>, m3: seq<Byte>, m4: seq<Byte>,
                                          a: int, s: Slot, kept: nat, zero: bool)
    requires Inside(m0, a, s) && Fits(s)
    requires var i := InfoOf(a, s);
      var start := if s.fence then i.fenceTop + TOP else i.userBounds;
      && FilledBytewise(s.fence && s.blank, m0, a, i.fenceBottom - a, ALLOC_BLANK, m1)
      && FilledBytewise(zero || s.blank, m1, i.userStart + kept, i.userBounds - (i.userStart + kept),
                        if zero then 0 else ALLOC_BLANK, m2)
      && FencedBytewise(s.fence, m2, i.fenceBottom, i.fenceTop, m3)
      && FilledBytewise(s.blank, m3, start, i.allocBounds - start, ALLOC_BLANK, m4)
    ensures m4 == Cleared(m0, a, s, kept, zero)
  {
    hide Fits, ClearedByte, InfoOf, Inside;
    forall x | 0 <= x < |m0| ensures m4[x] == ClearedByte(m0, a, s, kept, zero, x) {
      ByteInSteps(m0, a, s, kept, zero, x, m1[x], m2[x], m3[x]);
    }
    assert |Cleared(m0, a, s, kept, zero)| == |m4|;
  }

  lemma {:induction false} ByteInSteps(m: seq<Byte>, a: int, s: Slot, kept: nat, zero: bool, x: int,
                                       b1: Byte, b2: Byte, b3: Byte)
    requires Inside(m, a, s) && Fits(s) && 0 <= x < |m|
    requires var i := InfoOf(a, s);
      && b1 == (if s.fence && s.blank && a <= x < i.fenceBottom then ALLOC_BLANK else m[x])
      && b2 == (if (zero || s.blank) && i.userStart + kept <= x < i.userBounds
                then (if zero then 0 else ALLOC_BLANK) else b1)
      && b3 == (if s.fence && i.fenceTop <= x < i.fenceTop + TOP then FENCE_TOP[x - i.fenceTop]
                else if s.fence && i.fenceBottom <= x < i.fenceBottom + BOTTOM then FENCE_BOTTOM[x - i.fenceBottom]
                else b2)
    ensures var i := InfoOf(a, s);
      (if s.blank && (if s.fence then i.fenceTop + TOP else i.userBounds) <= x < i.allocBounds then ALLOC_BLANK else b3)
        == ClearedByte(m, a, s, kept, zero, x)
  {
  }
}
