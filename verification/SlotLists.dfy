/** The lists a slot record can be on: the used and the free skip list, and the waiting list, which
    is threaded through the bottom next pointers of the slots it holds. */
module SlotLists {
  import opened SkipLists

  predicate Disjoint(s: seq<Slot>, t: seq<Slot>) {
    forall i, j :: 0 <= i < |s| && 0 <= j < |t| ==> s[i] != t[j]
  }

  /** Low enough for a removal to stay within the rows a search sets. */
  predicate LowEnough(s: seq<Slot>, from: nat) {
    forall i :: from <= i < |s| ==> s[i].level + 1 < MAX_SKIP_LEVEL
  }

  ghost predicate Threaded(wait: seq<Slot>)
    reads wait
  {
    forall i {:trigger wait[i].next} :: 0 <= i < |wait| ==>
      && |wait[i].next| == wait[i].level + 1
      && wait[i].next[0] == if i + 1 < |wait| then wait[i + 1] else null
  }

  /** Nothing on the address list overlaps x, except a slot that starts where x does. */
  predicate FitsBetween(nodes: seq<Slot>, x: Slot) {
    x.total > 0 && forall i :: 1 <= i < |nodes| ==>
      nodes[i].mem == x.mem || nodes[i].mem + nodes[i].total <= x.mem || x.mem + x.total <= nodes[i].mem
  }

  lemma {:induction false} InsertedApart(s: seq<Slot>, p: nat, x: Slot, t: seq<Slot>)
    requires p <= |s| && x !in t
    ensures Disjoint(s, t) ==> Disjoint(Inserted(s, p, x), t)
    ensures Disjoint(t, s) ==> Disjoint(t, Inserted(s, p, x))
    ensures Inserted(s, p, x) != []
  {
    InsertedAt(s, p, x);
  }

  lemma {:induction false} InsertedLow(s: seq<Slot>, p: nat, x: Slot)
    requires 1 <= p <= |s| && LowEnough(s, 1) && x.level + 1 < MAX_SKIP_LEVEL
    ensures LowEnough(Inserted(s, p, x), 1)
  {
    InsertedAt(s, p, x);
  }

  lemma {:induction false} RemovedApart(s: seq<Slot>, p: nat, t: seq<Slot>)
    requires 1 <= p < |s|
    ensures Disjoint(s, t) ==> Disjoint(Removed(s, p), t)
    ensures Disjoint(t, s) ==> Disjoint(t, Removed(s, p))
    ensures Removed(s, p) != [] && (LowEnough(s, 1) ==> LowEnough(Removed(s, p), 1))
    ensures Disjoint(s, t) ==> s[p] !in t
    ensures Disjoint(t, s) ==> s[p] !in t
  {
    assert forall k :: 0 <= k < |Removed(s, p)| ==> Removed(s, p)[k] == s[if k < p then k else k + 1];
  }

  class Lists {
    const used: SkipList
    const free: SkipList
    var waitHead: Slot?
    var waitTail: Slot?
    ghost var wait: seq<Slot>

    ghost predicate Apart()
      reads this, used, free
    {
      && used.nodes != [] && free.nodes != []
      && Disjoint(used.nodes, free.nodes) && Disjoint(used.nodes, wait) && Disjoint(free.nodes, wait)
      && Distinct(wait)
      && LowEnough(used.nodes, 1) && LowEnough(free.nodes, 1) && LowEnough(wait, 0)
    }

    ghost predicate Valid()
      reads this, used, free, used.nodes, free.nodes, wait
    {
      && used != free && !used.bySize && free.bySize && used.Valid() && free.Valid()
      && Apart()
      && Threaded(wait)
      && (wait == [] <==> waitHead == null)
      && (wait != [] ==> waitHead == wait[0] && waitTail == wait[|wait| - 1])
    }

    constructor ()
      ensures Valid() && used.nodes == [used.head] && free.nodes == [free.head] && wait == []
    {
      used := new SkipList(false);
      free := new SkipList(true);
      waitHead, waitTail, wait := null, null, [];
    }

    /** A slot record that is on none of the lists. */
    ghost predicate Loose(x: Slot)
      reads this, used, free, x
    {
      && x !in used.nodes && x !in free.nodes && x !in wait
      && |x.next| == x.level + 1 && x.level + 1 < MAX_SKIP_LEVEL
    }

    method AddFree(x: Slot)
      requires Valid() && Loose(x)
      modifies free, free.nodes, x
      ensures Valid()
      ensures free.nodes == Inserted(old(free.nodes), CutOf(old(free.nodes), Size(x.total), 1), x)
      ensures used.nodes == old(used.nodes) && wait == old(wait)
    {
      hide ListInvariant, Threaded, Distinct, LowEnough, Inserted, CutOf;
      InsertedApart(free.nodes, CutOf(free.nodes, Size(x.total), 1), x, used.nodes);
      InsertedApart(free.nodes, CutOf(free.nodes, Size(x.total), 1), x, wait);
      InsertedLow(free.nodes, CutOf(free.nodes, Size(x.total), 1), x);
      var ok := free.InsertSlot(x);
    }

    /** A new slot on the used list; refused when one starts at the same address. */
    method AddUsed(x: Slot) returns (ok: bool)
      requires Valid() && Loose(x) && FitsBetween(used.nodes, x)
      modifies used, used.nodes, x
      ensures Valid()
      ensures ok <==> old(Scan(used.nodes, 1, Exact(x.mem))) == null
      ensures !ok ==> used.nodes == old(used.nodes)
      ensures ok ==> used.nodes == Inserted(old(used.nodes), CutOf(old(used.nodes), Exact(x.mem), 1), x)
      ensures free.nodes == old(free.nodes) && wait == old(wait)
    {
      hide ListInvariant, Threaded, Distinct, LowEnough, Inserted, CutOf, Scan;
      InsertedApart(used.nodes, CutOf(used.nodes, Exact(x.mem), 1), x, free.nodes);
      InsertedApart(used.nodes, CutOf(used.nodes, Exact(x.mem), 1), x, wait);
      InsertedLow(used.nodes, CutOf(used.nodes, Exact(x.mem), 1), x);
      ok := used.InsertSlot(x);
    }

    /** The loose search of the used list, with the path a removal needs. */
    method FindUsed(p: int) returns (found: Slot?, update: seq<Slot>, ghost c: nat)
      requires Valid()
      ensures found == Scan(used.nodes, 1, SkipLists.Loose(p))
      ensures found != null ==> 1 <= c < |used.nodes| && found == used.nodes[c] && Path(used.nodes, c, update)
    {
      found, update, c := used.FindAddress(p, false);
    }

    /** Takes a slot found by the loose search off the used list. */
    method DropUsed(x: Slot, update: seq<Slot>, ghost c: nat) returns (ok: bool)
      requires Valid() && Path(used.nodes, c, update) && c < |used.nodes| && used.nodes[c] == x
      modifies used, used.nodes
      ensures ok && Valid() && Loose(x)
      ensures used.nodes == Removed(old(used.nodes), c)
      ensures free.nodes == old(free.nodes) && wait == old(wait)
    {
      hide ListInvariant, Threaded, Distinct, Removed;
      RemovedApart(used.nodes, c, free.nodes);
      RemovedApart(used.nodes, c, wait);
      ok := used.RemoveSlot(x, update, c);
    }

    /** The first free slot of exactly the size leaves the free list; `below` is the slot that the
        search passed last, which is all get_memory looks at when there is none. */
    method TakeFree(size: nat) returns (x: Slot?, below: Slot)
      requires Valid()
      modifies free, free.nodes
      ensures Valid()
      ensures x == old(Scan(free.nodes, 1, Size(size)))
      ensures x == null ==> free.nodes == old(free.nodes)
      ensures below == old(free.nodes)[CutOf(old(free.nodes), Size(size), 1) - 1]
      ensures x != null ==>
        var c := CutOf(old(free.nodes), Size(size), 1);
        && c < |old(free.nodes)| && old(free.nodes)[c] == x
        && free.nodes == Removed(old(free.nodes), c) && Loose(x)
      ensures used.nodes == old(used.nodes) && wait == old(wait)
    {
      hide ListInvariant, Threaded, Distinct, Removed, CutOf, Scan;
      var update: seq<Slot>;
      ghost var c: nat;
      x, update, c := free.FindFreeSize(size);
      below := update[0];
      PathBottom(free.nodes, c, update);
      if x != null {
        RemovedApart(free.nodes, c, used.nodes);
        RemovedApart(free.nodes, c, wait);
        var ok := free.RemoveSlot(x, update, c);
      }
    }

    /** A freed slot joins the end of the waiting list. */
    method PushWaiting(x: Slot)
      requires Valid() && Loose(x)
      modifies this, wait, x
      ensures Valid() && wait == old(wait) + [x]
      ensures used.nodes == old(used.nodes) && free.nodes == old(free.nodes)
    {
      hide ListInvariant;
      x.next := x.next[0 := null];
      if waitHead == null {
        waitHead := x;
      } else {
        waitTail.next := waitTail.next[0 := x];
      }
      waitTail := x;
      wait := wait + [x];
    }

    /** The oldest waiting slot moves to the free list. */
    method PromoteHead()
      requires Valid() && waitHead != null
      modifies this, free, free.nodes, wait
      ensures Valid() && wait == old(wait)[1..]
      ensures free.nodes == Inserted(old(free.nodes), CutOf(old(free.nodes), Size(old(wait)[0].total), 1), old(wait)[0])
      ensures used.nodes == old(used.nodes)
    {
      var x := waitHead;
      var next := x.next[0];
      PopHead(next);
      AddFree(x);
    }

    method PopHead(next: Slot?)
      requires Valid() && waitHead != null && next == waitHead.next[0]
      modifies this
      ensures Valid() && wait == old(wait)[1..] && Loose(old(waitHead)) && old(waitHead) == old(wait)[0]
      ensures used.nodes == old(used.nodes) && free.nodes == old(free.nodes)
    {
      hide ListInvariant;
      ThreadedTail(wait);
      waitHead := next;
      if next == null {
        waitTail := null;
      }
      wait := wait[1..];
    }
  }

  lemma {:induction false} ThreadedTail(wait: seq<Slot>)
    requires wait != [] && Threaded(wait) && Distinct(wait) && LowEnough(wait, 0)
    ensures Threaded(wait[1..]) && Distinct(wait[1..]) && LowEnough(wait[1..], 0) && wait[0] !in wait[1..]
    ensures wait[0].next[0] == if |wait| > 1 then wait[1] else null
  {
    var rest := wait[1..];
    assert |wait[0].next| == wait[0].level + 1;
    forall i | 0 <= i < |rest|
      ensures |rest[i].next| == rest[i].level + 1
      ensures rest[i].next[0] == if i + 1 < |rest| then rest[i + 1] else null
    {
      assert rest[i].next == wait[i + 1].next;
    }
  }
}
