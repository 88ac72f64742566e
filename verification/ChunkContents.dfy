/** What is written around a user area, and what the overwrite checks can tell from it. */
module ChunkContents {
  import opened Basics
  import opened ChunkModel
  import opened ChunkInvariant

  predicate Inside(mem: seq<Byte>, a: int, s: Slot) {
    0 <= a && a + s.total <= |mem|
  }

  predicate InUserArea(a: int, s: Slot, x: int) {
    InfoOf(a, s).userStart <= x < InfoOf(a, s).userBounds
  }

  predicate InFences(a: int, s: Slot, x: int) {
    s.fence && (InfoOf(a, s).fenceBottom <= x < InfoOf(a, s).userStart
                || InfoOf(a, s).fenceTop <= x < InfoOf(a, s).fenceTop + TOP)
  }

  /** The bytes of a slot that the checks look at: the fences, and in a blanked slot everything
      outside the user area. */
  predicate Guarded(a: int, s: Slot, x: int) {
    a <= x < a + s.total && !InUserArea(a, s, x) && (s.blank || InFences(a, s, x))
  }

  /** What clear_alloc writes at a guarded address. */
  function GuardByte(a: int, s: Slot, x: int): Byte
  {
    var i := InfoOf(a, s);
    if s.fence && i.fenceBottom <= x < i.userStart then FENCE_BOTTOM[x - i.fenceBottom]
    else if s.fence && i.fenceTop <= x < i.fenceTop + TOP then FENCE_TOP[x - i.fenceTop]
    else ALLOC_BLANK
  }

  /** Every guarded byte is what clear_alloc wrote there. */
  ghost predicate GuardsHold(mem: seq<Byte>, a: int, s: Slot)
    requires Inside(mem, a, s)
  {
    forall x :: Guarded(a, s, x) ==> mem[x] == GuardByte(a, s, x)
  }

  lemma {:induction false} ChecksImplyGuards(mem: seq<Byte>, a: int, s: Slot)
    requires Inside(mem, a, s) && Fits(s) && OverwriteError(mem, a, s) == NoError
    ensures GuardsHold(mem, a, s)
  {
    var i := InfoOf(a, s);
    forall x | Guarded(a, s, x) ensures mem[x] == GuardByte(a, s, x) {
      if s.fence && i.fenceBottom <= x < i.userStart {
        assert mem[i.fenceBottom + (x - i.fenceBottom)] == FENCE_BOTTOM[x - i.fenceBottom];
      } else if s.fence && i.fenceTop <= x < i.fenceTop + TOP {
        assert mem[i.fenceTop + (x - i.fenceTop)] == FENCE_TOP[x - i.fenceTop];
      }
    }
  }

  lemma {:induction false} GuardsImplyChecks(mem: seq<Byte>, a: int, s: Slot)
    requires Inside(mem, a, s) && Fits(s) && GuardsHold(mem, a, s)
    ensures OverwriteError(mem, a, s) == NoError
  {
    var i := InfoOf(a, s);
    if s.fence {
      assert BytesMatch(mem, i.fenceBottom, FENCE_BOTTOM) by {
        forall k | 0 <= k < |FENCE_BOTTOM| ensures mem[i.fenceBottom + k] == FENCE_BOTTOM[k] {
          assert Guarded(a, s, i.fenceBottom + k);
        }
      }
      assert BytesMatch(mem, i.fenceTop, FENCE_TOP) by {
        forall k | 0 <= k < |FENCE_TOP| ensures mem[i.fenceTop + k] == FENCE_TOP[k] {
          assert Guarded(a, s, i.fenceTop + k);
        }
      }
    }
    if s.blank {
      var above := if s.fence then i.fenceTop + TOP else i.userBounds;
      assert BytesAre(mem, above, i.allocBounds, ALLOC_BLANK) by {
        forall x | above <= x < i.allocBounds ensures mem[x] == ALLOC_BLANK {
          assert Guarded(a, s, x);
        }
      }
      if s.valloc && s.fence {
        assert BytesAre(mem, a, i.fenceBottom, ALLOC_BLANK) by {
          forall x | a <= x < i.fenceBottom ensures mem[x] == ALLOC_BLANK {
            assert Guarded(a, s, x);
          }
        }
      }
    }
  }

  /** The overwrite check is exact: it passes if and only if every guarded byte is what clear_alloc
      wrote, and in a fenced and blanked slot that is every byte outside the user area. */
  lemma {:induction false} DetectorExact(mem: seq<Byte>, a: int, s: Slot)
    requires Inside(mem, a, s) && Fits(s)
    ensures OverwriteError(mem, a, s) == NoError <==> GuardsHold(mem, a, s)
    ensures s.fence && s.blank ==>
      forall x :: Guarded(a, s, x) <==> a <= x < a + s.total && !InUserArea(a, s, x)
  {
    if OverwriteError(mem, a, s) == NoError { ChecksImplyGuards(mem, a, s); }
    if GuardsHold(mem, a, s) { GuardsImplyChecks(mem, a, s); }
  }

  /** User bytes that nobody wrote before: zero from calloc and recalloc, else the blank in a blanked
      slot, else whatever was there. */
  ghost predicate NewBytes(mem: seq<Byte>, mem': seq<Byte>, from: int, to: int, func: Func, blank: bool) {
    |mem'| == |mem| && forall x :: 0 <= x < |mem| && from <= x < to ==>
      mem'[x] == (if func == Calloc || func == Recalloc then 0 else if blank then ALLOC_BLANK else mem[x])
  }

  /** clear_alloc writes the guards, keeps the first `kept` user bytes, and touches nothing outside
      the slot. */
  lemma {:induction false} ClearedIsIntact(mem: seq<Byte>, a: int, s: Slot, kept: nat, zero: bool)
    requires Inside(mem, a, s) && Fits(s)
    ensures var mem' := Cleared(mem, a, s, kept, zero);
      && |mem'| == |mem|
      && OverwriteError(mem', a, s) == NoError
      && (forall x :: 0 <= x < |mem| && !(a <= x < a + s.total) ==> mem'[x] == mem[x])
      && (forall x :: InUserArea(a, s, x) && x < InfoOf(a, s).userStart + kept ==> mem'[x] == mem[x])
      && (forall x :: InUserArea(a, s, x) && InfoOf(a, s).userStart + kept <= x ==>
            mem'[x] == if zero then 0 else if s.blank then ALLOC_BLANK else mem[x])
      && (forall x :: a <= x < a + s.total && !InUserArea(a, s, x) && !Guarded(a, s, x) ==> mem'[x] == mem[x])
  {
    var mem' := Cleared(mem, a, s, kept, zero);
    forall x | Guarded(a, s, x) ensures mem'[x] == GuardByte(a, s, x) {
      assert mem'[x] == ClearedByte(mem, a, s, kept, zero, x);
    }
    GuardsImplyChecks(mem', a, s);
  }

  /** The state of a slot only depends on its own bytes. */
  lemma {:induction false} SlotFineFrame(mem: seq<Byte>, mem': seq<Byte>, a: int, s: Slot)
    requires Inside(mem, a, s) && |mem'| == |mem| && SlotFine(mem, a, s)
    requires forall x :: a <= x < a + s.total ==> mem'[x] == mem[x]
    ensures SlotFine(mem', a, s)
  {
    if s.kind.User? {
      ChecksImplyGuards(mem, a, s);
      GuardsImplyChecks(mem', a, s);
    }
  }

  /** Writes within one region leave all slots apart from it as they are. */
  lemma {:induction false} IntactElsewhere(mem: seq<Byte>, mem': seq<Byte>, slots: map<int, Slot>, a: int, n: nat)
    requires Intact(mem, slots) && |mem'| == |mem|
    requires forall b :: b in slots ==> Inside(mem, b, slots[b]) && Apart(b, slots[b].total, a, n)
    requires forall x :: 0 <= x < |mem| && !(a <= x < a + n) ==> mem'[x] == mem[x]
    ensures Intact(mem', slots)
  {
    forall b | b in slots ensures SlotFine(mem', b, slots[b]) {
      SlotFineFrame(mem, mem', b, slots[b]);
    }
  }

  /** Writes inside a live user area disturb no check of any slot. */
  lemma {:induction false} UserWritesKeepIntact(mem: seq<Byte>, mem': seq<Byte>, slots: map<int, Slot>, a: int)
    requires Intact(mem, slots) && a in slots && slots[a].kind.User? && |mem'| == |mem|
    requires forall b :: b in slots ==> Inside(mem, b, slots[b])
    requires forall b :: b in slots && b != a ==> Apart(b, slots[b].total, a, slots[a].total)
    requires forall x :: 0 <= x < |mem| && !InUserArea(a, slots[a], x) ==> mem'[x] == mem[x]
    ensures Intact(mem', slots)
  {
    assert Fits(slots[a]);
    forall b | b in slots ensures SlotFine(mem', b, slots[b]) {
      if b != a {
        assert forall x :: b <= x < b + slots[b].total ==> !InUserArea(a, slots[a], x);
        SlotFineFrame(mem, mem', b, slots[b]);
      } else {
        ChecksImplyGuards(mem, a, slots[a]);
        GuardsImplyChecks(mem', a, slots[a]);
      }
    }
  }
}
