/** The checks of one slot, byte by byte as the manager makes them. */
module ChunkChecks {
  import opened ChunkModel
  import opened ChunkInvariant
  import opened ChunkContents

  /** Is every byte of [from, to) equal to b? */
  method AllBytes(mem: seq<Byte>, from: int, to: int, b: Byte) returns (ok: bool)
    requires 0 <= from && to <= |mem|
    ensures ok <==> BytesAre(mem, from, to, b)
  {
    var at := from;
    while at < to
      invariant from <= at && (from <= to ==> at <= to) && forall x :: from <= x < at && x < |mem| ==> mem[x] == b
    {
      if mem[at] != b {
        return false;
      }
      at := at + 1;
    }
    return true;
  }

  /** memcmp with the bytes of a fence. */
  method SameBytes(mem: seq<Byte>, at: int, bytes: seq<Byte>) returns (ok: bool)
    requires 0 <= at && at + |bytes| <= |mem|
    ensures ok <==> BytesMatch(mem, at, bytes)
  {
    var k := 0;
    while k < |bytes|
      invariant 0 <= k <= |bytes| && forall j :: 0 <= j < k ==> mem[at + j] == bytes[j]
    {
      if mem[at + k] != bytes[k] {
        assert !BytesMatch(mem, at, bytes);
        return false;
      }
      k := k + 1;
    }
    return true;
  }

  /** fence_read. */
  method ReadFences(mem: seq<Byte>, a: int, s: Slot) returns (e: Errno)
    requires Inside(mem, a, s) && Fits(s) && s.fence
    ensures e == (if !BytesMatch(mem, InfoOf(a, s).fenceBottom, FENCE_BOTTOM) then UnderFence
                  else if !BytesMatch(mem, InfoOf(a, s).fenceTop, FENCE_TOP) then OverFence
                  else NoError)
  {
    hide BytesMatch;
    var ok := SameBytes(mem, InfoOf(a, s).fenceBottom, FENCE_BOTTOM);
    if !ok {
      return UnderFence;
    }
    ok := SameBytes(mem, InfoOf(a, s).fenceTop, FENCE_TOP);
    return if ok then NoError else OverFence;
  }

  /** The part of check_used_slot that reads the slot's memory. */
  method CheckOverwritten(mem: seq<Byte>, a: int, s: Slot) returns (e: Errno)
    requires Inside(mem, a, s) && Fits(s)
    ensures e == OverwriteError(mem, a, s)
  {
    hide BytesMatch, BytesAre;
    var i := InfoOf(a, s);
    if s.valloc && s.fence && s.blank {
      var clear := AllBytes(mem, a, i.fenceBottom, ALLOC_BLANK);
      if !clear {
        return FreeOverwritten;
      }
    }
    if s.fence {
      e := ReadFences(mem, a, s);
      if e != NoError {
        return;
      }
    }
    if s.blank {
      var clear := AllBytes(mem, if s.fence then i.fenceTop + TOP else i.userBounds, i.allocBounds, ALLOC_BLANK);
      if !clear {
        return FreeOverwritten;
      }
    }
    return NoError;
  }

  /** check_used_slot. */
  method CheckUsedSlot(mem: seq<Byte>, iter: nat, a: int, s: Slot, p: int) returns (e: Errno)
    requires Inside(mem, a, s) && Fits(s)
    ensures e == UsedSlotError(mem, iter, a, s, p)
  {
    hide OverwriteError;
    var i := InfoOf(a, s);
    if s.kind.Free? {
      return SlotCorrupt;
    }
    if p < i.userStart {
      return WouldOverwrite;
    }
    if p != i.userStart {
      return NotStartBlock;
    }
    if s.user > LARGEST_ALLOCATION {
      return BadSize;
    }
    if s.total > BLOCK / 2 && s.total % BLOCK != 0 {
      return BadSize;
    }
    if s.valloc {
      if i.userStart % BLOCK != 0 {
        return NotOnBlock;
      }
      if s.total < BLOCK {
        return SlotCorrupt;
      }
    }
    e := CheckOverwritten(mem, a, s);
    if e != NoError {
      return;
    }
    if s.seen / 2 > iter {
      return SlotCorrupt;
    }
    return NoError;
  }

  /** check_free_slot. */
  method CheckFreeSlot(mem: seq<Byte>, iter: nat, a: int, s: Slot) returns (e: Errno)
    requires Inside(mem, a, s)
    ensures e == FreeSlotError(mem, iter, a, s)
  {
    hide BytesAre;
    if !s.kind.Free? {
      return SlotCorrupt;
    }
    if s.blank {
      var clear := AllBytes(mem, a, a + s.total, FREE_BLANK);
      if !clear {
        return FreeOverwritten;
      }
    }
    return if s.seen / 2 > iter then SlotCorrupt else NoError;
  }
}
