/** One leaf of the extent skip list: up to 32 slots in two parallel arrays. */
module Leaves {
  import opened Extents
  import opened Sequences

  const KEYS_PER_NODE: nat := 32
  const HALF: nat := KEYS_PER_NODE / 2

  /** What either search promises: 0 and a slot meeting the range, or 1 and the place that keeps the order. */
  ghost predicate SearchResult(q: seq<Slot>, key: nat, size: nat, ret: int, slot: nat) {
    && (ret == 0 || ret == 1)
    && (ret == 1 <==> Free(q, key, size))
    && (ret == 0 ==> slot < |q| && Overlaps(q[slot], key, size))
    && (ret == 1 ==> slot == Rank(q, key) && Separates(q, slot, key, size))
  }

  /** The sequential search stops at the last slot that starts before the range ends. */
  predicate LastBefore(q: seq<Slot>, key: nat, size: nat, slot: nat) {
    slot + 1 < |q| ==> key + size <= q[slot + 1].key
  }

  /**
    * Binary search (ret, slot) and sequential search (ret2, slot2) of the same leaf: they agree on hit or miss and on
    * the place of a miss; on a hit the sequential one gives the last slot met, the same one when only one is met.
    */
  lemma {:induction false} SearchesAgree(q: seq<Slot>, key: nat, size: nat, ret: int, slot: nat, ret2: int, slot2: nat)
    requires Ordered(q) && size > 0
    requires SearchResult(q, key, size, ret, slot)
    requires SearchResult(q, key, size, ret2, slot2) && (ret2 == 0 ==> LastBefore(q, key, size, slot2))
    ensures ret == ret2
    ensures ret == 1 ==> slot == slot2
    ensures ret == 0 ==> slot <= slot2 && forall k :: slot2 < k < |q| ==> !Overlaps(q[k], key, size)
    ensures ret == 0 && (forall j, k :: 0 <= j < k < |q| ==> !Overlaps(q[j], key, size) || !Overlaps(q[k], key, size))
      ==> slot == slot2
  {
    if ret == 0 {
      forall k | slot2 < k < |q| ensures key + size <= q[k].key {
        assert k > slot2 + 1 ==> q[slot2 + 1].End() <= q[k].key;
      }
    }
  }

  class Leaf {
    var nr: nat
    var max: nat
    // One entry longer than the 32 usable ones: DeleteSlot's last copy reads entry nr.
    const keys: array<nat>
    const ptrs: array<SlotPtr>

    ghost var slots: seq<Slot>  // what the first nr entries of the arrays hold

    /** The arrays hold exactly `slots`. */
    ghost predicate Holds()
      reads this, keys, ptrs
    {
      && keys.Length == KEYS_PER_NODE + 1
      && ptrs.Length == KEYS_PER_NODE + 1
      && nr == |slots| <= KEYS_PER_NODE
      && forall i :: 0 <= i < nr ==> keys[i] == slots[i].key && ptrs[i] == Ref(slots[i])
    }

    ghost predicate Valid()
      reads this, keys, ptrs
    {
      && Holds()
      && Ordered(slots)
      && (nr > 0 ==> max == slots[nr - 1].End())
    }

    constructor ()
      ensures Valid() && slots == []
      ensures fresh(keys) && fresh(ptrs)
    {
      nr := 0;
      max := 0;
      keys := new nat[KEYS_PER_NODE + 1](_ => 0);
      ptrs := new SlotPtr[KEYS_PER_NODE + 1](_ => Null);
      slots := [];
    }

    /** Binary search; the caller holds the leaf's lock. */
    method SlotLocked(key: nat, size: nat) returns (ret: int, slot: nat)
      requires Valid() && size > 0
      ensures SearchResult(slots, key, size, ret, slot)
    {
      var low: int, high: int := 0, nr - 1;
      while low <= high
        invariant 0 <= low <= high + 1 <= nr
        invariant low > 0 ==> slots[low - 1].key < key
        invariant high + 1 < nr ==> key + size <= slots[high + 1].key
      {
        var mid := low + (high - low) / 2;
        var k1 := keys[mid];
        if k1 < key {
          low := mid + 1;
        } else if k1 >= key + size {
          high := mid - 1;
        } else {
          assert Overlaps(slots[mid], key, size);
          return 0, mid;
        }
      }
      if low > 0 {
        var k1 := keys[low - 1];
        var found := ptrs[low - 1].slot;
        if (k1 < key + size && k1 + found.size > key) || (k1 < key + size && k1 >= key) {
          return 0, low - 1;
        }
      }
      NeighboursSeparate(slots, low, key, size);
      return 1, low;
    }

    /** Sequential search used without the lock; here no writer is at work. */
    method SlotRcu(key: nat, size: nat) returns (ret: int, slot: nat)
      requires Valid() && nr > 0 && size > 0
      ensures SearchResult(slots, key, size, ret, slot)
      ensures ret == 0 ==> LastBefore(slots, key, size, slot)
    {
      var cur, last, i := 0, nr, 0;
      while i < last
        invariant 0 <= i <= last == nr
        invariant cur == if i == 0 then 0 else i - 1
        invariant i > 0 ==> slots[cur].key < key + size
      {
        var thisKey := keys[i];
        if thisKey >= key + size {
          break;
        }
        cur := i;
        i := i + 1;
      }
      if keys[cur] < key + size {
        // The pointer is never NULL and never disagrees with the key here, so
        // neither of the waiting loops of the source is entered.
        var found := ptrs[cur].slot;
        assert found == slots[cur] && found.key == keys[cur];
        if (found.key < key + size && found.End() > key) || (found.key < key + size && found.key >= key) {
          return 0, cur;
        }
        NeighboursSeparate(slots, cur + 1, key, size);
        return 1, cur + 1;
      }
      NeighboursSeparate(slots, cur, key, size);
      return 1, cur;
    }

    /** Moves entries slot.. one place up, from the top, after bumping nr. */
    method ShiftUp(slot: nat)
      requires Holds() && nr < KEYS_PER_NODE && slot < nr
      modifies this`nr, keys, ptrs
      ensures nr == |slots| + 1
      ensures forall j :: 0 <= j < slot ==> keys[j] == slots[j].key && ptrs[j] == Ref(slots[j])
      ensures forall j :: slot < j < nr ==> keys[j] == slots[j - 1].key && ptrs[j] == Ref(slots[j - 1])
    {
      keys[nr] := 0;
      ptrs[nr] := Null;
      nr := nr + 1;
      var i := nr - 1;
      while i > slot
        invariant slot <= i <= nr - 1
        invariant nr == |slots| + 1
        invariant forall j :: 0 <= j < i ==> keys[j] == slots[j].key && ptrs[j] == Ref(slots[j])
        invariant forall j :: i < j < nr ==> keys[j] == slots[j - 1].key && ptrs[j] == Ref(slots[j - 1])
      {
        keys[i] := keys[i - 1];
        ptrs[i] := ptrs[i - 1];
        i := i - 1;
      }
    }

    /** The shifting half of add_key_to_leaf: the leaf has room. */
    method InsertShift(slot: nat, s: Slot)
      requires Holds() && nr < KEYS_PER_NODE && slot <= nr
      modifies this, keys, ptrs
      ensures Holds() && slots == old(Splice(slots, slot, s))
      ensures max == if slot < old(nr) then old(max) else s.End()
    {
      if slot < nr {
        ShiftUp(slot);
        keys[slot] := s.key;
        ptrs[slot] := Ref(s);
      } else {
        max := s.End();
        keys[slot] := s.key;
        ptrs[slot] := Ref(s);
        nr := nr + 1;
      }
      slots := Splice(slots, slot, s);
    }

    /** Copies entries slot + 1.. one place down, entry nr included. */
    method ShiftDown(slot: nat)
      requires Holds() && slot < nr
      modifies keys, ptrs
      ensures forall j :: 0 <= j < slot ==> keys[j] == slots[j].key && ptrs[j] == Ref(slots[j])
      ensures forall j :: slot <= j < nr - 1 ==> keys[j] == slots[j + 1].key && ptrs[j] == Ref(slots[j + 1])
    {
      var i := slot;
      while i <= nr - 1
        invariant slot <= i <= nr
        invariant forall j :: 0 <= j < slot ==> keys[j] == slots[j].key && ptrs[j] == Ref(slots[j])
        invariant forall j :: slot <= j < i && j < nr - 1 ==>
          keys[j] == slots[j + 1].key && ptrs[j] == Ref(slots[j + 1])
        invariant forall j :: i <= j < nr ==> keys[j] == slots[j].key && ptrs[j] == Ref(slots[j])
      {
        keys[i] := keys[i + 1];
        ptrs[i] := ptrs[i + 1];
        i := i + 1;
      }
    }

    method DeleteSlot(slot: nat)
      requires Valid() && slot < nr
      modifies this, keys, ptrs
      ensures Holds() && slots == old(Without(slots, slot))
      ensures max == if slot == |slots| && slot > 0 then slots[slot - 1].End() else old(max)
    {
      if slot != nr - 1 {
        ShiftDown(slot);
      } else if nr > 1 {
        max := keys[nr - 2] + ptrs[nr - 2].slot.size;
      }
      nr := nr - 1;
      slots := Without(slots, slot);
    }

    ghost predicate Roomy()
    {
      keys.Length == KEYS_PER_NODE + 1 && ptrs.Length == KEYS_PER_NODE + 1
    }

    /** A fresh leaf with one slot. */
    method SetSingle(s: Slot)
      requires Roomy()
      modifies this, keys, ptrs
      ensures Holds() && slots == [s] && max == s.End()
    {
      nr := 1;
      max := s.End();
      keys[0] := s.key;
      ptrs[0] := Ref(s);
      slots := [s];
    }

    /** The first |q| entries hold q. */
    ghost predicate Begins(q: seq<Slot>)
      reads keys, ptrs
    {
      && keys.Length == KEYS_PER_NODE + 1 && ptrs.Length == KEYS_PER_NODE + 1 && |q| <= KEYS_PER_NODE
      && forall i :: 0 <= i < |q| ==> keys[i] == q[i].key && ptrs[i] == Ref(q[i])
    }

    /** Copies entries from..to of leaf `src` behind the first `at` entries of this leaf. */
    method CopyFrom(src: Leaf, from: nat, to: nat, at: nat, ghost q: seq<Slot>)
      requires Begins(q) && |q| == at && src.Holds() && from <= to <= src.nr && at + (to - from) <= KEYS_PER_NODE
      requires keys != src.keys && ptrs != src.ptrs
      modifies keys, ptrs
      ensures Begins(q + src.slots[from..to])
    {
      var srcI, dstI := from, at;
      while srcI < to
        invariant from <= srcI <= to && dstI == at + (srcI - from)
        invariant Begins(q + src.slots[from..srcI])
      {
        keys[dstI] := src.keys[srcI];
        ptrs[dstI] := src.ptrs[srcI];
        srcI, dstI := srcI + 1, dstI + 1;
      }
    }

    method PutAt(at: nat, s: Slot, ghost q: seq<Slot>)
      requires Begins(q) && |q| == at && at < KEYS_PER_NODE
      modifies keys, ptrs
      ensures Begins(q + [s])
    {
      keys[at] := s.key;
      ptrs[at] := Ref(s);
    }

    /** What the new leaf of a split holds: the upper half of q, with the slot if it belongs there. */
    static function UpperHalf(q: seq<Slot>, slot: nat, s: Slot): seq<Slot>
      requires |q| == KEYS_PER_NODE && slot < KEYS_PER_NODE
    {
      if slot >= HALF then q[HALF..slot] + [s] + q[slot..] else q[HALF..]
    }

    lemma NothingYet()
      requires Roomy()
      ensures Begins([])
    {
    }

    lemma BeginsHolds()
      requires Begins(slots) && nr == |slots|
      ensures Holds()
    {
    }

    /** The copying half of a split; `this` is the new leaf, src the full one. */
    method FillUpperHalf(src: Leaf, slot: nat, s: Slot)
      requires Roomy() && src.Holds() && src.nr == KEYS_PER_NODE && slot < KEYS_PER_NODE
      requires this != src && keys != src.keys && ptrs != src.ptrs
      modifies this, keys, ptrs
      ensures Holds() && slots == UpperHalf(src.slots, slot, s) && max == src.max
    {
      hide Begins;
      NothingYet();
      nr := HALF;
      max := src.max;
      var srcI, dstI := HALF, 0;
      ghost var q: seq<Slot> := [];
      if slot >= HALF {
        CopyFrom(src, HALF, slot, 0, q);
        q := q + src.slots[HALF..slot];
        srcI, dstI := slot, slot - HALF;
        PutAt(dstI, s, q);
        q := q + [s];
        dstI := dstI + 1;
        nr := nr + 1;
      }
      CopyFrom(src, srcI, src.nr, dstI, q);
      slots := UpperHalf(src.slots, slot, s);
      assert q + src.slots[srcI..src.nr] == slots;
      BeginsHolds();
    }

    lemma CountsSlots()
      requires Holds()
      ensures nr == |slots|
    {
    }

    /** The full leaf gives up its upper half. */
    method KeepLowerHalf()
      requires Holds() && nr == KEYS_PER_NODE
      modifies this
      ensures Holds() && slots == old(slots[..HALF]) && max == old(slots[HALF - 1].End())
    {
      max := keys[HALF - 1] + ptrs[HALF - 1].slot.size;
      nr := HALF;
      slots := slots[..HALF];
    }
  }
}
