/** The hole search of skiplist_insert_hole as a function of the stored slots. */
module Holes {
  import opened Extents
  import opened IndexSpec

  // ---- alignment

  function Pow2(k: nat): (r: nat)
    ensures r > 0
  {
    if k == 0 then 1 else 2 * Pow2(k - 1)
  }

  /** x with its k low bits cleared: x & ~(2^k - 1). */
  function ClearLow(x: nat, k: nat): nat {
    if k == 0 then x else 2 * ClearLow(x / 2, k - 1)
  }

  /** align_start for align == 2^k. */
  function AlignStart(val: nat, k: nat): nat {
    ClearLow(val + Pow2(k) - 1, k)
  }

  ghost predicate Aligned(x: nat, k: nat) {
    exists m: nat :: x == Multiple(m, k)
  }

  function Multiple(m: nat, k: nat): nat {
    m * Pow2(k)
  }

  lemma {:induction false} ClearLowFloors(x: nat, k: nat) returns (m: nat)
    ensures ClearLow(x, k) == Multiple(m, k) && Multiple(m, k) <= x < Multiple(m, k) + Pow2(k)
  {
    if k == 0 {
      m := x;
    } else {
      m := ClearLowFloors(x / 2, k - 1);
      assert Multiple(m, k) == 2 * Multiple(m, k - 1) by {
        assert m * (2 * Pow2(k - 1)) == 2 * (m * Pow2(k - 1));
      }
    }
  }

  lemma MultiplesApart(m: nat, n: nat, k: nat)
    ensures m < n ==> Multiple(m, k) + Pow2(k) <= Multiple(n, k)
  {
  }

  /** align_start rounds up to the least multiple of align at or past the value. */
  lemma AlignStartIsLeast(val: nat, k: nat)
    ensures Aligned(AlignStart(val, k), k) && AlignStart(val, k) >= val
    ensures forall y: nat :: Aligned(y, k) && y >= val ==> y >= AlignStart(val, k)
  {
    var m := ClearLowFloors(val + Pow2(k) - 1, k);
    forall y: nat | Aligned(y, k) && y >= val ensures y >= AlignStart(val, k) {
      var n: nat :| y == Multiple(n, k);
      MultiplesApart(n, m, k);
    }
  }

  lemma ZeroAligned(k: nat)
    ensures Aligned(0, k) && AlignStart(0, k) == 0
  {
    hide Pow2, ClearLow, AlignStart;
    assert 0 == Multiple(0, k);
    AlignStartIsLeast(0, k);
  }

  // ---- the scan

  /** Where the walk over the slots ends: a hole at key, no room below the limit, or past all slots. */
  datatype ScanResult = Found(key: nat) | Exhausted | Through(end: nat)

  function Scan(q: seq<Slot>, i: nat, end: nat, size: nat, limit: nat, k: nat): ScanResult
    requires i <= |q|
    decreases |q| - i
  {
    if i == |q| then Through(end)
    else if end > q[i].key then Scan(q, i + 1, end, size, limit, k)
    else if q[i].key - end >= size then
      if end + size > limit then Exhausted else Found(end)
    else
      var next := AlignStart(q[i].End(), k);
      if next + size > limit then Exhausted else Scan(q, i + 1, next, size, limit, k)
  }

  /** The same walk leaf by leaf. */
  function ScanLeaves(ls: seq<LeafVal>, n: nat, end: nat, size: nat, limit: nat, k: nat): ScanResult
    requires n <= |ls|
    decreases |ls| - n
  {
    if n == |ls| then Through(end)
    else
      match Scan(ls[n].slots, 0, end, size, limit, k)
      case Through(next) => ScanLeaves(ls, n + 1, next, size, limit, k)
      case done => done
  }

  lemma {:induction false} ScanConcat(a: seq<Slot>, b: seq<Slot>, i: nat, end: nat, size: nat, limit: nat, k: nat)
    requires i <= |a|
    ensures Scan(a + b, i, end, size, limit, k) ==
      match Scan(a, i, end, size, limit, k)
      case Through(next) => Scan(a + b, |a|, next, size, limit, k)
      case done => done
    decreases |a| - i
  {
    if i < |a| {
      assert (a + b)[i] == a[i];
      if end > a[i].key {
        ScanConcat(a, b, i + 1, end, size, limit, k);
      } else if a[i].key - end < size {
        ScanConcat(a, b, i + 1, AlignStart(a[i].End(), k), size, limit, k);
      }
    }
  }

  lemma {:induction false} ScanSuffix(a: seq<Slot>, b: seq<Slot>, i: nat, end: nat, size: nat, limit: nat, k: nat)
    requires i <= |b|
    ensures Scan(a + b, |a| + i, end, size, limit, k) == Scan(b, i, end, size, limit, k)
    decreases |b| - i
  {
    if i < |b| {
      assert (a + b)[|a| + i] == b[i];
      if end > b[i].key {
        ScanSuffix(a, b, i + 1, end, size, limit, k);
      } else if b[i].key - end < size {
        ScanSuffix(a, b, i + 1, AlignStart(b[i].End(), k), size, limit, k);
      }
    }
  }

  /** Walking leaf by leaf sees the same slots as walking the flattened list. */
  lemma {:induction false} ScanLeavesIsScan(ls: seq<LeafVal>, n: nat, end: nat, size: nat, limit: nat, k: nat)
    requires n <= |ls|
    ensures ScanLeaves(ls, n, end, size, limit, k) == Scan(Flatten(ls[n..]), 0, end, size, limit, k)
    decreases |ls| - n
  {
    if n < |ls| {
      var a, b := ls[n].slots, Flatten(ls[n + 1..]);
      assert Flatten(ls[n..]) == a + b by {
        assert ls[n..][0] == ls[n] && ls[n..][1..] == ls[n + 1..];
      }
      ScanConcat(a, b, 0, end, size, limit, k);
      var r := Scan(a, 0, end, size, limit, k);
      if r.Through? {
        ScanSuffix(a, b, 0, r.end, size, limit, k);
        ScanLeavesIsScan(ls, n + 1, r.end, size, limit, k);
      }
    }
  }

  // ---- what the scan finds

  /** Whatever the scan offers is a multiple of align and ends by the limit. */
  lemma {:induction false} ScanAligned(q: seq<Slot>, i: nat, end: nat, size: nat, limit: nat, k: nat)
    requires i <= |q| && Aligned(end, k)
    ensures match Scan(q, i, end, size, limit, k)
      case Found(key) => Aligned(key, k) && key + size <= limit
      case Through(e) => Aligned(e, k)
      case Exhausted => true
    decreases |q| - i
  {
    if i < |q| {
      if end > q[i].key {
        ScanAligned(q, i + 1, end, size, limit, k);
      } else if q[i].key - end < size {
        AlignStartIsLeast(q[i].End(), k);
        if AlignStart(q[i].End(), k) + size <= limit {
          ScanAligned(q, i + 1, AlignStart(q[i].End(), k), size, limit, k);
        }
      }
    }
  }

  ghost predicate AllAligned(q: seq<Slot>, k: nat) {
    forall i :: 0 <= i < |q| ==> Aligned(q[i].key, k)
  }

  /** key is an aligned place where the range is free. */
  ghost predicate Fits(q: seq<Slot>, key: nat, size: nat, k: nat) {
    Aligned(key, k) && Free(q, key, size)
  }

  /** No aligned free place from lo on and before hi. */
  ghost predicate NoFitIn(q: seq<Slot>, lo: nat, hi: nat, size: nat, k: nat) {
    forall key: nat :: lo <= key < hi ==> !Fits(q, key, size, k)
  }

  /** Every aligned free place from lo on ends past the limit. */
  ghost predicate NoFitFrom(q: seq<Slot>, lo: nat, size: nat, limit: nat, k: nat) {
    forall key: nat :: lo <= key && Fits(q, key, size, k) ==> key + size > limit
  }

  /** key is the least aligned free place. */
  ghost predicate FirstFit(q: seq<Slot>, key: nat, size: nat, k: nat) {
    Fits(q, key, size, k) && NoFitIn(q, 0, key, size, k)
  }

  /** A slot that is too close to `end` rules out every aligned place up to the slot's aligned end. */
  lemma SlotBlocks(q: seq<Slot>, i: nat, lo: nat, end: nat, size: nat, k: nat)
    requires i < |q| && end <= q[i].key && q[i].key - end < size && NoFitIn(q, lo, end, size, k)
    ensures NoFitIn(q, lo, AlignStart(q[i].End(), k), size, k)
  {
    AlignStartIsLeast(q[i].End(), k);
    forall key: nat | lo <= key < AlignStart(q[i].End(), k) ensures !Fits(q, key, size, k) {
      if key >= end && Aligned(key, k) {
        assert key < q[i].End();
        assert Overlaps(q[i], key, size);
      }
    }
  }

  /** Over any stored keys and from any start, the walk passes over no aligned free place. */
  lemma {:induction false} ScanSkipsNoRoom(q: seq<Slot>, i: nat, lo: nat, end: nat, size: nat, limit: nat, k: nat)
    requires i <= |q| && NoFitIn(q, lo, end, size, k)
    ensures match Scan(q, i, end, size, limit, k)
      case Found(key) => NoFitIn(q, lo, key, size, k)
      case Through(e) => NoFitIn(q, lo, e, size, k)
      case Exhausted => NoFitFrom(q, lo, size, limit, k)
    decreases |q| - i
  {
    if i < |q| {
      if end > q[i].key {
        ScanSkipsNoRoom(q, i + 1, lo, end, size, limit, k);
      } else if q[i].key - end < size {
        SlotBlocks(q, i, lo, end, size, k);
        if AlignStart(q[i].End(), k) + size <= limit {
          ScanSkipsNoRoom(q, i + 1, lo, AlignStart(q[i].End(), k), size, limit, k);
        }
      }
    }
    hide Fits, AlignStart;
  }

  /** No slot begins inside the range. */
  ghost predicate NoneBegins(q: seq<Slot>, key: nat, size: nat) {
    forall i :: 0 <= i < |q| ==> q[i].key < key || key + size <= q[i].key
  }

  /** A slot begins before the key and reaches past it. */
  ghost predicate Straddled(q: seq<Slot>, key: nat) {
    exists i :: 0 <= i < |q| && q[i].key < key < q[i].End()
  }

  /** Where no slot begins, only one that begins before can be in the way. */
  lemma TakenIsStraddled(q: seq<Slot>, key: nat, size: nat)
    requires NoneBegins(q, key, size) && !Free(q, key, size)
    ensures Straddled(q, key)
  {
    var i :| 0 <= i < |q| && Overlaps(q[i], key, size);
  }

  /** Over any stored keys, no slot begins inside the range that the walk offers. */
  lemma {:induction false} ScanBetweenKeys(q: seq<Slot>, i: nat, end: nat, size: nat, limit: nat, k: nat)
    requires Ordered(q) && i <= |q| && forall j :: 0 <= j < i ==> q[j].key < end
    ensures match Scan(q, i, end, size, limit, k)
      case Found(key) => NoneBegins(q, key, size)
      case Through(e) => NoneBegins(q, e, size)
      case Exhausted => true
    decreases |q| - i
  {
    if i < |q| {
      if end > q[i].key {
        ScanBetweenKeys(q, i + 1, end, size, limit, k);
      } else if q[i].key - end < size {
        AlignStartIsLeast(q[i].End(), k);
        if AlignStart(q[i].End(), k) + size <= limit {
          ScanBetweenKeys(q, i + 1, AlignStart(q[i].End(), k), size, limit, k);
        }
      }
    }
  }

  /** Over slots whose keys are all aligned, what the scan offers is free. */
  lemma {:induction false} ScanOffersFree(q: seq<Slot>, i: nat, end: nat, size: nat, limit: nat, k: nat)
    requires Ordered(q) && AllAligned(q, k) && i <= |q| && size > 0
    requires Aligned(end, k) && Below(q[..i], end)
    requires i < |q| ==> end <= q[i].key
    ensures match Scan(q, i, end, size, limit, k)
      case Found(key) => Fits(q, key, size, k) && key + size <= limit
      case Through(e) => Fits(q, e, size, k)
      case Exhausted => true
    decreases |q| - i
  {
    assert forall j :: 0 <= j < i ==> q[..i][j] == q[j];
    if i == |q| {
      assert Separates(q, i, end, size);
    } else if q[i].key - end >= size {
      assert Separates(q, i, end, size) by {
        assert forall j :: i < j < |q| ==> q[i].End() <= q[j].key;
      }
      SeparatesIsRank(q, i, end, size);
    } else {
      var next := AlignStart(q[i].End(), k);
      AlignStartIsLeast(q[i].End(), k);
      if next + size <= limit {
        BelowNext(q, i, end, next);
        ScanOffersFree(q, i + 1, next, size, limit, k);
      }
    }
  }

  lemma BelowNext(q: seq<Slot>, i: nat, end: nat, next: nat)
    requires i < |q| && Below(q[..i], end) && end <= q[i].key && q[i].End() <= next
    ensures Below(q[..i + 1], next)
  {
    assert forall j :: 0 <= j < i ==> q[..i][j] == q[..i + 1][j];
  }

  /** From 0, over slots whose keys are all multiples of align, the scan is an exact first-fit search. */
  lemma ScanFromZero(q: seq<Slot>, size: nat, limit: nat, k: nat)
    requires Ordered(q) && AllAligned(q, k) && size > 0
    ensures match Scan(q, 0, 0, size, limit, k)
      case Found(key) => FirstFit(q, key, size, k) && key + size <= limit
      case Through(e) => FirstFit(q, e, size, k)
      case Exhausted => NoFitFrom(q, 0, size, limit, k)
  {
    ZeroAligned(k);
    ScanOffersFree(q, 0, 0, size, limit, k);
    ScanSkipsNoRoom(q, 0, 0, 0, size, limit, k);
    hide Fits, Aligned;
  }
}
