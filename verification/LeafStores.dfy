/** The leaves in add_key_to_leaf, one store at a time, and what a scan of leaf_slot makes of each state. */
module LeafStores {
  import opened Extents
  import opened Sequences
  import opened Leaves
  import opened IndexSpec

  /** A leaf's memory at some moment: the arrays need not be consistent. */
  datatype Mem = Mem(keys: seq<nat>, ptrs: seq<SlotPtr>, nr: nat, max: nat)

  /** leaf_slot: a hit, a miss, or a wait for the writer (NULL pointer, or a key that does not match its pointer). */
  datatype Answer = Hit(slot: nat) | Miss | Retry

  ghost predicate Readable(m: Mem) {
    |m.keys| == |m.ptrs| == KEYS_PER_NODE + 1 && 1 <= m.nr <= KEYS_PER_NODE
  }

  /** Where the scan loop of leaf_slot leaves `cur`. */
  function Cur(keys: seq<nat>, nr: nat, bound: nat, i: nat): (c: nat)
    requires i <= nr <= |keys| && nr > 0
    ensures c < nr
    decreases nr - i
  {
    if i < nr && keys[i] < bound then Cur(keys, nr, bound, i + 1) else if i == 0 then 0 else i - 1
  }

  function LeafScan(m: Mem, key: nat, size: nat): Answer
    requires Readable(m)
  {
    var cur := Cur(m.keys, m.nr, key + size, 0);
    if m.keys[cur] < key + size then
      match m.ptrs[cur]
      case Null => Retry
      case Ref(found) =>
        if found.key != m.keys[cur] then Retry
        else if Overlaps(found, key, size) || (found.key < key + size && found.key >= key) then Hit(cur)
        else Miss
    else Miss
  }

  lemma {:induction false} CurIs(keys: seq<nat>, nr: nat, bound: nat, i: nat, c: nat)
    requires i <= c + 1 <= nr <= |keys|
    requires forall x :: 0 <= x <= c ==> keys[x] < bound
    requires c + 1 == nr || keys[c + 1] >= bound
    ensures Cur(keys, nr, bound, i) == c
    decreases c + 1 - i
  {
    if i <= c {
      CurIs(keys, nr, bound, i + 1, c);
    }
  }

  /** A scan for any point of a slot in b finds that slot or waits; it never misses. */
  ghost predicate GoodFor(m: Mem, b: seq<Slot>) {
    Readable(m) && forall j, p: nat {:trigger LeafScan(m, p, 1), b[j]} :: 0 <= j < |b| && b[j].key <= p < b[j].End() ==>
      FoundOrRetry(m, LeafScan(m, p, 1), b[j])
  }

  ghost predicate FoundOrRetry(m: Mem, a: Answer, s: Slot) {
    a == Retry || (a.Hit? && a.slot < |m.ptrs| && m.ptrs[a.slot] == Ref(s))
  }

  // ---- the shifting loop, store by store

  /** What entry i, the one the loop is moving past, holds. */
  datatype Hole =
    | Blank      // just opened at the end: key 0, NULL
    | Dup        // still what was moved one up
    | HalfMoved  // the key of the entry below, the pointer not yet
    | HalfNew    // the new key, the pointer not yet
    | Whole      // the new slot

  /** Entries below i are where they were, entries above i one place up. */
  ghost predicate Juggling(m: Mem, b: seq<Slot>, at: nat, s: Slot, i: nat, h: Hole) {
    && Readable(m) && m.nr == |b| + 1 && at <= i <= |b|
    && (forall j :: 0 <= j < i ==> m.keys[j] == b[j].key && m.ptrs[j] == Ref(b[j]))
    && (forall j :: i < j <= |b| ==> m.keys[j] == b[j - 1].key && m.ptrs[j] == Ref(b[j - 1]))
    && match h
       case Blank => i == |b| && m.keys[i] == 0 && m.ptrs[i] == Null
       case Dup => i < |b| && m.keys[i] == b[i].key && m.ptrs[i] == Ref(b[i])
       case HalfMoved => i > at && m.keys[i] == b[i - 1].key && m.ptrs[i] == (if i < |b| then Ref(b[i]) else Null)
       case HalfNew => i == at < |b| && m.keys[i] == s.key && m.ptrs[i] == Ref(b[i])
       case Whole => i == at && m.keys[i] == s.key && m.ptrs[i] == Ref(s)
  }

  /** Where the scan for a point of b[j] stops while entry i is being moved. */
  function StopAt(i: nat, h: Hole, j: nat): nat {
    if j >= i then j + 1 else if j + 1 == i && (h == Blank || h == HalfMoved) then i else j
  }

  lemma JugglingStops(m: Mem, b: seq<Slot>, at: nat, s: Slot, i: nat, h: Hole, j: nat, p: nat)
    requires Ordered(b) && Separates(b, at, s.key, s.size) && s.size > 0 && Juggling(m, b, at, s, i, h)
    requires j < |b| && b[j].key <= p < b[j].End()
    ensures Cur(m.keys, m.nr, p + 1, 0) == StopAt(i, h, j)
  {
    var c := StopAt(i, h, j);
    forall x | 0 <= x <= c ensures m.keys[x] < p + 1 {
      KeyBelow(m, b, at, s, i, h, j, x);
    }
    if c + 1 < m.nr {
      KeyAbove(m, b, at, s, i, h, j);
    }
    hide Ordered, Separates;
    CurIs(m.keys, m.nr, p + 1, 0, c);
  }

  lemma KeyBelow(m: Mem, b: seq<Slot>, at: nat, s: Slot, i: nat, h: Hole, j: nat, x: nat)
    requires Ordered(b) && Separates(b, at, s.key, s.size) && Juggling(m, b, at, s, i, h)
    requires j < |b| && x <= StopAt(i, h, j)
    ensures m.keys[x] <= b[j].key
  {
    if x < i {
      assert x < j ==> b[x].End() <= b[j].key;
    } else if x > i {
      assert x - 1 < j ==> b[x - 1].End() <= b[j].key;
    } else if i < |b| {
      assert i < j ==> b[i].End() <= b[j].key;
    }
  }

  lemma KeyAbove(m: Mem, b: seq<Slot>, at: nat, s: Slot, i: nat, h: Hole, j: nat)
    requires Ordered(b) && Separates(b, at, s.key, s.size) && s.size > 0 && Juggling(m, b, at, s, i, h)
    requires j < |b| && StopAt(i, h, j) + 1 < m.nr
    ensures m.keys[StopAt(i, h, j) + 1] >= b[j].End()
  {
    var c := StopAt(i, h, j);
    var above := if c + 1 <= i then c + 1 else c;
    assert above < |b| && j < above ==> b[j].End() <= b[above].key;
  }

  /** In the middle of a shift a scan finds each old slot or notices the writer. */
  lemma JugglingGood(m: Mem, b: seq<Slot>, at: nat, s: Slot, i: nat, h: Hole)
    requires Ordered(b) && Separates(b, at, s.key, s.size) && s.size > 0 && Juggling(m, b, at, s, i, h)
    ensures GoodFor(m, b)
  {
    forall j, p: nat | 0 <= j < |b| && b[j].key <= p < b[j].End() ensures FoundOrRetry(m, LeafScan(m, p, 1), b[j]) {
      JugglingStops(m, b, at, s, i, h, j, p);
      assert j + 1 == i < |b| ==> b[j].End() <= b[i].key;
    }
  }

  /** A leaf at rest. */
  ghost predicate AtRest(m: Mem, b: seq<Slot>) {
    && Readable(m) && m.nr == |b|
    && forall j :: 0 <= j < |b| ==> m.keys[j] == b[j].key && m.ptrs[j] == Ref(b[j])
  }

  lemma RestIsGood(m: Mem, b: seq<Slot>)
    requires Ordered(b) && AtRest(m, b)
    ensures GoodFor(m, b)
  {
    forall j, p: nat | 0 <= j < |b| && b[j].key <= p < b[j].End() ensures FoundOrRetry(m, LeafScan(m, p, 1), b[j]) {
      forall x | 0 <= x <= j ensures m.keys[x] < p + 1 {
        assert x < j ==> b[x].End() <= b[j].key;
      }
      assert j + 1 < |b| ==> b[j].End() <= b[j + 1].key;
      CurIs(m.keys, m.nr, p + 1, 0, j);
    }
  }

  // ---- two leaves of which one is being filled

  /**
   The leaf under change and, once reachable, the one split off it. Stages: 0 the new leaf is not linked,
   1 it is, 2 the old leaf's max has come down, 3 so has its nr.
   */
  datatype View = View(leaf: Mem, split: Mem, stage: nat)

  /** Slots cut.. of q have a copy in the split leaf as soon as that leaf is reachable. */
  ghost predicate GoodView(v: View, q: seq<Slot>, cut: nat)
    requires q != [] && cut <= |q|
  {
    && v.stage <= 3 && (v.stage >= 2 ==> 0 < cut < |q|)
    && GoodFor(v.leaf, if v.stage == 3 then q[..cut] else q)
    && (cut < |q| && v.stage < 3 ==> AtRest(v.leaf, q))
    && v.leaf.keys[0] <= q[0].key
    && (if v.stage >= 2 then v.leaf.max == q[cut - 1].End() else v.leaf.max >= q[|q| - 1].End())
    && (v.stage >= 1 ==>
          && GoodFor(v.split, q[cut..])
          && (cut > 0 ==> q[cut - 1].End() <= v.split.keys[0])
          && (cut < |q| ==> v.split.keys[0] <= q[cut].key && q[|q| - 1].End() <= v.split.max))
  }

  /** The leaves never reach beyond the old slots and the new one. */
  ghost predicate ViewBounds(v: View, q: seq<Slot>, s: Slot)
    requires q != []
  {
    && Tidy(v.leaf, q, s)
    && q[0].End() <= v.leaf.max && (v.leaf.max <= q[|q| - 1].End() || v.leaf.max <= s.End())
    && (v.stage >= 1 ==>
          && |v.split.keys| > 0 && (q[0].key <= v.split.keys[0] || v.split.keys[0] == s.key)
          && v.split.keys[0] < v.split.max && (v.split.max <= q[|q| - 1].End() || v.split.max <= s.End()))
  }

  /** A scan of the old leaf for a point stored before finds it, or waits, or comes after the leaf's max went down. */
  lemma LeafPick(v2: View, v3: View, q: seq<Slot>, cut: nat, j: nat, p: nat)
    requires Ordered(q) && q != [] && cut <= |q| && GoodView(v2, q, cut) && GoodView(v3, q, cut) && v2.stage <= v3.stage
    requires j < |q| && q[j].key <= p < q[j].End()
    ensures FoundOrRetry(v2.leaf, LeafScan(v2.leaf, p, 1), q[j]) || v3.leaf.max <= p
  {
    assert v2.stage == 3 && j < cut ==> q[..cut][j] == q[j];
    assert cut > 0 && cut - 1 < j ==> q[cut - 1].End() <= q[j].key;
  }

  lemma SplitPick(v2: View, q: seq<Slot>, cut: nat, j: nat, p: nat)
    requires Ordered(q) && q != [] && cut <= |q| && GoodView(v2, q, cut) && v2.stage >= 1
    requires cut <= j < |q| && q[j].key <= p < q[j].End()
    ensures FoundOrRetry(v2.split, LeafScan(v2.split, p, 1), q[j])
  {
    assert q[cut..][j - cut] == q[j];
  }

  // ---- the stores, one at a time

  datatype Store = SetKey(i: nat, k: nat) | SetPtr(i: nat, p: SlotPtr) | SetNr(nr: nat) | SetMax(max: nat)

  function Apply(m: Mem, st: Store): Mem {
    match st
    case SetKey(i, k) => if i < |m.keys| then m.(keys := m.keys[i := k]) else m
    case SetPtr(i, p) => if i < |m.ptrs| then m.(ptrs := m.ptrs[i := p]) else m
    case SetNr(nr) => m.(nr := nr)
    case SetMax(max) => m.(max := max)
  }

  ghost predicate OneStore(m: Mem, n: Mem) {
    exists st :: n == Apply(m, st)
  }

  /** One store that hides no entry in use: nr stays or grows, and only the entry past the k in use may become NULL. */
  ghost predicate StoreStep(m: Mem, n: Mem, k: nat) {
    OneStore(m, n) && NothingLost(m, n, k) && n.nr >= m.nr
  }

  ghost predicate NothingLost(m: Mem, n: Mem, k: nat) {
    |m.ptrs| == |n.ptrs| && forall i {:trigger n.ptrs[i]} :: 0 <= i < |m.ptrs| && n.ptrs[i].Null? ==>
      m.ptrs[i].Null? || i == m.nr == k
  }

  predicate Known(ptr: SlotPtr, b: seq<Slot>, s: Slot) {
    ptr.Ref? ==> ptr.slot == s || ptr.slot in b
  }

  /** The least key is that of the first slot in b, or the new one if that is less; no slot but these is pointed to. */
  ghost predicate Tidy(m: Mem, b: seq<Slot>, s: Slot)
    requires b != []
  {
    && |m.keys| > 0 && m.keys[0] <= b[0].key && (m.keys[0] == b[0].key || m.keys[0] == s.key)
    && m.nr <= |m.ptrs| && forall i {:trigger m.ptrs[i]} :: 0 <= i < m.nr ==> Known(m.ptrs[i], b, s)
  }

  lemma RestTidy(m: Mem, b: seq<Slot>, s: Slot)
    requires AtRest(m, b) && b != []
    ensures Tidy(m, b, s)
  {
  }

  lemma HitIsKnown(m: Mem, b: seq<Slot>, s: Slot, p: nat)
    requires Ordered(b) && b != [] && s.size > 0 && Readable(m) && Tidy(m, b, s) && LeafScan(m, p, 1).Hit?
    ensures var i := LeafScan(m, p, 1).slot;
      i < |m.ptrs| && m.ptrs[i].Ref? && Overlaps(m.ptrs[i].slot, p, 1) && (m.ptrs[i].slot == s || m.ptrs[i].slot in b)
  {
    assert Known(m.ptrs[LeafScan(m, p, 1).slot], b, s);
  }

  /** Whatever a scan hits for a point of an old slot is that slot. */
  lemma HitIsStored(m: Mem, b: seq<Slot>, s: Slot, j: nat, p: nat)
    requires Ordered(b) && b != [] && s.size > 0 && Free(b, s.key, s.size) && Readable(m) && Tidy(m, b, s)
    requires j < |b| && Overlaps(b[j], p, 1) && LeafScan(m, p, 1).Hit?
    ensures FoundOrRetry(m, LeafScan(m, p, 1), b[j])
  {
    HitIsKnown(m, b, s, p);
    var found := m.ptrs[LeafScan(m, p, 1).slot].slot;
    assert !Overlaps(b[j], s.key, s.size);
    if found != s {
      var k :| 0 <= k < |b| && b[k] == found;
      SlotOfPointUnique(b, j, k, p);
    }
  }

  /** Each state in the trace is good for the slots in b, and each follows from the one before by one store. */
  ghost predicate GoodTrace(trace: seq<Mem>, b: seq<Slot>, s: Slot, max: nat, after: nat) {
    && trace != [] && b != []
    && (forall t {:trigger trace[t]} :: 0 <= t < |trace| ==>
          GoodFor(trace[t], b) && Tidy(trace[t], b, s) && (trace[t].max == max || trace[t].max == after))
    && forall t {:trigger trace[t]} :: 0 <= t < |trace| - 1 ==> StoreStep(trace[t], trace[t + 1], |b|)
  }

  lemma TraceGrows(trace: seq<Mem>, b: seq<Slot>, s: Slot, max: nat, after: nat, m: Mem)
    requires GoodTrace(trace, b, s, max, after) && StoreStep(trace[|trace| - 1], m, |b|)
    requires GoodFor(m, b) && Tidy(m, b, s) && (m.max == max || m.max == after)
    ensures GoodTrace(trace + [m], b, s, max, after)
  {
  }

  lemma Stored(m: Mem, st: Store, k: nat)
    requires st.SetPtr? ==> st.p.Ref? || st.i == m.nr == k
    requires st.SetNr? ==> st.nr >= m.nr
    ensures StoreStep(m, Apply(m, st), k)
  {
  }

  /** The entries in use, as long as the leaf has room for one more. */
  ghost predicate HasRoom(m: Mem, b: seq<Slot>, at: nat, s: Slot) {
    && AtRest(m, b) && 1 <= |b| < KEYS_PER_NODE && Ordered(b) && s.size > 0 && at <= |b|
      && Separates(b, at, s.key, s.size)
  }

  ghost predicate NullAt(m: Mem, i: nat) {
    i < |m.ptrs| && m.ptrs[i].Null?
  }

  /** Opening an entry at the end: key, pointer, then nr. */
  method OpenEntry(m0: Mem, ghost b: seq<Slot>, ghost at: nat, ghost s: Slot) returns (m: Mem, ghost trace: seq<Mem>)
    requires HasRoom(m0, b, at, s) && at < |b|
    ensures GoodTrace(trace, b, s, m0.max, m0.max) && trace[0] == m0 && trace[|trace| - 1] == m && m.max == m0.max
    ensures Juggling(m, b, at, s, |b|, Blank)
    ensures |trace| > 2 && NullAt(trace[2], |b|)
  {
    m, trace := m0, [m0];
    RestIsGood(m, b);
    RestTidy(m, b, s);
    Stored(m, SetKey(m.nr, 0), |b|);
    m := m.(keys := m.keys[m.nr := 0]);
    RestIsGood(m, b);
    RestTidy(m, b, s);
    TraceGrows(trace, b, s, m0.max, m0.max, m);
    trace := trace + [m];
    Stored(m, SetPtr(m.nr, Null), |b|);
    m := m.(ptrs := m.ptrs[m.nr := Null]);
    RestIsGood(m, b);
    RestTidy(m, b, s);
    TraceGrows(trace, b, s, m0.max, m0.max, m);
    trace := trace + [m];
    Stored(m, SetNr(m.nr + 1), |b|);
    m := m.(nr := m.nr + 1);
    assert Juggling(m, b, at, s, |b|, Blank);
    JugglingGood(m, b, at, s, |b|, Blank);
    JugglingTidy(m, b, at, s, |b|, Blank);
    TraceGrows(trace, b, s, m0.max, m0.max, m);
    trace := trace + [m];
  }

  lemma KeyMoved(m: Mem, b: seq<Slot>, at: nat, s: Slot, i: nat, h: Hole)
    requires Juggling(m, b, at, s, i, h) && (h == Blank || h == Dup) && at < i
    ensures i < |m.keys| && Juggling(m.(keys := m.keys[i := m.keys[i - 1]]), b, at, s, i, HalfMoved)
  {
  }

  lemma PtrMoved(m: Mem, b: seq<Slot>, at: nat, s: Slot, i: nat)
    requires Juggling(m, b, at, s, i, HalfMoved)
    ensures 0 < i < |m.ptrs| && m.ptrs[i - 1].Ref?
    ensures Juggling(m.(ptrs := m.ptrs[i := m.ptrs[i - 1]]), b, at, s, i - 1, Dup)
  {
  }

  /** One turn of the bubbling loop: the key below comes up, then its pointer. */
  method Bubble(m0: Mem, i: nat, ghost h: Hole, ghost b: seq<Slot>, ghost at: nat, ghost s: Slot, ghost max: nat,
          ghost trace0: seq<Mem>)
    returns (m: Mem, ghost trace: seq<Mem>)
    requires Ordered(b) && s.size > 0 && Separates(b, at, s.key, s.size) && at < i
    requires Juggling(m0, b, at, s, i, h) && (h == Blank || h == Dup) && m0.max == max
    requires GoodTrace(trace0, b, s, max, max) && trace0[|trace0| - 1] == m0
    ensures Juggling(m, b, at, s, i - 1, Dup) && m.max == max
    ensures GoodTrace(trace, b, s, max, max) && trace0 <= trace && trace[|trace| - 1] == m
  {
    hide GoodFor, Ordered, Separates, GoodTrace, StoreStep, Juggling, Tidy;
    TraceStart(trace0, b, s, max);
    KeyMoved(m0, b, at, s, i, h);
    m := m0.(keys := m0.keys[i := m0.keys[i - 1]]);
    Stored(m0, SetKey(i, m0.keys[i - 1]), |b|);
    JugglingGood(m, b, at, s, i, HalfMoved);
    JugglingTidy(m, b, at, s, i, HalfMoved);
    TraceGrows(trace0, b, s, max, max, m);
    trace := trace0 + [m];
    ghost var half := m;
    PtrMoved(m, b, at, s, i);
    m := m.(ptrs := m.ptrs[i := m.ptrs[i - 1]]);
    Stored(half, SetPtr(i, half.ptrs[i - 1]), |b|);
    JugglingGood(m, b, at, s, i - 1, Dup);
    JugglingTidy(m, b, at, s, i - 1, Dup);
    TraceGrows(trace, b, s, max, max, m);
    trace := trace + [m];
  }

  lemma TraceStart(trace: seq<Mem>, b: seq<Slot>, s: Slot, max: nat)
    requires GoodTrace(trace, b, s, max, max)
    ensures trace != [] && b != []
  {
  }

  lemma JugglingTidy(m: Mem, b: seq<Slot>, at: nat, s: Slot, i: nat, h: Hole)
    requires Ordered(b) && s.size > 0 && Separates(b, at, s.key, s.size) && b != [] && Juggling(m, b, at, s, i, h)
    ensures Tidy(m, b, s)
  {
    forall x | 0 <= x < m.nr ensures Known(m.ptrs[x], b, s) {
    }
  }

  lemma NewKeyStored(m: Mem, b: seq<Slot>, at: nat, s: Slot)
    requires Juggling(m, b, at, s, at, Dup)
    ensures at < |m.keys| && Juggling(m.(keys := m.keys[at := s.key]), b, at, s, at, HalfNew)
  {
  }

  lemma NewPtrStored(m: Mem, b: seq<Slot>, at: nat, s: Slot)
    requires Juggling(m, b, at, s, at, HalfNew)
    ensures at < |m.ptrs| && Juggling(m.(ptrs := m.ptrs[at := Ref(s)]), b, at, s, at, Whole)
    ensures AtRest(m.(ptrs := m.ptrs[at := Ref(s)]), Splice(b, at, s))
  {
  }

  /** Stuffing in the new key and pointer where the bubbling stopped. */
  method PutNew(m0: Mem, at: nat, s: Slot, ghost b: seq<Slot>, ghost max: nat, ghost trace0: seq<Mem>)
    returns (m: Mem, ghost trace: seq<Mem>)
    requires Ordered(b) && s.size > 0 && Separates(b, at, s.key, s.size)
    requires Juggling(m0, b, at, s, at, Dup) && m0.max == max
    requires GoodTrace(trace0, b, s, max, max) && trace0[|trace0| - 1] == m0
    ensures AtRest(m, Splice(b, at, s)) && m.max == max
    ensures GoodTrace(trace, b, s, max, max) && trace0 <= trace && trace[|trace| - 1] == m
  {
    hide GoodFor, Ordered, Separates, GoodTrace, StoreStep, Juggling, Tidy, AtRest;
    TraceStart(trace0, b, s, max);
    NewKeyStored(m0, b, at, s);
    m := m0.(keys := m0.keys[at := s.key]);
    Stored(m0, SetKey(at, s.key), |b|);
    JugglingGood(m, b, at, s, at, HalfNew);
    JugglingTidy(m, b, at, s, at, HalfNew);
    TraceGrows(trace0, b, s, max, max, m);
    trace := trace0 + [m];
    ghost var half := m;
    NewPtrStored(m, b, at, s);
    m := m.(ptrs := m.ptrs[at := Ref(s)]);
    Stored(half, SetPtr(at, Ref(s)), |b|);
    JugglingGood(m, b, at, s, at, Whole);
    JugglingTidy(m, b, at, s, at, Whole);
    TraceGrows(trace, b, s, max, max, m);
    trace := trace + [m];
  }

  /** The insert label with room before the end: every store of the shift, in order. */
  method ShiftStores(m0: Mem, at: nat, s: Slot, ghost b: seq<Slot>) returns (m: Mem, ghost trace: seq<Mem>)
    requires HasRoom(m0, b, at, s) && at < |b|
    ensures AtRest(m, Splice(b, at, s)) && m.max == m0.max
    ensures GoodTrace(trace, b, s, m0.max, m0.max) && trace[0] == m0 && trace[|trace| - 1] == m
    ensures |trace| > 2 && NullAt(trace[2], |b|)
  {
    hide GoodFor, Ordered, Separates, GoodTrace, StoreStep, Juggling;
    m, trace := OpenEntry(m0, b, at, s);
    JugglingNr(m, b, at, s, |b|, Blank);
    var i := m.nr - 1;
    ghost var h := Blank;
    TraceStart(trace, b, s, m0.max);
    while i > at
      invariant at <= i <= |b| && (i < |b| ==> h == Dup) && (i == |b| ==> h == Blank)
      invariant Juggling(m, b, at, s, i, h) && m.max == m0.max
      invariant GoodTrace(trace, b, s, m0.max, m0.max) && trace != [] && trace[0] == m0 && trace[|trace| - 1] == m
      invariant |trace| > 2 && NullAt(trace[2], |b|)
    {
      m, trace := Bubble(m, i, h, b, at, s, m0.max, trace);
      TraceStart(trace, b, s, m0.max);
      h := Dup;
      i := i - 1;
    }
    m, trace := PutNew(m, at, s, b, m0.max, trace);
    TraceStart(trace, b, s, m0.max);
  }

  lemma JugglingNr(m: Mem, b: seq<Slot>, at: nat, s: Slot, i: nat, h: Hole)
    requires Juggling(m, b, at, s, i, h)
    ensures m.nr == |b| + 1
  {
  }

  /** The insert label at the end of the leaf: max first, nr last. */
  method AppendStores(m0: Mem, s: Slot, ghost b: seq<Slot>) returns (m: Mem, ghost trace: seq<Mem>)
    requires HasRoom(m0, b, |b|, s)
    ensures AtRest(m, Splice(b, |b|, s)) && m.max == s.End()
    ensures GoodTrace(trace, b, s, m0.max, s.End()) && trace[0] == m0 && trace[|trace| - 1] == m
  {
    hide GoodFor, StoreStep;
    ghost var r := Splice(b, |b|, s);
    SplicedOrder(b, |b|, s);
    m, trace := m0, [m0];
    RestIsGood(m, b);
    RestTidy(m, b, s);
    Stored(m, SetMax(s.End()), |b|);
    m := m.(max := s.End());
    RestIsGood(m, b);
    RestTidy(m, b, s);
    TraceGrows(trace, b, s, m0.max, s.End(), m);
    trace := trace + [m];
    Stored(m, SetKey(m.nr, s.key), |b|);
    m := m.(keys := m.keys[m.nr := s.key]);
    RestIsGood(m, b);
    RestTidy(m, b, s);
    TraceGrows(trace, b, s, m0.max, s.End(), m);
    trace := trace + [m];
    Stored(m, SetPtr(m.nr, Ref(s)), |b|);
    m := m.(ptrs := m.ptrs[m.nr := Ref(s)]);
    RestIsGood(m, b);
    RestTidy(m, b, s);
    TraceGrows(trace, b, s, m0.max, s.End(), m);
    trace := trace + [m];
    Stored(m, SetNr(m.nr + 1), |b|);
    m := m.(nr := m.nr + 1);
    RestIsGood(m, r);
    GoodForLess(m, r, b);
    GrownTidy(m, b, s);
    TraceGrows(trace, b, s, m0.max, s.End(), m);
    trace := trace + [m];
  }

  lemma GrownTidy(m: Mem, b: seq<Slot>, s: Slot)
    requires b != [] && AtRest(m, Splice(b, |b|, s))
    ensures Tidy(m, b, s)
  {
    var r := Splice(b, |b|, s);
    forall i | 0 <= i < m.nr ensures Known(m.ptrs[i], b, s) {
      assert m.ptrs[i] == Ref(r[i]);
    }
  }

  lemma GoodForLess(m: Mem, r: seq<Slot>, b: seq<Slot>)
    requires GoodFor(m, r) && |b| <= |r| && forall j :: 0 <= j < |b| ==> r[j] == b[j]
    ensures GoodFor(m, b)
  {
  }

  // ---- the whole of add_key_to_leaf

  /** A slot put between others is no obstacle to finding the others. */
  lemma GoodWithout(m: Mem, b: seq<Slot>, i: nat, s: Slot)
    requires i <= |b| && GoodFor(m, Splice(b, i, s))
    ensures GoodFor(m, b)
  {
    forall j, p: nat | 0 <= j < |b| && b[j].key <= p < b[j].End() ensures FoundOrRetry(m, LeafScan(m, p, 1), b[j]) {
      assert Splice(b, i, s)[if j < i then j else j + 1] == b[j];
    }
  }

  /** The new leaf is linked, or one store is made in the old one; the new one stays as it was filled. */
  ghost predicate ViewStep(v: View, w: View) {
    && w.split == v.split && v.stage <= w.stage
    && if v.stage == 0 && w.stage > 0 then w == v.(stage := 1) else OneStore(v.leaf, w.leaf)
  }

  /** As for one leaf: only lowering nr at the end of a split takes entries out of use. */
  ghost predicate NoSlotLost(v: View, w: View, q: seq<Slot>, cut: nat) {
    && NothingLost(v.leaf, w.leaf, if v.stage == 3 then cut else |q|)
    && (w.leaf.nr >= v.leaf.nr || v.stage < w.stage == 3)
  }

  /** All states of a run of stores are good views, each a step after the one before. */
  ghost predicate GoodViews(trace: seq<View>, q: seq<Slot>, s: Slot, cut: nat)
    requires q != [] && cut <= |q|
  {
    && trace != []
    && (forall t {:trigger trace[t]} :: 0 <= t < |trace| ==> GoodView(trace[t], q, cut) && ViewBounds(trace[t], q, s))
    && (forall t, u :: 0 <= t <= u < |trace| ==> trace[t].stage <= trace[u].stage)
    && (forall t {:trigger trace[t]} :: 0 <= t < |trace| - 1 ==> ViewStep(trace[t], trace[t + 1]))
    && (forall t {:trigger trace[t]} :: 0 <= t < |trace| - 1 ==> NoSlotLost(trace[t], trace[t + 1], q, cut))
  }

  function WithSplit(mems: seq<Mem>, split: Mem, stage: nat): (r: seq<View>)
    ensures |r| == |mems| && forall t :: 0 <= t < |mems| ==> r[t] == View(mems[t], split, stage)
  {
    seq(|mems|, t requires 0 <= t < |mems| => View(mems[t], split, stage))
  }

  lemma ViewsConcat(a: seq<View>, b: seq<View>, q: seq<Slot>, s: Slot, cut: nat)
    requires q != [] && cut <= |q| && GoodViews(a, q, s, cut) && GoodViews(b, q, s, cut)
    requires a[|a| - 1] == b[0] && b[0].stage > 0
    ensures GoodViews(a + b, q, s, cut)
  {
    Stored(b[0].leaf, SetNr(b[0].leaf.nr), 0);
    forall t | 0 <= t < |a + b| - 1
      ensures ViewStep((a + b)[t], (a + b)[t + 1]) && NoSlotLost((a + b)[t], (a + b)[t + 1], q, cut)
    {
      if t < |a| - 1 {
        assert ViewStep(a[t], a[t + 1]) && NoSlotLost(a[t], a[t + 1], q, cut);
      } else if t >= |a| {
        assert ViewStep(b[t - |a|], b[t - |a| + 1]) && NoSlotLost(b[t - |a|], b[t - |a| + 1], q, cut);
      }
    }
  }

  lemma FirstEnds(q: seq<Slot>, k: nat)
    requires Ordered(q) && k < |q|
    ensures q[0].End() <= q[k].End()
  {
    assert k > 0 ==> q[0].End() <= q[k].key;
  }

  /** States of the old leaf alone, with the new leaf unlinked or fully linked beside it. */
  lemma LeafViews(mems: seq<Mem>, b: seq<Slot>, after: nat, v: View, q: seq<Slot>, s: Slot, cut: nat)
    requires Ordered(q) && q != [] && cut <= |q| && b != [] && b[0] == q[0]
      && b == (if v.stage == 3 then q[..cut] else q)
    requires GoodView(v, q, cut) && ViewBounds(v, q, s) && ((v.stage == 0 && cut == |q|) || v.stage == 3)
    requires GoodTrace(mems, b, s, v.leaf.max, after)
    requires after == v.leaf.max || (v.stage == 0 && q[|q| - 1].End() <= after == s.End())
    ensures GoodViews(WithSplit(mems, v.split, v.stage), q, s, cut)
  {
    hide GoodFor, Ordered, OneStore, GoodTrace, GoodView, ViewBounds, ViewStep, NoSlotLost;
    var trace := WithSplit(mems, v.split, v.stage);
    TraceLength(mems, b, s, v.leaf.max, after);
    forall t | 0 <= t < |trace| ensures GoodView(trace[t], q, cut) && ViewBounds(trace[t], q, s) {
      TraceState(mems, b, s, v.leaf.max, after, t);
      LeafView(mems[t], b, after, v, q, s, cut);
    }
    forall t | 0 <= t < |trace| - 1
      ensures ViewStep(trace[t], trace[t + 1]) && NoSlotLost(trace[t], trace[t + 1], q, cut)
    {
      TraceStep(mems, b, s, v.leaf.max, after, t);
      LeafStep(mems[t], mems[t + 1], v, q, cut);
    }
  }

  lemma TraceLength(trace: seq<Mem>, b: seq<Slot>, s: Slot, max: nat, after: nat)
    requires GoodTrace(trace, b, s, max, after)
    ensures trace != []
  {
  }

  lemma TraceState(trace: seq<Mem>, b: seq<Slot>, s: Slot, max: nat, after: nat, t: nat)
    requires GoodTrace(trace, b, s, max, after) && t < |trace|
    ensures GoodFor(trace[t], b) && b != [] && Tidy(trace[t], b, s) && (trace[t].max == max || trace[t].max == after)
  {
    hide GoodFor, Tidy, StoreStep;
  }

  lemma TraceStep(trace: seq<Mem>, b: seq<Slot>, s: Slot, max: nat, after: nat, t: nat)
    requires GoodTrace(trace, b, s, max, after) && t + 1 < |trace|
    ensures StoreStep(trace[t], trace[t + 1], |b|)
  {
    hide GoodFor, Tidy, StoreStep;
  }

  lemma LeafView(m: Mem, b: seq<Slot>, after: nat, v: View, q: seq<Slot>, s: Slot, cut: nat)
    requires Ordered(q) && q != [] && cut <= |q| && b != [] && b[0] == q[0]
      && b == (if v.stage == 3 then q[..cut] else q)
    requires GoodView(v, q, cut) && ViewBounds(v, q, s) && ((v.stage == 0 && cut == |q|) || v.stage == 3)
    requires GoodFor(m, b) && Tidy(m, b, s) && (m.max == v.leaf.max || m.max == after)
    requires after == v.leaf.max || (v.stage == 0 && q[|q| - 1].End() <= after == s.End())
    ensures GoodView(View(m, v.split, v.stage), q, cut) && ViewBounds(View(m, v.split, v.stage), q, s)
  {
    FirstEnds(q, |q| - 1);
    hide GoodFor, Ordered;
  }

  lemma LeafStep(m: Mem, n: Mem, v: View, q: seq<Slot>, cut: nat)
    requires cut <= |q| && StoreStep(m, n, if v.stage == 3 then cut else |q|)
    ensures ViewStep(View(m, v.split, v.stage), View(n, v.split, v.stage))
    ensures NoSlotLost(View(m, v.split, v.stage), View(n, v.split, v.stage), q, cut)
  {
    hide OneStore;
  }

  /** add_key_to_leaf on a leaf with room: only the leaf itself changes. */
  method AddWithRoom(m0: Mem, at: nat, s: Slot, ghost q: seq<Slot>, split: Mem) returns (m: Mem, ghost trace: seq<View>)
    requires HasRoom(m0, q, at, s) && m0.max == q[|q| - 1].End()
    ensures AtRest(m, Splice(q, at, s)) && m.max == if at < |q| then m0.max else s.End()
    ensures GoodViews(trace, q, s, |q|) && trace[0] == View(m0, split, 0) && trace[|trace| - 1] == View(m, split, 0)
    ensures forall t {:trigger trace[t]} :: 0 <= t < |trace| ==> trace[t].stage == 0
  {
    hide GoodFor, Ordered, OneStore, GoodView, ViewBounds, GoodViews, GoodTrace, AtRest, Separates;
    AloneView(m0, split, q, s);
    RestNr(m0, q);
    ghost var mems;
    if at < m0.nr {
      m, mems := ShiftStores(m0, at, s, q);
    } else {
      m, mems := AppendStores(m0, s, q);
    }
    trace := WithSplit(mems, split, 0);
    EndsPast(q, at, s);
    LeafViews(mems, q, if at < m0.nr then m0.max else s.End(), View(m0, split, 0), q, s, |q|);
  }

  lemma AloneView(m: Mem, split: Mem, q: seq<Slot>, s: Slot)
    requires AtRest(m, q) && Ordered(q) && q != [] && m.max == q[|q| - 1].End()
    ensures GoodView(View(m, split, 0), q, |q|) && ViewBounds(View(m, split, 0), q, s)
  {
    RestIsGood(m, q);
    FirstEnds(q, |q| - 1);
  }

  lemma EndsPast(q: seq<Slot>, at: nat, s: Slot)
    requires q != [] && at <= |q| && Separates(q, at, s.key, s.size)
    ensures at == |q| ==> q[|q| - 1].End() <= s.key
  {
  }

  ghost predicate FullLeaf(m: Mem, q: seq<Slot>, at: nat, s: Slot) {
    && AtRest(m, q) && |q| == KEYS_PER_NODE && m.max == q[|q| - 1].End()
    && Ordered(q) && s.size > 0 && at <= |q| && Separates(q, at, s.key, s.size)
  }

  function BlankMem(): Mem {
    Mem(seq(KEYS_PER_NODE + 1, _ => 0), seq(KEYS_PER_NODE + 1, _ => Null), 1, 0)
  }

  /** A leaf holding exactly u. */
  function Filled(u: seq<Slot>): Mem
    requires 1 <= |u| <= KEYS_PER_NODE
  {
    Mem(seq(KEYS_PER_NODE + 1, i requires 0 <= i => if i < |u| then u[i].key else 0),
        seq(KEYS_PER_NODE + 1, i requires 0 <= i => if i < |u| then Ref(u[i]) else Null), |u|, u[|u| - 1].End())
  }

  lemma FilledAtRest(u: seq<Slot>)
    requires 1 <= |u| <= KEYS_PER_NODE
    ensures AtRest(Filled(u), u) && Filled(u).max == u[|u| - 1].End() && Filled(u).keys[0] == u[0].key
  {
  }

  /** The slot goes past the end of a full leaf: a new leaf takes it alone, and only the link is visible. */
  method AddPastFull(m0: Mem, s: Slot, ghost q: seq<Slot>) returns (v: View, ghost trace: seq<View>)
    requires FullLeaf(m0, q, |q|, s)
    ensures v.leaf == m0 && v.stage == 1 && AtRest(v.split, [s]) && v.split.max == s.End()
    ensures GoodViews(trace, q, s, |q|) && trace == [View(m0, v.split, 0), v]
  {
    AloneView(m0, Filled([s]), q, s);
    PastView(m0, q, s);
    EndsPast(q, |q|, s);
    FilledAtRest([s]);
    hide GoodFor, Ordered;
    v := View(m0, Filled([s]), 0);
    trace := [v];
    v := v.(stage := 1);
    trace := trace + [v];
  }

  lemma PastView(m0: Mem, q: seq<Slot>, s: Slot)
    requires FullLeaf(m0, q, |q|, s)
    ensures GoodView(View(m0, Filled([s]), 1), q, |q|) && ViewBounds(View(m0, Filled([s]), 1), q, s)
  {
    EndsPast(q, |q|, s);
    AloneView(m0, Filled([s]), q, s);
    FilledAtRest([s]);
    OneSlotOrder(s);
    RestIsGood(Filled([s]), [s]);
    assert q[..|q|] == q && q[|q|..] == [];
    GoodForLess(Filled([s]), [s], []);
    hide GoodFor, Ordered;
  }

  lemma OneSlotOrder(s: Slot)
    requires s.size > 0
    ensures Ordered([s])
  {
  }

  /** The upper half of a full leaf, with the slot when it belongs there, in key order. */
  lemma UpperHalfOrder(q: seq<Slot>, at: nat, s: Slot)
    requires |q| == KEYS_PER_NODE && at < KEYS_PER_NODE && Ordered(q) && s.size > 0 && Separates(q, at, s.key, s.size)
    ensures Ordered(q[..HALF]) && Ordered(q[HALF..]) && Ordered(Leaf.UpperHalf(q, at, s))
    ensures at < HALF ==> Leaf.UpperHalf(q, at, s) == q[HALF..] && Separates(q[..HALF], at, s.key, s.size)
    ensures at >= HALF ==> Leaf.UpperHalf(q, at, s) == Splice(q[HALF..], at - HALF, s)
    ensures at >= HALF ==> Separates(q[HALF..], at - HALF, s.key, s.size)
    ensures q[HALF - 1].End() <= Leaf.UpperHalf(q, at, s)[0].key <= q[HALF].key
    ensures Leaf.UpperHalf(q, at, s)[0] == q[HALF] || Leaf.UpperHalf(q, at, s)[0] == s
    ensures var u := Leaf.UpperHalf(q, at, s); 1 <= |u| <= KEYS_PER_NODE && u[|u| - 1].End() == q[|q| - 1].End()
  {
    hide Ordered, Separates, Splice;
    HalvesInOrder(q);
    SlotAtHalf(q, at, s);
    if at >= HALF {
      HighSeparates(q, at, s);
      SplicedOrder(q[HALF..], at - HALF, s);
      UpperHalfIsSplice(q, at, s);
      SpliceEnds(q[HALF..], at - HALF, s);
    } else {
      LowSeparates(q, at, s);
    }
  }

  lemma HalvesInOrder(q: seq<Slot>)
    requires |q| == KEYS_PER_NODE && Ordered(q)
    ensures Ordered(q[..HALF]) && Ordered(q[HALF..]) && |q[HALF..]| == HALF
    ensures q[HALF - 1].End() <= q[HALF].key && q[HALF] == q[HALF..][0] && q[|q| - 1] == q[HALF..][HALF - 1]
  {
  }

  lemma UpperHalfIsSplice(q: seq<Slot>, at: nat, s: Slot)
    requires |q| == KEYS_PER_NODE && HALF <= at < |q|
    ensures Leaf.UpperHalf(q, at, s) == Splice(q[HALF..], at - HALF, s)
  {
  }

  /** Splicing before the last element keeps the last, and the first is old or new. */
  lemma SpliceEnds(hi: seq<Slot>, i: nat, s: Slot)
    requires i < |hi|
    ensures |Splice(hi, i, s)| == |hi| + 1 && Splice(hi, i, s)[|hi|] == hi[|hi| - 1]
    ensures Splice(hi, i, s)[0] == if i == 0 then s else hi[0]
  {
  }

  lemma SlotAtHalf(q: seq<Slot>, at: nat, s: Slot)
    requires |q| == KEYS_PER_NODE && Separates(q, at, s.key, s.size)
    ensures at == HALF ==> q[HALF - 1].End() <= s.key <= q[HALF].key
  {
  }

  lemma LowSeparates(q: seq<Slot>, at: nat, s: Slot)
    requires |q| == KEYS_PER_NODE && at < HALF && Separates(q, at, s.key, s.size)
    ensures Separates(q[..HALF], at, s.key, s.size)
  {
  }

  lemma HighSeparates(q: seq<Slot>, at: nat, s: Slot)
    requires |q| == KEYS_PER_NODE && HALF <= at < |q| && Separates(q, at, s.key, s.size)
    ensures Separates(q[HALF..], at - HALF, s.key, s.size)
  {
  }

  /** The new leaf of a split, as filled before it is linked. */
  ghost predicate GoodHalf(u: Mem, q: seq<Slot>, s: Slot)
    requires |q| == KEYS_PER_NODE
  {
    && GoodFor(u, q[HALF..]) && q[HALF - 1].End() <= u.keys[0] <= q[HALF].key
    && (u.keys[0] == q[HALF].key || u.keys[0] == s.key) && u.max == q[|q| - 1].End()
  }

  lemma HalfView(m: Mem, u: Mem, q: seq<Slot>, s: Slot, stage: nat)
    requires |q| == KEYS_PER_NODE && GoodHalf(u, q, s) && stage <= 3 && Ordered(q)
    requires AtRest(m, if stage == 3 then q[..HALF] else q) && Ordered(if stage == 3 then q[..HALF] else q)
    requires if stage >= 2 then m.max == q[HALF - 1].End() else m.max == q[|q| - 1].End()
    ensures GoodView(View(m, u, stage), q, HALF) && ViewBounds(View(m, u, stage), q, s)
  {
    var b := if stage == 3 then q[..HALF] else q;
    RestIsGood(m, b);
    RestTidy(m, b, s);
    RestFirst(m, b);
    TidyInWhole(m, q, s, stage);
    HalfGood(View(m, u, stage), q, s);
    HalfBounds(View(m, u, stage), q, s);
    hide *;
  }

  lemma HalfGood(v: View, q: seq<Slot>, s: Slot)
    requires |q| == KEYS_PER_NODE && GoodHalf(v.split, q, s) && v.stage <= 3 && Ordered(q)
    requires v.stage < 3 ==> AtRest(v.leaf, q)
    requires GoodFor(v.leaf, if v.stage == 3 then q[..HALF] else q) && |v.leaf.keys| > 0 && v.leaf.keys[0] == q[0].key
    requires if v.stage >= 2 then v.leaf.max == q[HALF - 1].End() else v.leaf.max == q[|q| - 1].End()
    ensures GoodView(v, q, HALF)
  {
    hide GoodFor, Ordered;
  }

  lemma HalfBounds(v: View, q: seq<Slot>, s: Slot)
    requires |q| == KEYS_PER_NODE && GoodHalf(v.split, q, s) && Ordered(q) && Tidy(v.leaf, q, s) && |v.split.keys| > 0
    requires v.leaf.max == q[HALF - 1].End() || v.leaf.max == q[|q| - 1].End()
    ensures ViewBounds(v, q, s)
  {
    FirstEnds(q, HALF - 1);
    FirstEnds(q, |q| - 1);
    HalfEnds(q);
    assert q[0].End() <= q[HALF - 1].End() && q[0].key < q[0].End();
    hide GoodFor, Ordered, Tidy;
  }

  lemma RestFirst(m: Mem, b: seq<Slot>)
    requires AtRest(m, b) && b != []
    ensures |m.keys| > 0 && m.keys[0] == b[0].key
  {
  }

  lemma TidyInWhole(m: Mem, q: seq<Slot>, s: Slot, stage: nat)
    requires |q| == KEYS_PER_NODE && Tidy(m, if stage == 3 then q[..HALF] else q, s)
    ensures Tidy(m, q, s)
  {
    if stage == 3 {
      forall i | 0 <= i < m.nr ensures Known(m.ptrs[i], q, s) {
        assert Known(m.ptrs[i], q[..HALF], s);
      }
    }
  }

  lemma HalfEnds(q: seq<Slot>)
    requires |q| == KEYS_PER_NODE && Ordered(q)
    ensures q[HALF - 1].End() <= q[HALF].key < q[|q| - 1].End()
  {
  }

  lemma LowersNr(m: Mem, nr: nat)
    ensures OneStore(m, m.(nr := nr)) && NothingLost(m, m.(nr := nr), 0)
  {
    assert m.(nr := nr) == Apply(m, SetNr(nr));
  }

  /** The split: link the filled new leaf, lower max, lower nr. */
  method SplitStores(m0: Mem, at: nat, s: Slot, q: seq<Slot>) returns (v: View, ghost trace: seq<View>)
    requires FullLeaf(m0, q, at, s) && at < |q|
    ensures v.stage == 3 && AtRest(v.leaf, q[..HALF]) && v.leaf.max == q[HALF - 1].End()
    ensures AtRest(v.split, Leaf.UpperHalf(q, at, s)) && v.split.max == q[|q| - 1].End()
    ensures GoodViews(trace, q, s, HALF) && |trace| == 4 && trace[0] == View(m0, v.split, 0) && trace[3] == v
    ensures trace[1] == View(m0, v.split, 1) && trace[2].stage == 2
  {
    hide GoodFor, Ordered, Separates, Leaf.UpperHalf, GoodView, ViewBounds, OneStore, GoodViews, NoSlotLost, StoreStep;
    UpperHalfOrder(q, at, s);
    SplitIsGood(q, at, s);
    v := SplitOff(m0, at, s, q);
    ghost var u := v.split;
    HalfView(m0, u, q, s, 0);
    v := v.(stage := 1);
    HalfView(m0, u, q, s, 1);
    Stored(v.leaf, SetMax(v.leaf.keys[HALF - 1] + v.leaf.ptrs[HALF - 1].slot.size), 0);
    v := v.(leaf := v.leaf.(max := v.leaf.keys[HALF - 1] + v.leaf.ptrs[HALF - 1].slot.size), stage := 2);
    HalfView(v.leaf, u, q, s, 2);
    ghost var v2 := v;
    LowersNr(v.leaf, HALF);
    v := v.(leaf := v.leaf.(nr := HALF), stage := 3);
    HalfView(v.leaf, u, q, s, 3);
    trace := [View(m0, u, 0), View(m0, u, 1), v2, v];
    NrLowered(v2, v, q, HALF);
    FourViews(trace, q, s, HALF);
  }

  lemma NrLowered(v: View, w: View, q: seq<Slot>, cut: nat)
    requires v.stage == 2 && w.stage == 3 && w.leaf == v.leaf.(nr := w.leaf.nr)
    ensures NoSlotLost(v, w, q, cut)
  {
  }

  lemma FourViews(trace: seq<View>, q: seq<Slot>, s: Slot, cut: nat)
    requires q != [] && cut <= |q| && |trace| == 4
    requires forall t {:trigger trace[t]} :: 0 <= t < 4 ==> trace[t].stage == t
    requires forall t {:trigger trace[t]} :: 0 <= t < 4 ==> GoodView(trace[t], q, cut) && ViewBounds(trace[t], q, s)
    requires trace[1] == trace[0].(stage := 1) && trace[1].split == trace[2].split == trace[3].split
    requires StoreStep(trace[1].leaf, trace[2].leaf, 0) && trace[2].leaf.ptrs == trace[1].leaf.ptrs
    requires OneStore(trace[2].leaf, trace[3].leaf) && NoSlotLost(trace[2], trace[3], q, cut)
    ensures GoodViews(trace, q, s, cut)
  {
    hide GoodView, ViewBounds, OneStore;
  }

  /** The new leaf as the copying loops of the split fill it, before it is linked. */
  function SplitOff(m0: Mem, at: nat, s: Slot, q: seq<Slot>): View
    requires |q| == KEYS_PER_NODE && at < KEYS_PER_NODE
  {
    UpperHalfSize(q, at, s);
    View(m0, Filled(Leaf.UpperHalf(q, at, s)), 0)
  }

  lemma UpperHalfSize(q: seq<Slot>, at: nat, s: Slot)
    requires |q| == KEYS_PER_NODE && at < KEYS_PER_NODE
    ensures 1 <= |Leaf.UpperHalf(q, at, s)| <= KEYS_PER_NODE
  {
  }

  lemma SplitIsGood(q: seq<Slot>, at: nat, s: Slot)
    requires |q| == KEYS_PER_NODE && at < KEYS_PER_NODE && Ordered(q) && s.size > 0 && Separates(q, at, s.key, s.size)
    ensures var u := Leaf.UpperHalf(q, at, s);
      && 1 <= |u| <= KEYS_PER_NODE && AtRest(Filled(u), u) && GoodFor(Filled(u), q[HALF..])
      && q[HALF - 1].End() <= Filled(u).keys[0] <= q[HALF].key && Filled(u).max == q[|q| - 1].End()
      && (Filled(u).keys[0] == q[HALF].key || Filled(u).keys[0] == s.key)
  {
    hide GoodFor, Ordered, Separates, Leaf.UpperHalf;
    var u := Leaf.UpperHalf(q, at, s);
    UpperHalfOrder(q, at, s);
    FilledAtRest(u);
    RestIsGood(Filled(u), u);
    if at >= HALF {
      GoodWithout(Filled(u), q[HALF..], at - HALF, s);
    }
  }

  /** A split whose slot goes into the lower half reopens the first entry that it gave away, with NULL in it. */
  ghost predicate Reopened(v: View, cut: nat) {
    v.stage == 3 && NullAt(v.leaf, cut)
  }

  /** The rest of a split insert when the slot belongs in the lower half: shift it into the old leaf. */
  method ShiftIntoLower(v0: View, at: nat, s: Slot, ghost q: seq<Slot>) returns (v: View, ghost trace: seq<View>)
    requires |q| == KEYS_PER_NODE && at < HALF && Ordered(q) && s.size > 0 && Separates(q, at, s.key, s.size)
    requires GoodView(v0, q, HALF) && ViewBounds(v0, q, s) && v0.stage == 3 && AtRest(v0.leaf, q[..HALF])
    ensures v == v0.(leaf := v.leaf) && AtRest(v.leaf, Splice(q[..HALF], at, s)) && v.leaf.max == v0.leaf.max
    ensures GoodViews(trace, q, s, HALF) && trace[0] == v0 && trace[|trace| - 1] == v
    ensures |trace| > 2 && Reopened(trace[2], HALF)
  {
    hide GoodFor, Ordered, OneStore, GoodView, ViewBounds, GoodViews;
    ghost var b := q[..HALF];
    HalvesInOrder(q);
    LowSeparates(q, at, s);
    var m;
    ghost var mems;
    m, mems := ShiftStores(v0.leaf, at, s, b);
    v := v0.(leaf := m);
    trace := WithSplit(mems, v0.split, 3);
    LeafViews(mems, b, v0.leaf.max, v0, q, s, HALF);
  }

  /** What the stores leave: the leaf, or the leaf and the one split off it, as AddKey says. */
  ghost predicate Result(v: View, l: LeafVal, at: nat, s: Slot, height: nat)
    requires 1 <= |l.slots| <= KEYS_PER_NODE && at <= |l.slots|
  {
    var r := AddKey(l, at, s, height);
    && AtRest(v.leaf, r[0].slots) && v.leaf.max == r[0].Max()
    && (|r| == 2 <==> v.stage >= 1)
    && (|r| == 2 ==> AtRest(v.split, r[1].slots) && v.split.max == r[1].Max())
  }

  /** The stores of a split, and of the shift into the lower half if the slot belongs there. */
  method SplitAndShift(m0: Mem, at: nat, s: Slot, q: seq<Slot>, ghost height: nat)
    returns (v: View, ghost trace: seq<View>)
    requires FullLeaf(m0, q, at, s) && at < |q|
    ensures GoodViews(trace, q, s, HALF) && |trace| >= 2 && v.stage > 0
    ensures trace[0] == View(m0, v.split, 0) && trace[1] == View(m0, v.split, 1) && trace[|trace| - 1] == v
    ensures at < HALF ==> exists t :: 0 <= t < |trace| && Reopened(trace[t], HALF)
    ensures Result(v, LeafVal(q, height), at, s, height)
  {
    hide GoodFor, Ordered, AtRest, GoodViews, Separates, OneStore;
    v, trace := SplitStores(m0, at, s, q);
    if at < HALF {
      ghost var more;
      LastIsGood(trace, q, s, HALF);
      ghost var first := trace;
      v, more := ShiftIntoLower(v, at, s, q);
      LastIsGood(more, q, s, HALF);
      ViewsConcat(first, more, q, s, HALF);
      trace := first + more;
      assert trace[|first| + 2] == more[2];
    }
  }

  /**
   Every store add_key_to_leaf makes in the leaf and, from the moment it is linked, the one split off it: they
   end up as specified, and every state on the way is good for the slots stored before.
   */
  method AddKeyStores(m0: Mem, at: nat, s: Slot, q: seq<Slot>, ghost height: nat)
    returns (v: View, ghost trace: seq<View>, ghost cut: nat)
    requires AtRest(m0, q) && 1 <= |q| <= KEYS_PER_NODE && m0.max == q[|q| - 1].End()
    requires Ordered(q) && s.size > 0 && at <= |q| && Separates(q, at, s.key, s.size)
    ensures 0 < cut <= |q| && GoodViews(trace, q, s, cut)
    ensures trace[0] == View(m0, v.split, 0) && trace[|trace| - 1] == v
    ensures if v.stage == 0 then forall t {:trigger trace[t]} :: 0 <= t < |trace| ==> trace[t].stage == 0
      else |trace| >= 2 && trace[1] == View(m0, v.split, 1)
    ensures |q| == KEYS_PER_NODE && at < HALF ==>
      cut == HALF && exists t :: 0 <= t < |trace| && Reopened(trace[t], HALF)
    ensures Result(v, LeafVal(q, height), at, s, height)
  {
    hide GoodFor, Ordered, AtRest, GoodViews, Separates, OneStore;
    if |q| < KEYS_PER_NODE {
      RestNr(m0, q);
      var m;
      cut := |q|;
      m, trace := AddWithRoom(m0, at, s, q, BlankMem());
      v := View(m, BlankMem(), 0);
    } else if at == |q| {
      cut := |q|;
      v, trace := AddPastFull(m0, s, q);
    } else {
      cut := HALF;
      v, trace := SplitAndShift(m0, at, s, q, height);
    }
  }

  lemma RestNr(m: Mem, q: seq<Slot>)
    requires AtRest(m, q)
    ensures m.nr == |q|
  {
  }

  lemma LastIsGood(trace: seq<View>, q: seq<Slot>, s: Slot, cut: nat)
    requires q != [] && cut <= |q| && GoodViews(trace, q, s, cut)
    ensures trace != [] && GoodView(trace[|trace| - 1], q, cut) && ViewBounds(trace[|trace| - 1], q, s)
  {
  }
}
