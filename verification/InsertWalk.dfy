/** The descent of an insert over the levels on which it must lock what it passes. */
module InsertWalk {
  import opened Sequences
  import opened Towers
  import opened IndexSpec
  import opened SkipLists
  import opened Inserting
  import opened Lookup
  import opened Cursors

  /** Cursor entry j is the last node of level j ending by the key; c is its position and y the next one's. */
  ghost predicate EntryAt(list: SkipList, cursor: seq<Node?>, j: nat, key: nat, x: nat, c: nat, y: nat)
    reads list`lists, list`leaves
  {
    j < |cursor| && cursor[j] != null && c <= x && list.At(cursor[j], c, j) && Stopped(list, c, y, j, key)
  }

  ghost predicate Entry(list: SkipList, cursor: seq<Node?>, j: nat, key: nat, x: nat)
    reads list`lists, list`leaves
  {
    exists c: nat, y: nat :: EntryAt(list, cursor, j, key, x, c, y)
  }

  /** Entries above `level`, up to `pending`, are final; the one at `level` is empty or a node already locked. */
  ghost predicate CursorDownTo(list: SkipList, cursor: seq<Node?>, level: int, pending: nat, key: nat, x: nat)
    reads list`lists, list`leaves
  {
    && -1 <= level <= pending < SKIP_MAXLEVEL && |cursor| == SKIP_MAXLEVEL + 1
    && NullFrom(cursor, pending + 1) && NullBelow(cursor, level) && Consecutive(cursor)
    && (forall j {:trigger cursor[j]} {:trigger Entry(list, cursor, j, key, x)} :: level < j <= pending ==>
      Entry(list, cursor, j, key, x))
    && (level >= 0 && level < pending ==> cursor[level] == null || cursor[level] == cursor[level + 1])
  }

  /** Walking at `level` with exactly the cursor and p locked. */
  ghost predicate Descending(list: SkipList, cpu: Cpu, level: int, pending: nat, key: nat, p: Node, x: nat)
    reads list`lists, list`leaves, list`nodes, cpu`cursor, cpu`held
  {
    && CursorDownTo(list, cpu.cursor, level, pending, key, x)
    && Walking(list, p, x, level, key)
    && cpu.held == Entries(cpu.cursor) + {p} && cpu.held <= list.nodes
    && RightOfIsFree(list, cpu, x)
  }

  /** The leaf at position y takes the key: it holds it, or it is where the walk at level 0 ended. */
  ghost predicate TakesKey(list: SkipList, x: nat, y: nat, key: nat)
    reads list`lists, list`leaves
  {
    && x <= y && 0 < y <= |list.leaves| && Passed(list.leaves, x, key)
    && list.leaves[y - 1].slots != []
    && (list.leaves[y - 1].Min() <= key || y == x + 1)
    && (key < list.leaves[y - 1].Max() || y == |list.leaves|)
    && (x < y ==> key < list.leaves[y - 1].Max())
  }

  lemma TakerIsHome(list: SkipList, x: nat, y: nat, key: nat)
    requires list.Valid() && TakesKey(list, x, y, key)
    ensures list.leaves != [] && y - 1 == Home(list.leaves, key)
  {
    hide SkipList.Valid, WellFormed;
    list.WellFormedLeaves();
    WellFormedIsSized(list.leaves);
    var ls := list.leaves;
    var k := Home(ls, key);
    TwoLeaves(ls, k, y - 1);
    TwoLeaves(ls, k, if x > 0 then x - 1 else 0);
  }

  /** A final entry above the taker's tower is what the new node links after on that level. */
  lemma EntryPrecedes(list: SkipList, cursor: seq<Node?>, j: nat, key: nat, x: nat, y: nat, home: Node)
    requires list.Valid() && Entry(list, cursor, j, key, x) && TakesKey(list, x, y, key)
    requires list.At(home, y, 0) && home.level < j
    ensures j < |cursor| && cursor[j] != null && exists c: nat :: Precedes(list.lists[0], y, cursor[j], c, j)
  {
    hide SkipList.Valid, WellFormed;
    var c: nat, y': nat :| EntryAt(list, cursor, j, key, x, c, y');
    list.WellFormedLeaves();
    list.Basics();
    if y' < |list.lists[0]| {
      TwoLeaves(list.leaves, y' - 1, y - 1);
      TwoLeaves(list.leaves, y' - 1, if x > 0 then x - 1 else 0);
    }
    assert Precedes(list.lists[0], y, cursor[j], c, j);
  }

  /** Locks the leaf after p and checks that nothing came between them; alone nothing does. */
  method LockLeaf(list: SkipList, cpu: Cpu, leaf: Node, level: nat, p: Node, ghost x: nat, ghost y: nat)
    requires list.Valid() && level < SKIP_MAXLEVEL && RightOfIsFree(list, cpu, x)
    requires list.At(p, x, level) && list.Follows(leaf, x, y, level)
    modifies cpu`held
    ensures cpu.held == old(cpu.held) + {leaf} && leaf !in old(cpu.held)
    ensures RightOfIsFree(list, cpu, y)
  {
    hide SkipList.Valid;
    list.LockNode(cpu, leaf, y);
    var next, y' := list.NextLeaf(p, level, x);
    var prev := list.PrevLeaf(leaf, level, p, x, y);
    NextIsUnique(list, leaf, next, x, y, y', level);
    if leaf.dead || next != leaf || prev != p {
      assert false;
    }
    OnlyToTheLeft(list, cpu, old(cpu.held), leaf, x, y);
  }

  lemma NextIsUnique(list: SkipList, m: Node?, n: Node?, x: nat, y: nat, y': nat, level: int)
    requires list.Follows(m, x, y, level) && list.Follows(n, x, y', level)
    ensures m == n && y == y'
  {
  }

  lemma OnlyToTheLeft(list: SkipList, cpu: Cpu, was: set<Node>, leaf: Node, x: nat, y: nat)
    requires list.Valid() && list.At(leaf, y, 0) && x < y && cpu.held == was + {leaf}
    requires forall b :: x < b < |list.lists[0]| ==> list.lists[0][b] !in was
    ensures RightOfIsFree(list, cpu, y)
  {
  }

  /** Walking the lock forward: p is let go unless the cursor keeps it. */
  method LeaveBehind(list: SkipList, cpu: Cpu, pending: nat, p: Node, ghost leaf: Node, ghost x: nat)
    requires pending < |cpu.cursor| && NullFrom(cpu.cursor, pending + 1)
    requires cpu.held == Entries(cpu.cursor) + {p, leaf} && p != leaf && RightOfIsFree(list, cpu, x)
    modifies cpu`held
    ensures cpu.held == Entries(cpu.cursor) + {leaf} && RightOfIsFree(list, cpu, x)
  {
    var found := FoundInCursor(cpu, pending, p);
    assert found <==> p in cpu.cursor by {
      assert cpu.cursor == cpu.cursor[..pending + 1] + cpu.cursor[pending + 1..];
    }
    if !found {
      list.UnlockNode(cpu, p);
    }
  }

  lemma EntryStays(list: SkipList, cursor: seq<Node?>, level: int, pending: nat, key: nat, x: nat, y: nat)
    requires CursorDownTo(list, cursor, level, pending, key, x) && x <= y
    ensures CursorDownTo(list, cursor, level, pending, key, y)
  {
    forall j | level < j <= pending ensures Entry(list, cursor, j, key, y) {
      assert Entry(list, cursor, j, key, x);
      var c: nat, z: nat :| EntryAt(list, cursor, j, key, x, c, z);
      assert EntryAt(list, cursor, j, key, y, c, z);
    }
  }

  /** What the locked walk found at one level: where the key goes, or where to carry on below. */
  ghost predicate Found(list: SkipList, cpu: Cpu, home: Node, x: nat, y: nat, level: nat, pending: nat, key: nat)
    reads list`lists, list`leaves, list`nodes, cpu`cursor, cpu`held
  {
    && cpu.held <= list.nodes && list.At(home, y, level) && TakesKey(list, x, y, key)
    && CursorDownTo(list, cpu.cursor, level, pending, key, x)
    && cpu.held == Entries(cpu.cursor) + {home} && RightOfIsFree(list, cpu, y)
  }

  datatype Visit = TakeLeaf | GoDown | WalkOn

  /** Looks at the leaf after p: the key belongs in it, before it, or past it. */
  method VisitLeaf(list: SkipList, cpu: Cpu, level: nat, pending: nat, key: nat, p: Node, leaf: Node, ghost x: nat,
          ghost y: nat)
    returns (v: Visit)
    requires list.Valid() && Descending(list, cpu, level, pending, key, p, x) && list.Follows(leaf, x, y, level)
    requires x < y <= |list.leaves| && list.At(leaf, y, level) && list.At(leaf, y, 0)
    modifies cpu`held
    ensures v == TakeLeaf ==> Found(list, cpu, leaf, x, y, level, pending, key)
    ensures v == GoDown ==>
      level > 0 && Descending(list, cpu, level, pending, key, p, x) && Stopped(list, x, y, level, key)
    ensures v == WalkOn ==> Descending(list, cpu, level, pending, key, leaf, y)
  {
    hide SkipList.Valid, SkipList.At, SkipList.Follows, Stopped, CursorDownTo, RightOfIsFree, TakesKey;
    list.Basics();
    CursorBounds(list, cpu.cursor, level, pending, key, x);
    LockLeaf(list, cpu, leaf, level, p, x, y);
    list.AliveAt(leaf, y);
    var min := list.MinKey(leaf, y);
    var max := list.MaxKey(leaf, y);
    if key < max && key < min && level != 0 {
      StopHere(list, leaf, x, y, level, key);
      list.UnlockNode(cpu, leaf);
      return GoDown;
    }
    LeaveBehind(list, cpu, pending, p, leaf, y);
    if key < max {
      LeafTakes(list, leaf, x, y, level, key);
      return TakeLeaf;
    }
    EntryStays(list, cpu.cursor, level, pending, key, x, y);
    return WalkOn;
  }

  /** One level of the descent with hand-over-hand locking. */
  method WalkLocked(list: SkipList, cpu: Cpu, level: nat, pending: nat, key: nat, from: Node, ghost x0: nat)
    returns (home: Node?, p: Node, ghost x: nat, ghost y: nat)
    requires list.Valid() && Descending(list, cpu, level, pending, key, from, x0)
    modifies cpu`held
    ensures home != null ==> Found(list, cpu, home, x, y, level, pending, key)
    ensures home == null ==> Descending(list, cpu, level, pending, key, p, x) && Stopped(list, x, y, level, key)
    ensures home == null && level == 0 ==> list.leaves == []
  {
    hide SkipList.Valid, SkipList.At, SkipList.Follows, Stopped, CursorDownTo, RightOfIsFree, TakesKey, Found;
    p, x, home := from, x0, null;
    list.Basics();
    CursorBounds(list, cpu.cursor, level, pending, key, x);
    var leaf;
    leaf, y := list.NextLeaf(p, level, x);
    while leaf != null
      invariant Descending(list, cpu, level, pending, key, p, x) && list.Follows(leaf, x, y, level)
      invariant x < y <= |list.leaves| + 1
      invariant leaf != null ==> list.At(leaf, y, level) && list.At(leaf, y, 0) && y <= |list.leaves|
      decreases |list.leaves| + 1 - x
    {
      var v := VisitLeaf(list, cpu, level, pending, key, p, leaf, x, y);
      if v == TakeLeaf {
        home := leaf;
        return;
      }
      if v == GoDown {
        return;
      }
      p, x := leaf, y;
      leaf, y := list.NextLeaf(p, level, x);
    }
    StopHere(list, null, x, y, level, key);
    if level == 0 {
      LastTakes(list, p, x, y, key);
      if p != list.head {
        LastFound(list, cpu, p, x, pending, key);
        home, y := p, x;
      }
    }
  }

  lemma LeafTakes(list: SkipList, leaf: Node, x: nat, y: nat, level: nat, key: nat)
    requires list.Valid() && list.Follows(leaf, x, y, level) && Passed(list.leaves, x, key)
    requires y <= |list.leaves| && list.leaves[y - 1].slots != [] && key < list.leaves[y - 1].Max()
    requires list.leaves[y - 1].Min() <= key || level == 0
    ensures TakesKey(list, x, y, key)
  {
    var after := list.lists[0][if y > x + 1 then x + 1 else x];
  }

  /** At the right end of level 0 the last leaf takes the key, unless there is none. */
  lemma LastTakes(list: SkipList, p: Node, x: nat, y: nat, key: nat)
    requires list.Valid() && list.Follows(null, x, y, 0) && list.At(p, x, 0) && Passed(list.leaves, x, key)
    ensures p != list.head ==> TakesKey(list, x, x, key)
    ensures p == list.head ==> list.leaves == []
  {
    var after := list.lists[0][if y > x + 1 then x + 1 else x];
    assert list.LevelWired(0) && Distinct(list.lists[0]);
    assert x > 0 ==> list.lists[0][0] != list.lists[0][x];
    list.Basics();
    if x > 0 {
      TwoLeaves(list.leaves, x - 1, x - 1);
    }
  }

  lemma CursorBounds(list: SkipList, cursor: seq<Node?>, level: int, pending: nat, key: nat, x: nat)
    requires CursorDownTo(list, cursor, level, pending, key, x)
    ensures -1 <= level <= pending < SKIP_MAXLEVEL < |cursor| && NullFrom(cursor, pending + 1)
  {
  }

  /** A final entry whose level p reaches, with p passed since, is p itself. */
  lemma EntryIsLatest(list: SkipList, cursor: seq<Node?>, j: nat, key: nat, x: nat, p: Node)
    requires list.Valid() && Entry(list, cursor, j, key, x) && Walking(list, p, x, j, key)
    ensures j < |cursor| && cursor[j] == p
  {
    hide SkipList.Valid, WellFormed;
    var c: nat, y: nat :| EntryAt(list, cursor, j, key, x, c, y);
    list.WellFormedLeaves();
    list.Basics();
    if y < |list.lists[0]| && x > 0 {
      TwoLeaves(list.leaves, y - 1, x - 1);
    }
  }

  lemma EntryLevel(list: SkipList, cursor: seq<Node?>, j: nat, key: nat, x: nat)
    requires Entry(list, cursor, j, key, x)
    ensures j < |cursor| && cursor[j] != null && cursor[j].level >= j
  {
  }

  /** Entering p below the final entries keeps duplicates consecutive. */
  lemma EnteredConsecutive(list: SkipList, cursor: seq<Node?>, level: nat, pending: nat, key: nat, x: nat, p: Node)
    requires list.Valid() && CursorDownTo(list, cursor, level, pending, key, x) && Walking(list, p, x, level, key)
    ensures Consecutive(cursor[level := p])
  {
    hide SkipList.Valid, Stopped, Entry;
    var now := cursor[level := p];
    forall i, j, k | 0 <= i < j < k < |now| && now[i] == now[k] && now[i] != null ensures now[j] == now[i] {
      if i == level {
        assert k <= pending;
        EntryLevel(list, cursor, k, key, x);
        EntryIsLatest(list, cursor, j, key, x, p);
      } else {
        assert i > level;
      }
    }
  }

  lemma EnteredEntries(cursor: seq<Node?>, level: nat, p: Node)
    requires level < |cursor|
    ensures Entries(cursor[level := p]) <= Entries(cursor) + {p}
    ensures p in Entries(cursor[level := p])
    ensures forall n :: n in Entries(cursor) && n != cursor[level] ==> n in Entries(cursor[level := p])
    ensures cursor[level] == null ==> Entries(cursor[level := p]) == Entries(cursor) + {p}
  {
    var now := cursor[level := p];
    assert now[level] == p;
    forall n: Node | n in cursor && n != cursor[level] ensures n in now {
      var i :| 0 <= i < |cursor| && cursor[i] == n;
      assert now[i] == n;
    }
  }

  /** End of a level: p becomes its cursor entry, and the walk goes on one level down. */
  method EndLevel(list: SkipList, cpu: Cpu, level: nat, pending: nat, key: nat, p: Node, ghost x: nat, ghost y: nat)
    requires list.Valid() && Descending(list, cpu, level, pending, key, p, x) && Stopped(list, x, y, level, key)
    modifies cpu`cursor, cpu`held
    ensures Descending(list, cpu, level - 1, pending, key, p, x) && cpu.cursor[level] == p
  {
    hide SkipList.Valid, Stopped, Consecutive;
    ghost var was := cpu.cursor;
    EnteredConsecutive(list, was, level, pending, key, x, p);
    EnteredEntries(was, level, p);
    EntriesLeft(was, level, pending, p);
    AddLockedToCursor(list, cpu, level, p);
    assert cpu.held == Entries(cpu.cursor) + {p};
    HeldLess(list, cpu, old(cpu.held), x);
    assert EntryAt(list, cpu.cursor, level, key, x, x, y);
    forall j | level < j <= pending ensures Entry(list, cpu.cursor, j, key, x) {
      assert Entry(list, was, j, key, x);
      var c: nat, z: nat :| EntryAt(list, was, j, key, x, c, z);
      assert EntryAt(list, cpu.cursor, j, key, x, c, z);
    }
  }

  lemma HeldLess(list: SkipList, cpu: Cpu, was: set<Node>, x: nat)
    requires |list.lists| > 0 && (forall b :: x < b < |list.lists[0]| ==> list.lists[0][b] !in was) && cpu.held <= was
    ensures RightOfIsFree(list, cpu, x)
  {
  }

  /** The node pushed out of the lowest entry is nowhere else in the cursor, unless it is also the entry above. */
  lemma EntriesLeft(cursor: seq<Node?>, level: nat, pending: nat, p: Node)
    requires level <= pending < |cursor| - 1 && NullFrom(cursor, pending + 1) && NullBelow(cursor, level)
    requires level < pending ==> cursor[level] == null || cursor[level] == cursor[level + 1]
    ensures cursor[level] != null && cursor[level] != p && cursor[level + 1] != cursor[level]
        ==> Entries(cursor[level := p]) == Entries(cursor) - {cursor[level]} + {p}
    ensures cursor[level] != null && cursor[level + 1] == cursor[level]
        ==> Entries(cursor[level := p]) == Entries(cursor) + {p}
  {
    var now := cursor[level := p];
    EnteredEntries(cursor, level, p);
    if cursor[level] != null && cursor[level + 1] == cursor[level] {
      assert now[level + 1] == cursor[level];
    }
  }

  lemma LastFound(list: SkipList, cpu: Cpu, p: Node, x: nat, pending: nat, key: nat)
    requires Descending(list, cpu, 0, pending, key, p, x) && TakesKey(list, x, x, key)
    ensures Found(list, cpu, p, x, x, 0, pending, key)
  {
  }
}
