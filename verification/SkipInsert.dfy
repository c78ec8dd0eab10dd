/** skiplist_insert as a whole, run alone. */
module SkipInsert {
  import opened Extents
  import opened Leaves
  import opened Towers
  import opened IndexSpec
  import opened SkipLists
  import opened TowerLinks
  import opened Inserting
  import opened InsertPath
  import opened Lookup
  import opened Cursors
  import opened InsertWalk

  /** The previous node is locked unless the cursor holds it; an empty cursor holds nothing. */
  method LockPrev(list: SkipList, cpu: Cpu, p: Node, ghost w: nat) returns (lock1: Node?)
    requires |list.lists| > 0 && w < |list.lists[0]| && list.lists[0][w] == p && list.MayLock(cpu, w)
    requires cpu.held == {} && |cpu.cursor| == SKIP_MAXLEVEL + 1 && NullFrom(cpu.cursor, 0)
    modifies cpu`held
    ensures lock1 == p && cpu.held == {p}
  {
    var found := FoundInCursor(cpu, SKIP_MAXLEVEL, p);
    lock1 := null;
    if !found {
      lock1 := p;
      list.LockNode(cpu, p, w);
    }
  }

  /** verify_key_in_path: locks the node once its neighbours confirm it is the place for the key. */
  method VerifyKeyInPath(list: SkipList, cpu: Cpu, node: Node, key: nat, level: nat, ghost x: nat, ghost y: nat)
    returns (ok: bool, locked: Node?)
    requires list.Valid() && level < SKIP_MAXLEVEL && Walking(list, node, x, level, key)
      && Stopped(list, x, y, level, key)
    requires cpu.held == {} && |cpu.cursor| == SKIP_MAXLEVEL + 1 && NullFrom(cpu.cursor, 0)
    modifies cpu`held
    ensures ok && locked == node && cpu.held == {node}
  {
    hide SkipList.Valid;
    list.Basics();
    var prevMax := 0;
    if node != list.head {
      ghost var w;
      HeadIsFirst(list, node, x);
      w := list.PrevPointer(node, x, level);
      var p := node.prev[level];
      ghost var y' := list.NextPointer(p, w, level);
      NextIsUnique(list, node, p.next[level], w, x, y', level);
      list.PrevPosition(node, x, p, w);
      var lock1 := LockPrev(list, cpu, p, w);
      list.LockNode(cpu, node, x);
      list.AliveAt(p, w);
      list.AliveAt(node, x);
      if p.dead || node.dead || node.prev[level] != p || p.next[level] != node {
        assert false;
      }
      if p != list.head {
        HeadIsFirst(list, p, w);
        prevMax := list.MaxKey(p, w);
        list.WellFormedLeaves();
        TwoLeaves(list.leaves, w - 1, x - 1);
      }
      if p != list.head && key < prevMax {
        assert false;
      }
      list.UnlockNode(cpu, lock1);
    } else {
      list.LockNode(cpu, node, x);
    }
    ok := VerifyNext(list, cpu, node, key, level, x, y);
    if !ok {
      assert false;
    }
    locked := node;
  }

  lemma HeadIsFirst(list: SkipList, n: Node, x: nat)
    requires list.Valid() && list.At(n, x, 0)
    ensures n == list.head <==> x == 0
  {
  }

  /** Rule 2 of verify_key_in_path: the key is below the next node's min. */
  method VerifyNext(list: SkipList, cpu: Cpu, node: Node, key: nat, level: nat, ghost x: nat, ghost y: nat)
    returns (ok: bool)
    requires list.Valid() && level < SKIP_MAXLEVEL && Walking(list, node, x, level, key)
      && Stopped(list, x, y, level, key)
    requires cpu.held == {node}
    modifies cpu`held
    ensures ok && cpu.held == {node}
  {
    hide SkipList.Valid;
    list.Basics();
    ghost var y' := list.NextPointer(node, x, level);
    var next := node.next[level];
    StoppedIsNext(list, x, y, y', level, key, next);
    if next != null {
      ghost var w := list.PrevPointer(next, y, level);
      FollowsBack(list, next.prev[level], next, node, w, x, y, level);
      NothingRight(list, cpu, node, x, y);
      list.LockNode(cpu, next, y);
      list.AliveAt(next, y);
      var min := list.MinKey(next, y);
      if node.next[level] != next || next.prev[level] != node || next.dead || key >= min {
        return false;
      }
      list.UnlockNode(cpu, next);
    }
    ok := true;
  }

  lemma StoppedIsNext(list: SkipList, x: nat, y: nat, y': nat, level: int, key: nat, next: Node?)
    requires Stopped(list, x, y, level, key) && list.Follows(next, x, y', level)
    ensures y == y' && (next != null ==>
      list.At(next, y, level) && list.At(next, y, 0) && key < list.leaves[y - 1].Min())
  {
  }

  lemma FollowsBack(list: SkipList, m: Node, n: Node, p: Node, w: nat, x: nat, y: nat, level: int)
    requires list.At(m, w, level) && list.Follows(n, w, y, level)
    requires list.At(p, x, level) && list.Follows(n, x, y, level)
    ensures m == p && w == x
  {
  }

  lemma NothingRight(list: SkipList, cpu: Cpu, node: Node, x: nat, y: nat)
    requires list.Valid() && list.At(node, x, 0) && x < y && cpu.held == {node}
    ensures list.MayLock(cpu, y)
  {
  }

  // ---- the top of the descent

  ghost predicate NoTaller(list: SkipList, level: int)
    reads list`lists
  {
    |list.lists| > 0 && forall b {:trigger list.lists[0][b]} :: 1 <= b < |list.lists[0]| ==>
      list.lists[0][b].level <= level
  }

  /** The cursor holds the head from `level` to `pending` and nothing else. */
  ghost predicate HeadCursor(cursor: seq<Node?>, head: Node, level: int, pending: nat) {
    && |cursor| == SKIP_MAXLEVEL + 1
    && forall j {:trigger cursor[j]} :: 0 <= j < |cursor| ==> cursor[j] == if level <= j <= pending then head else null
  }

  lemma HeadDescends(list: SkipList, cpu: Cpu, level: nat, pending: nat, key: nat)
    requires list.Valid() && HeadCursor(cpu.cursor, list.head, level, pending) && level <= pending < SKIP_MAXLEVEL
    requires NoTaller(list, level) && cpu.held == {list.head}
    ensures Descending(list, cpu, level, pending, key, list.head, 0)
  {
    hide SkipList.Skeleton, WellFormed, Capped;
    list.Basics();
    list.AliveAt(list.head, 0);
    NothingRight(list, cpu, list.head, 0, 1);
    forall j | level < j <= pending ensures Entry(list, cpu.cursor, j, key, 0) {
      assert EntryAt(list, cpu.cursor, j, key, 0, 0, |list.lists[0]|);
    }
    assert Entries(cpu.cursor) == {list.head} by {
      assert cpu.cursor[level] == list.head;
    }
  }

  /** Above pending nothing is locked; from pending down the head is, once. */
  ghost predicate HeadState(list: SkipList, cpu: Cpu, level: int, pending: nat)
    reads cpu`cursor, cpu`held
  {
    HeadCursor(cpu.cursor, list.head, level, pending) && cpu.held == if level <= pending then {list.head} else {}
  }

  method EnterHead(list: SkipList, cpu: Cpu, level: nat, pending: nat)
    requires list.Valid() && level <= pending < SKIP_MAXLEVEL && HeadState(list, cpu, level + 1, pending)
    modifies cpu`cursor, cpu`held
    ensures HeadState(list, cpu, level, pending)
  {
    hide SkipList.Valid;
    list.Basics();
    list.AtIsPosition(list.head, 0);
    assert cpu.cursor[level] == null;
    assert cpu.cursor[level + 1] == if level < pending then list.head else null;
    AddToCursor(list, cpu, level, list.head, 0);
  }

  /** From list->level down past the empty levels, filling the cursor with the head from pending_level on. */
  method StartCursor(list: SkipList, cpu: Cpu, pending: nat, key: nat) returns (level: nat)
    requires list.Valid() && pending < SKIP_MAXLEVEL && pending <= list.level + 1
    requires HeadState(list, cpu, pending + 1, pending)
    modifies cpu`cursor, cpu`held
    ensures level <= list.level && NoTaller(list, level)
    ensures HeadState(list, cpu, if level <= pending then level else pending + 1, pending)
  {
    hide SkipList.Valid, SkipList.Follows, SkipList.At, HeadState, NoTaller;
    list.Basics();
    CappedNotTaller(list);
    var p := list.head;
    level := list.level;
    if level <= pending {
      if level != pending {
        EnterHead(list, cpu, pending, pending);
      }
      EnterHead(list, cpu, level, pending);
    }
    ghost var y := list.NextPointer(p, 0, level);
    while p.next[level] == null && level > 0
      invariant level <= list.level && level < |p.next| && NoTaller(list, level)
      invariant list.Follows(p.next[level], 0, y, level)
      invariant HeadState(list, cpu, if level <= pending then level else pending + 1, pending)
      decreases level
    {
      EmptyLevel(list, y, level);
      level := level - 1;
      if level <= pending {
        EnterHead(list, cpu, level, pending);
      }
      y := list.NextPointer(p, 0, level);
    }
  }

  lemma EmptyLevel(list: SkipList, y: nat, level: nat)
    requires list.Follows(null, 0, y, level) && NoTaller(list, level)
    ensures NoTaller(list, level - 1)
  {
  }

  lemma CappedNotTaller(list: SkipList)
    requires list.Valid()
    ensures NoTaller(list, list.level)
  {
    forall b | 1 <= b < |list.lists[0]| ensures list.lists[0][b].level <= list.level {
      assert list.Fills(list.lists[0][b], list.leaves[b - 1]);
    }
  }

  // ---- the end of an insert

  /** What skiplist_insert leaves behind: 0 and the slot in place exactly when the range was free. */
  ghost predicate Inserted(was: Index, now: Index, s: Slot, pending: nat, spare0: bool, ret: int)
    requires Sized(was.leaves)
  {
    if Free(Flatten(was.leaves), s.key, s.size)
    then ret == 0 && now == InsertSpec(was, s, pending, spare0)
    else ret == -EEXIST && now == was
  }

  /** Ready for find_or_add: the leaf at position y is the key's home, and exactly it and the cursor are held. */
  ghost predicate ReadyAt(list: SkipList, cpu: Cpu, p: Node, y: nat, key: nat, pending: nat)
    reads list`lists, list`leaves, list`nodes, cpu`cursor, cpu`held
  {
    && cpu.held <= list.nodes && y > 0 && list.At(p, y, 0) && Sized(list.leaves) && list.leaves != []
      && y - 1 == Home(list.leaves, key)
    && RightOfIsFree(list, cpu, y) && cpu.held == Entries(cpu.cursor) + {p}
    && pending < SKIP_MAXLEVEL && |cpu.cursor| == SKIP_MAXLEVEL + 1
    && NullFrom(cpu.cursor, pending + 1) && Consecutive(cpu.cursor)
  }

  /** The find_or_add label; insLocked says whether the caller already locked p outside the cursor. */
  method FindOrAdd(list: SkipList, cpu: Cpu, s: Slot, p: Node, locked: Node?, level: int, pending: nat, token: nat,
          ghost y: nat)
    returns (ret: int)
    requires list.Valid() && s.size > 0 && Preloaded(list, cpu, token) && pending == PendingLevel(cpu, token)
    requires ReadyAt(list, cpu, p, y, s.key, pending)
    requires |list.leaves[y - 1].slots| == KEYS_PER_NODE ==> CursorCovers(list, cpu, y, p, pending)
    requires if locked == null then level <= pending else locked == p && p !in cpu.cursor
    modifies list.Footprint(), cpu.Footprint()
    ensures list.Valid() && cpu.held == {}
    ensures Inserted(old(Index(list.leaves, list.level)), Index(list.leaves, list.level), s,
                     old(PendingLevel(cpu, token)), old(cpu.preload[0] != null), ret)
  {
    hide SkipList.Valid, CursorCovers, RightOfIsFree, Home, Free, InsertSpec, Spare, Consecutive, SkipList.Footprint;
    var insLocked := locked;
    if insLocked == null {
      if level > pending {
        assert false;
      } else {
        var found := FoundInCursor(cpu, pending, p);
        InWhole(cpu.cursor, pending, p);
        if !found {
          insLocked := p;
        }
      }
    }
    ret := FindOrAddKey(list, cpu, s, p, token, y);
    FreeCursorLocks(list, cpu, pending);
    list.UnlockNode(cpu, insLocked);
  }

  lemma InWhole(cursor: seq<Node?>, pending: nat, p: Node)
    requires pending + 1 < |cursor| && NullFrom(cursor, pending + 1)
    ensures p in cursor <==> p in cursor[..pending + 1]
  {
  }

  // ---- the first leaf of an empty list

  lemma HeadsReady(list: SkipList, cpu: Cpu, level: nat, pending: nat)
    requires |list.lists| > 0 && list.lists[0] == [list.head] && list.head.level == SKIP_MAXLEVEL
    requires cpu.held == {list.head} && HeadCursor(cpu.cursor, list.head, 0, pending)
    requires level <= pending && level < SKIP_MAXLEVEL
    ensures forall i :: 0 <= i <= level ==> CursorReady(list, cpu, list.lists[0], 0, i)
  {
    forall i | 0 <= i <= level ensures CursorReady(list, cpu, list.lists[0], 0, i) {
      assert Precedes(list.lists[0], 0, cpu.cursor[i], 0, i);
    }
  }

  /** The first leaf becomes one of the list's nodes, on no level yet. */
  method AdmitFirst(list: SkipList, cpu: Cpu, node: Node)
    requires list.Valid() && list.leaves == [] && Spare(list, node) && cpu.held == {list.head}
    modifies list`nodes, list`store
    ensures list.store == old(list.store) + {node.leaf} && list.nodes == old(list.nodes) + {node}
    ensures list.lists[0] == [list.head] && list.head.level == SKIP_MAXLEVEL && list.head.leaf == null
    ensures LinkReady(list, cpu, [list.head], 0, node, 0)
    ensures NoSharing(list.head, node) && NoSharing(node, list.head) && node.level < SKIP_MAXLEVEL && !node.dead
  {
    hide Linked, Flatten, Ordered, WellFormed, Capped, SkipList.Filled;
    list.Basics();
    assert list.lists[0] == [list.head];
    SpareStandsApart(list, node, 0);
    list.nodes := list.nodes + {node};
    list.store := list.store + {node.leaf};
  }

  lemma FirstApart(head: Node, node: Node)
    requires NoSharing(head, node)
    ensures forall j, k :: 0 <= j < k < |[head, node]| ==> NoSharing([head, node][j], [head, node][k])
  {
  }

  /** sl_link_node with the head in every cursor entry. */
  method AttachFirst(list: SkipList, cpu: Cpu, node: Node, pending: nat)
    requires list.Valid() && list.leaves == [] && Spare(list, node) && node.level <= pending
    requires cpu.held == {list.head} && HeadCursor(cpu.cursor, list.head, 0, pending)
    modifies list`lists, list`nodes, list`store, list.nodes, node, cpu`held
    ensures list.Skeleton() && cpu.held == {list.head}
    ensures list.lists[0] == [list.head, node]
    ensures list.store == old(list.store) + {node.leaf} && list.nodes == old(list.nodes) + {node}
  {
    hide Linked, SkipList.Valid, SkipList.Filled, HeadCursor, CursorReady, Spare;
    AdmitFirst(list, cpu, node);
    HeadsReady(list, cpu, node.level, pending);
    FirstApart(list.head, node);
    LinkNode(list, cpu, node, node.level, [list.head], 0);
    LinkedTower(list, [list.head], 0, node);
    assert list.head in [list.head];
    assert list.lists[0] == [list.head, node];
  }

  /** alloc_leaf: the preloaded leaf with the slot in it. */
  method AllocLeaf(list: SkipList, cpu: Cpu, s: Slot, token: nat) returns (node: Node)
    requires list.Valid() && Preloaded(list, cpu, token)
    modifies cpu`preload, cpu.preload[token].leaf, cpu.preload[token].leaf.keys, cpu.preload[token].leaf.ptrs
    ensures list.Valid()
    ensures node == old(cpu.preload[token]) && node.level == old(PendingLevel(cpu, token)) <= list.level + 1
    ensures Spare(list, node) && LeafFills(node.leaf, LeafVal([s], node.level))
    ensures cpu.held == old(cpu.held) && cpu.cursor == old(cpu.cursor)
    ensures node in old(cpu.Footprint())
  {
    hide SkipList.Skeleton, WellFormed, Capped;
    node := cpu.preload[token];
    cpu.SpareInFootprint(node);
    cpu.preload := cpu.preload[token := null];
    node.leaf.SetSingle(s);
  }

  /** The tail of skiplist_insert, reached only when the list is empty. */
  method InsertFirst(list: SkipList, cpu: Cpu, s: Slot, token: nat, pending: nat)
    requires list.Valid() && list.leaves == [] && s.size > 0
    requires Preloaded(list, cpu, token) && pending == PendingLevel(cpu, token)
    requires HeadState(list, cpu, 0, pending)
    modifies list.Footprint(), cpu.Footprint()
    ensures list.Valid() && cpu.held == {}
    ensures Index(list.leaves, list.level) == old(InsertSpec(Index([], list.level), s, pending, cpu.preload[0] != null))
  {
    hide SkipList.Skeleton, Consecutive, WellFormed, LeavesOf, Parts;
    if cpu.cursor[0] == null {
      assert false;
    }
    cpu.SpareInFootprint(cpu.preload[token]);
    var leaf := AllocLeaf(list, cpu, s, token);
    PublishFirst(list, cpu, leaf, s, pending);
  }

  method PublishFirst(list: SkipList, cpu: Cpu, leaf: Node, s: Slot, pending: nat)
    requires list.Valid() && list.leaves == [] && s.size > 0 && Spare(list, leaf)
    requires LeafFills(leaf.leaf, LeafVal([s], leaf.level))
    requires HeadState(list, cpu, 0, pending) && leaf.level == pending <= list.level + 1
    modifies list, list.nodes, leaf, cpu`cursor, cpu`held
    ensures list.Valid() && cpu.held == {}
    ensures list.leaves == [LeafVal([s], pending)]
    ensures list.level == if pending > old(list.level) then old(list.level) + 1 else old(list.level)
  {
    hide SkipList.Skeleton, WellFormed, Capped, Consecutive;
    list.Basics();
    AttachFirst(list, cpu, leaf, pending);
    list.SkeletonShape();
    CountFirst(list, cpu, leaf, s, pending);
  }

  /** Raising list->level for the first leaf and letting go of the cursor. */
  method CountFirst(list: SkipList, cpu: Cpu, leaf: Node, s: Slot, pending: nat)
    requires list.Skeleton() && list.leaves == [] && s.size > 0
    requires |list.lists| > 0 && list.lists[0] == [list.head, leaf]
    requires leaf.level == pending <= list.level + 1 && pending < SKIP_MAXLEVEL && list.level < SKIP_MAXLEVEL
    requires leaf.leaf != null && leaf.leaf in list.store && LeafFills(leaf.leaf, LeafVal([s], pending))
    requires HeadState(list, cpu, 0, pending)
    modifies list`level, list`leaves, cpu`cursor, cpu`held
    ensures list.Valid() && cpu.held == {}
    ensures list.leaves == [LeafVal([s], pending)]
    ensures list.level == if pending > old(list.level) then old(list.level) + 1 else old(list.level)
  {
    hide SkipList.Skeleton, Consecutive, Flatten, Ordered;
    FirstOrdered(s, pending);
    var level := leaf.level;
    if level > list.level {
      list.level := list.level + 1;
      cpu.cursor := cpu.cursor[list.level := list.head];
    }
    list.leaves := [LeafVal([s], level)];
    list.SkeletonShape();
    HeadConsecutive(cpu.cursor, list.head, pending);
    FreeCursorLocks(list, cpu, list.level);
  }

  lemma FirstOrdered(s: Slot, height: nat)
    requires s.size > 0
    ensures Ordered(Flatten([LeafVal([s], height)]))
  {
  }

  lemma HeadConsecutive(cursor: seq<Node?>, head: Node, pending: nat)
    requires HeadCursor(cursor, head, 0, pending) && pending < SKIP_MAXLEVEL
    ensures Consecutive(cursor) && Entries(cursor) == {head} && NullFrom(cursor, pending + 1)
  {
    assert cursor[0] == head;
  }

  // ---- the descent

  /** Ready to insert at home, with whatever a split there would link after. */
  ghost predicate Arrived(list: SkipList, cpu: Cpu, home: Node, locked: Node?, level: int, pending: nat, y: nat,
          key: nat)
    reads list`lists, list`leaves, list`nodes, cpu`cursor, cpu`held
  {
    && ReadyAt(list, cpu, home, y, key, pending) && CursorCovers(list, cpu, y, home, pending)
    && if locked == null then level <= pending else locked == home && home !in cpu.cursor
  }

  /** One level above pending_level, walked without locks. */
  method FreeLevel(list: SkipList, cpu: Cpu, level: nat, pending: nat, key: nat, from: Node, ghost x0: nat)
    returns (home: Node?, p: Node, ghost x: nat, ghost y: nat)
    requires list.Valid() && pending < level < SKIP_MAXLEVEL && Walking(list, from, x0, level, key)
    requires HeadState(list, cpu, pending + 1, pending)
    modifies cpu`held
    ensures home != null ==> Arrived(list, cpu, home, home, level, pending, y, key)
    ensures home == null ==> HeadState(list, cpu, pending + 1, pending)
    ensures home == null ==> Walking(list, p, x, level, key) && Stopped(list, x, y, level, key)
  {
    hide SkipList.Valid, Home, Stopped;
    home, p, x, y := WalkLevel(list, from, level, key, x0);
    if home != null {
      NoEntries(cpu.cursor, list.head, pending);
      list.AliveAt(home, y);
      list.LockNode(cpu, home, y);
      var min := list.MinKey(home, y);
      var max := list.MaxKey(home, y);
      if key < min || key >= max {
        assert false;
      }
      OnlyToTheLeft(list, cpu, {}, home, x, y);
      TakerIsHome(list, x, y, key);
      list.WellFormedLeaves();
    }
  }

  lemma NoEntries(cursor: seq<Node?>, head: Node, pending: nat)
    requires HeadCursor(cursor, head, pending + 1, pending)
    ensures Entries(cursor) == {} && NullFrom(cursor, 0) && Consecutive(cursor)
  {
  }

  /** One level at or below pending_level, walked with the lock in hand. */
  method LockedLevel(list: SkipList, cpu: Cpu, level: nat, pending: nat, key: nat, from: Node, ghost x0: nat)
    returns (home: Node?, p: Node, ghost x: nat, ghost y: nat)
    requires list.Valid() && Descending(list, cpu, level, pending, key, from, x0)
    modifies cpu`cursor, cpu`held
    ensures home != null ==> Arrived(list, cpu, home, null, level, pending, y, key)
    ensures home == null ==> Descending(list, cpu, level - 1, pending, key, p, x)
    ensures home == null && level == 0 ==> list.leaves == []
  {
    hide SkipList.Valid, Home, Stopped, RightOfIsFree, Consecutive, Arrived, TakesKey, CursorDownTo;
    home, p, x, y := WalkLocked(list, cpu, level, pending, key, from, x0);
    if home != null {
      FoundArrives(list, cpu, home, x, y, level, pending, key);
    } else {
      EndLevel(list, cpu, level, pending, key, p, x, y);
    }
  }

  lemma FoundArrives(list: SkipList, cpu: Cpu, home: Node, x: nat, y: nat, level: nat, pending: nat, key: nat)
    requires list.Valid() && Found(list, cpu, home, x, y, level, pending, key)
    ensures Arrived(list, cpu, home, null, level, pending, y, key)
  {
    hide SkipList.Valid, Home, Entry, RightOfIsFree, Consecutive, TakesKey;
    list.Basics();
    list.WellFormedLeaves();
    WellFormedIsSized(list.leaves);
    TakerIsHome(list, x, y, key);
    TakerBounds(list, x, y, key);
    forall i | home.level < i <= pending ensures CursorReady(list, cpu, list.lists[0], y, i) {
      assert Entry(list, cpu.cursor, i, key, x);
      EntryPrecedes(list, cpu.cursor, i, key, x, y, home);
      assert cpu.cursor[i] in Entries(cpu.cursor);
    }
  }

  lemma TakerBounds(list: SkipList, x: nat, y: nat, key: nat)
    requires TakesKey(list, x, y, key)
    ensures 0 < y <= |list.leaves|
  {
  }

  /** With no leaf in the list, every cursor entry is the head. */
  lemma EmptyCursor(list: SkipList, cpu: Cpu, pending: nat, key: nat, p: Node, x: nat)
    requires list.Valid() && list.leaves == [] && Descending(list, cpu, -1, pending, key, p, x)
    ensures HeadState(list, cpu, 0, pending)
  {
  }

  /** Where the descent stands before walking `level`. */
  ghost predicate OnTheWay(list: SkipList, cpu: Cpu, level: int, pending: nat, key: nat, p: Node, x: nat)
    reads list`lists, list`leaves, list`nodes, cpu`cursor, cpu`held
  {
    if level > pending then HeadState(list, cpu, pending + 1, pending) && Walking(list, p, x, level, key)
    else Descending(list, cpu, level, pending, key, p, x)
  }

  /** From above pending_level down to it: p is locked and becomes the first cursor entry. */
  method StartLocking(list: SkipList, cpu: Cpu, pending: nat, key: nat, p: Node, ghost x: nat, ghost y: nat)
    requires list.Valid() && pending + 1 < SKIP_MAXLEVEL && HeadState(list, cpu, pending + 1, pending)
    requires Walking(list, p, x, pending + 1, key) && Stopped(list, x, y, pending + 1, key)
    modifies cpu`cursor, cpu`held
    ensures Descending(list, cpu, pending, pending, key, p, x)
  {
    hide SkipList.Valid, Stopped;
    NoEntries(cpu.cursor, list.head, pending);
    list.AliveAt(p, x);
    var ok, locked := VerifyKeyInPath(list, cpu, p, key, pending + 1, x, y);
    if !ok {
      assert false;
    }
    OneEntry(cpu.cursor, list.head, pending, p);
    cpu.cursor := cpu.cursor[pending := locked];
    NothingRight(list, cpu, p, x, x + 1);
  }

  lemma OneEntry(cursor: seq<Node?>, head: Node, pending: nat, p: Node)
    requires HeadCursor(cursor, head, pending + 1, pending) && pending < SKIP_MAXLEVEL
    ensures Entries(cursor[pending := p]) == {p} && Consecutive(cursor[pending := p])
  {
    assert cursor[pending := p][pending] == p;
  }

  /** The do loop of skiplist_insert: down to the leaf that takes the key, or to the bottom of an empty list. */
  method Descend(list: SkipList, cpu: Cpu, pending: nat, key: nat, top: nat)
    returns (home: Node?, locked: Node?, level: int, ghost y: nat)
    requires list.Valid() && pending < SKIP_MAXLEVEL && top < SKIP_MAXLEVEL
    requires OnTheWay(list, cpu, top, pending, key, list.head, 0)
    modifies cpu`cursor, cpu`held
    ensures home != null ==> Arrived(list, cpu, home, locked, level, pending, y, key)
    ensures home == null ==> list.leaves == [] && HeadState(list, cpu, 0, pending)
  {
    hide SkipList.Valid, Descending, HeadState, Stopped, Arrived;
    var p := list.head;
    ghost var x := 0;
    level, home, locked, y := top, null, null, 0;
    while level >= 0
      invariant -1 <= level < SKIP_MAXLEVEL && home == null && locked == null
      invariant OnTheWay(list, cpu, level, pending, key, p, x)
      invariant level < 0 ==> list.leaves == []
      decreases level
    {
      if level > pending {
        home, p, x, y := FreeLevel(list, cpu, level, pending, key, p, x);
        if home != null {
          locked := home;
          return;
        }
        level := level - 1;
        if level == pending {
          StartLocking(list, cpu, pending, key, p, x, y);
        }
      } else {
        home, p, x, y := LockedLevel(list, cpu, level, pending, key, p, x);
        if home != null {
          return;
        }
        level := level - 1;
      }
    }
    EmptyCursor(list, cpu, pending, key, p, x);
  }

  /** The shortcut at the end of the list: the last leaf, when the key lies at or past its min. */
  method TryLast(list: SkipList, cpu: Cpu, key: nat, pending: nat) returns (last: Node?, ghost y: nat)
    requires list.Valid() && HeadState(list, cpu, pending + 1, pending) && pending < SKIP_MAXLEVEL
    modifies cpu`held
    ensures last == null ==> HeadState(list, cpu, pending + 1, pending)
    ensures last != null ==> ReadyAt(list, cpu, last, y, key, pending) && last !in cpu.cursor
    ensures last != null ==> pending == 0 || |list.leaves[y - 1].slots| < KEYS_PER_NODE
  {
    hide SkipList.Valid, Home;
    NoEntries(cpu.cursor, list.head, pending);
    list.LastPointer();
    last, y := list.head.prev[0], |list.leaves|;
    if last == null {
      return;
    }
    list.LeafReady(last, y);
    if last.leaf.keys[0] <= key && (pending == 0 || last.leaf.nr < KEYS_PER_NODE) {
      list.LockNode(cpu, last, y);
      if last.dead || last != list.head.prev[0] || last.next[0] != null {
        assert false;
      }
      OnlyToTheLeft(list, cpu, {}, last, y - 1, y);
      LastIsHome(list, y, key);
      list.AliveAt(last, y);
    } else {
      last := null;
    }
  }

  lemma LastIsHome(list: SkipList, y: nat, key: nat)
    requires list.Valid() && y == |list.leaves| > 0 && list.leaves[y - 1].slots != [] && list.leaves[y - 1].Min() <= key
    ensures Sized(list.leaves) && y - 1 == Home(list.leaves, key)
  {
    var k := Home(list.leaves, key);
    TwoLeaves(list.leaves, k, y - 1);
  }

  /** A split taken by the shortcut has height 0, so it links after the last leaf alone. */
  lemma ShortcutCovers(list: SkipList, cpu: Cpu, last: Node, y: nat)
    requires |list.lists| > 0
    ensures CursorCovers(list, cpu, y, last, 0)
  {
  }

  lemma StartsOnTheWay(list: SkipList, cpu: Cpu, top: nat, pending: nat, key: nat)
    requires list.Valid() && pending < SKIP_MAXLEVEL && top <= list.level && NoTaller(list, top)
    requires HeadState(list, cpu, if top <= pending then top else pending + 1, pending)
    ensures OnTheWay(list, cpu, top, pending, key, list.head, 0)
  {
    hide SkipList.Valid, Descending;
    list.Basics();
    if top <= pending {
      HeadDescends(list, cpu, top, pending, key);
    }
  }

  lemma FirstInserted(level: nat, s: Slot, pending: nat, spare0: bool)
    ensures Inserted(Index([], level), InsertSpec(Index([], level), s, pending, spare0), s, pending, spare0, 0)
  {
  }

  /** The insert proper, from the top of the list; the source's label again is never jumped back to. */
  method InsertFromTop(list: SkipList, cpu: Cpu, s: Slot, token: nat, pending: nat) returns (ret: int)
    requires list.Valid() && s.size > 0 && Preloaded(list, cpu, token) && pending == PendingLevel(cpu, token)
    requires pending < SKIP_MAXLEVEL && pending <= list.level + 1 && HeadState(list, cpu, pending + 1, pending)
    modifies list.Footprint(), cpu.Footprint()
    ensures list.Valid() && cpu.held == {}
    ensures Inserted(old(Index(list.leaves, list.level)), Index(list.leaves, list.level), s,
                     old(PendingLevel(cpu, token)), old(cpu.preload[0] != null), ret)
  {
    hide SkipList.Valid, Inserted, ReadyAt, CursorCovers, Spare;
    list.WellFormedLeaves();
    var top := StartCursor(list, cpu, pending, s.key);
    list.Basics();
    StartsOnTheWay(list, cpu, top, pending, s.key);
    var home, locked, level;
    ghost var y;
    home, locked, level, y := Descend(list, cpu, pending, s.key, top);
    if home != null {
      ret := FindOrAdd(list, cpu, s, home, locked, level, pending, token, y);
    } else {
      FirstInserted(list.level, s, pending, cpu.preload[0] != null);
      InsertFirst(list, cpu, s, token, pending);
      ret := 0;
    }
  }

  /** skiplist_insert: 0 and the slot in place when its range is free, -EEXIST and nothing changed otherwise. */
  method SkiplistInsert(list: SkipList, cpu: Cpu, s: Slot, token: nat) returns (ret: int)
    requires list.Valid() && s.size > 0 && Preloaded(list, cpu, token) && cpu.held == {}
    modifies list.Footprint(), cpu.Footprint()
    ensures list.Valid() && cpu.held == {}
    ensures Inserted(old(Index(list.leaves, list.level)), Index(list.leaves, list.level), s,
                     old(PendingLevel(cpu, token)), old(cpu.preload[0] != null), ret)
  {
    hide SkipList.Valid, Inserted, ReadyAt, CursorCovers, Spare;
    list.WellFormedLeaves();
    SparePending(list, cpu, token);
    var pending := cpu.preload[token].level;
    GetCursor(cpu);
    var last;
    ghost var y;
    last, y := TryLast(list, cpu, s.key, pending);
    if last != null {
      list.Basics();
      ShortcutCovers(list, cpu, last, y);
      ret := FindOrAdd(list, cpu, s, last, last, 0, pending, token, y);
    } else {
      ret := InsertFromTop(list, cpu, s, token, pending);
    }
  }
}
