/** The insertion cursor: the nodes an insert passed on its way down, all of them locked. */
module Cursors {
  import opened Towers
  import opened SkipLists

  ghost function Entries(cursor: seq<Node?>): set<Node> {
    set n: Node | n in cursor
  }

  /** A node that is in the cursor twice is in every entry between. */
  ghost predicate Consecutive(cursor: seq<Node?>) {
    forall i, j, k :: 0 <= i < j < k < |cursor| && cursor[i] == cursor[k] && cursor[i] != null ==>
      cursor[j] == cursor[i]
  }

  ghost predicate NullFrom(cursor: seq<Node?>, lo: int) {
    forall i :: 0 <= i < |cursor| && lo <= i ==> cursor[i] == null
  }

  ghost predicate NullBelow(cursor: seq<Node?>, hi: int) {
    forall i :: 0 <= i < |cursor| && i < hi ==> cursor[i] == null
  }

  /** get_cursor: all entries cleared. */
  method GetCursor(cpu: Cpu)
    modifies cpu`cursor
    ensures |cpu.cursor| == SKIP_MAXLEVEL + 1 && NullFrom(cpu.cursor, 0) && Entries(cpu.cursor) == {}
    ensures Consecutive(cpu.cursor)
  {
    cpu.cursor := seq(SKIP_MAXLEVEL + 1, _ => null);
  }

  method FoundInCursor(cpu: Cpu, maxLevel: nat, p: Node?) returns (found: bool)
    requires maxLevel < |cpu.cursor|
    ensures found <==> p in cpu.cursor[..maxLevel + 1]
  {
    var i := 0;
    while i <= maxLevel
      invariant 0 <= i <= maxLevel + 1
      invariant p !in cpu.cursor[..i]
    {
      if cpu.cursor[i] == p {
        return true;
      }
      i := i + 1;
    }
    return false;
  }

  /** The node that p pushes out of its entry and that nothing else in the cursor keeps locked. */
  ghost function PushedOut(cursor: seq<Node?>, level: nat, p: Node): set<Node>
    requires level < |cursor|
  {
    if cursor[level] == null || cursor[level] == p || (level + 1 < |cursor|
      && cursor[level + 1] == cursor[level]) then {}
    else {cursor[level]}
  }

  /** add_to_cursor: p is locked unless the entry above is the same node, and what it pushes out is unlocked. */
  method AddToCursor(list: SkipList, cpu: Cpu, level: nat, p: Node, ghost x: nat)
    requires level < |cpu.cursor| == SKIP_MAXLEVEL + 1
    requires cpu.cursor[level] == null || cpu.cursor[level] in cpu.held
    requires |list.lists| > 0 && x < |list.lists[0]| && list.lists[0][x] == p
    requires if level < SKIP_MAXLEVEL && cpu.cursor[level + 1] == p then p in cpu.held
             else cpu.cursor[level] == p || list.MayLock(cpu, x)
    modifies cpu`cursor, cpu`held
    ensures cpu.cursor == old(cpu.cursor)[level := p]
    ensures cpu.held == old(cpu.held) + {p} - old(PushedOut(cpu.cursor, level, p))
  {
    var was := cpu.cursor[level];
    cpu.cursor := cpu.cursor[level := p];
    if was == p {
      return;
    }
    if level == SKIP_MAXLEVEL {
      list.LockNode(cpu, p, x);
      list.UnlockNode(cpu, was);
      return;
    }
    var higher := cpu.cursor[level + 1];
    if higher != p {
      list.LockNode(cpu, p, x);
    }
    if higher != was {
      list.UnlockNode(cpu, was);
    }
  }

  /** add_locked_to_cursor: a node pushed out of its entry is unlocked unless it is also the entry above. */
  method AddLockedToCursor(list: SkipList, cpu: Cpu, level: nat, p: Node)
    requires level < |cpu.cursor| == SKIP_MAXLEVEL + 1
    requires p in cpu.held
    requires cpu.cursor[level] != null ==> cpu.cursor[level] in cpu.held
    modifies cpu`cursor, cpu`held
    ensures cpu.cursor == old(cpu.cursor)[level := p]
    ensures cpu.held == old(cpu.held) - old(PushedOut(cpu.cursor, level, p))
  {
    var was := cpu.cursor[level];
    cpu.cursor := cpu.cursor[level := p];
    if was == p {
      return;
    }
    if level == SKIP_MAXLEVEL {
      list.UnlockNode(cpu, was);
      return;
    }
    if cpu.cursor[level + 1] != was {
      list.UnlockNode(cpu, was);
    }
  }

  /** With duplicates consecutive, an entry that differs from the one below occurs nowhere below. */
  lemma LowestEntry(cursor: seq<Node?>, i: nat)
    requires Consecutive(cursor) && i < |cursor| && (i > 0 ==> cursor[i - 1] != cursor[i])
    ensures cursor[i] == null || cursor[i] !in cursor[..i]
  {
  }

  /** free_cursor_locks: each node is unlocked once, at the lowest entry it occupies. */
  method FreeCursorLocks(list: SkipList, cpu: Cpu, maxLevel: nat)
    requires maxLevel < |cpu.cursor| && NullFrom(cpu.cursor, maxLevel + 1)
    requires Consecutive(cpu.cursor) && Entries(cpu.cursor) <= cpu.held
    modifies cpu`cursor, cpu`held
    ensures |cpu.cursor| == |old(cpu.cursor)| && NullFrom(cpu.cursor, 0)
    ensures cpu.held == old(cpu.held) - Entries(old(cpu.cursor))
  {
    ghost var cursor := cpu.cursor;
    var i: int := maxLevel;
    while i >= 0
      invariant -1 <= i <= maxLevel
      invariant |cpu.cursor| == |cursor| && cpu.cursor[..i + 1] == cursor[..i + 1] && NullFrom(cpu.cursor, i + 1)
      invariant forall n :: n in cpu.held <==> n in old(cpu.held) && (n in cursor ==> n in cursor[..i + 1])
    {
      var p := cpu.cursor[i];
      cpu.cursor := cpu.cursor[i := null];
      assert cursor[..i + 1] == cursor[..i] + [p];
      if i == 0 || cpu.cursor[i - 1] != p {
        LowestEntry(cursor, i);
        assert p != null ==> p in Entries(cursor);
        list.UnlockNode(cpu, p);
      } else {
        assert p == cursor[..i][i - 1];
      }
      i := i - 1;
    }
  }
}
