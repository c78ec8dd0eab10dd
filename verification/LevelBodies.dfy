/** The bodies of sl_link_one_level, erase_one_level and the marking of a dead node, each as one atomic step. */
module LevelBodies {
  import opened LevelSteps

  class LevelList {
    var next: map<int, int>
    var prev: map<int, int>
    var dead: set<int>
    ghost var key: map<int, int>
    ghost var rank: map<int, real>
    ghost var chain: seq<int>

    ghost function View(): Level
      reads this
    {
      Level(next, prev, dead, key, rank, chain)
    }

    constructor ()
      ensures View() == EmptyLevel() && Inv(View())
    {
      next, prev, dead := map[HEAD := NIL], map[HEAD := NIL], {};
      key, rank, chain := map[HEAD := -1], map[HEAD := 0.0], [HEAD];
      new;
      EmptyInv();
    }

    method FindLiveNext(p: int, ghost i: nat) returns (node: int)
      requires Inv(View()) && i < |chain| && chain[i] == p
      ensures node == LiveNext(View(), i)
    {
      hide Inv, Known, LiveAfter;
      StepsRight(View(), i);
      node := p;
      ghost var j := i;
      while node != NIL
        invariant i <= j <= |chain| && node == PosOrNil(chain, j)
        invariant forall m :: i < m <= j && m < |chain| ==> chain[m] in dead
        decreases |chain| - j
      {
        StepsRight(View(), j);
        node := next[node];
        j := j + 1;
        if node == NIL || node !in dead {
          FirstLive(chain, dead, i, j);
          return;
        }
      }
    }

    method FindLivePrev(x: int) returns (node: int)
      requires Inv(View()) && x in key
      ensures x == HEAD ==> node == NIL
      ensures x != HEAD ==> node == LivePrev(View(), x)
    {
      if x == HEAD {
        return NIL;
      }
      node := x;
      ghost var s := View();
      while node != NIL
        invariant node in key && node != HEAD && LivePrev(s, node) == LivePrev(s, x)
        decreases Before(s, node)
      {
        assert PointsBack(s, node) && prev[node] in Before(s, node);
        node := prev[node];
        if node !in dead {
          return;
        }
      }
    }

    /** sl_link_one_level: prev is locked and alive; next is found, locked and rechecked before the stores. */
    method LinkBody(p: int, n: int, ghost k: int, ghost i: nat)
      requires Inv(View()) && CanLink(View(), i, n, k) && chain[i] == p
      modifies this
      ensures LinkStep(old(View()), View(), i, n, k) && Inv(View())
    {
      hide Inv, Known, LiveAfter;
      LinkKeepsInv(View(), i, n, k);
      var x := FindLiveNext(p, i);
      if x != NIL {
        LiveNeighboursInverse(View(), i);
        var test := FindLiveNext(p, i);
        if test != x || x in dead {
          assert false;
        }
        test := FindLivePrev(x);
        if test != p {
          assert false;
        }
      }
      next := next[n := x];
      prev := prev[n := p];
      next := next[p := n];
      if x != NIL {
        prev := prev[x := n];
      } else {
        prev := prev[HEAD := n];
      }
      key, rank := key[n := k], rank[n := RankAfter(old(View()), i)];
      chain := chain[..i + 1] + [n] + chain[LiveAfter(chain, dead, i)..];
    }

    /** skiplist_delete sets the dead flag of an emptied leaf it has locked. */
    method MarkDead(d: int)
      requires Inv(View()) && d in key && d != HEAD && d !in dead
      modifies this`dead
      ensures MarkStep(old(View()), View(), d) && Inv(View())
    {
      MarkKeepsInv(View(), d);
      dead := dead + {d};
    }

    /** erase_one_level on a dead node; its own pointers may long be out of date. */
    method EraseBody(d: int) returns (ghost i: nat)
      requires Inv(View()) && d in dead
      modifies this
      ensures EraseStep(old(View()), View(), d, i) && Inv(View())
      ensures d !in chain
    {
      hide Inv, Known, LiveAfter;
      ghost var s := View();
      InvShape(s);
      DeadIsKnown(s, d);
      var p := FindLivePrev(d);
      i :| i < |chain| && chain[i] == p;
      var x := FindLiveNext(p, i);
      if x != NIL {
        LiveNeighboursInverse(s, i);
        var test := FindLivePrev(x);
        if test != p || x in dead {
          assert false;
        }
      }
      UnlinkKeepsInv(s, i);
      next := next[p := x];
      if x != NIL {
        prev := prev[x := p];
      } else if p != HEAD {
        prev := prev[HEAD := p];
      } else {
        prev := prev[HEAD := NIL];
      }
      chain := chain[..i + 1] + chain[LiveAfter(chain, dead, i)..];
      ErasedIsUnreachable(s, View(), d, i);
    }
  }

  lemma FirstLive(c: seq<int>, dead: set<int>, i: nat, j: nat)
    requires i < j <= |c| && (forall m :: i < m < j ==> c[m] in dead) && (j < |c| ==> c[j] !in dead)
    ensures LiveAfter(c, dead, i) == j
  {
  }

  lemma DeadIsKnown(s: Level, d: int)
    requires Inv(s) && d in s.dead
    ensures d in s.key && d != HEAD
  {
  }
}
