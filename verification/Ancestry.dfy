/**
 Ancestor relations of finite parent maps: the vocabulary in which the
 network-simplex tree of `treeup.c` is specified.  A parent map sends every
 node except the root to its parent (the field `pred`).
 */
module Ancestry {

  /** x is found on the parent chain of y after at most n steps. */
  ghost predicate AboveIn<V>(par: map<V, V>, x: V, y: V, n: nat)
  {
    x == y || (n > 0 && y in par && AboveIn(par, x, par[y], n - 1))
  }

  /** x is y itself or one of the ancestors of y. */
  ghost predicate Above<V>(par: map<V, V>, x: V, y: V)
  {
    exists n: nat :: AboveIn(par, x, y, n)
  }

  /** The parent map has no cycle: ranks increase from parent to child. */
  ghost predicate Ranked<V>(par: map<V, V>, rank: map<V, nat>)
  {
    forall y {:trigger par[y]} :: y in par ==> y in rank && par[y] in rank && rank[par[y]] < rank[y]
  }

  /** The nodes of the subtree rooted at x. */
  ghost function Subtree<V>(nodes: set<V>, par: map<V, V>, x: V): set<V>
  {
    set y | y in nodes && Above(par, x, y)
  }

  /** One tree over the given nodes: a single root, and every other node has a parent in the set. */
  ghost predicate IsTree<V>(nodes: set<V>, root: V, par: map<V, V>, rank: map<V, nat>)
  {
    && root in nodes
    && par.Keys == nodes - {root}
    && (forall y {:trigger par[y]} :: y in par ==> par[y] in nodes)
    && Ranked(par, rank)
  }

  lemma AboveUnfold<V>(par: map<V, V>, x: V, y: V)
    ensures Above(par, x, y) <==> x == y || (y in par && Above(par, x, par[y]))
  {
    if Above(par, x, y) && x != y {
      var n: nat :| AboveIn(par, x, y, n);
      assert AboveIn(par, x, par[y], n - 1);
    }
    if x == y {
      assert AboveIn(par, x, y, 0);
    } else if y in par && Above(par, x, par[y]) {
      var n: nat :| AboveIn(par, x, par[y], n);
      assert AboveIn(par, x, y, n + 1);
    }
  }

  lemma {:induction false} AboveTransIn<V>(par: map<V, V>, x: V, y: V, z: V, n: nat)
    requires Above(par, x, y) && AboveIn(par, y, z, n)
    ensures Above(par, x, z)
  {
    if y != z {
      AboveTransIn(par, x, y, par[z], n - 1);
      AboveUnfold(par, x, z);
    }
  }

  lemma AboveTrans<V>(par: map<V, V>, x: V, y: V, z: V)
    requires Above(par, x, y) && Above(par, y, z)
    ensures Above(par, x, z)
  {
    var n: nat :| AboveIn(par, y, z, n);
    AboveTransIn(par, x, y, z, n);
  }

  lemma {:induction false} AboveRankIn<V>(par: map<V, V>, rank: map<V, nat>, x: V, y: V, n: nat)
    requires Ranked(par, rank) && AboveIn(par, x, y, n) && x != y
    ensures x in rank && y in rank && rank[x] < rank[y]
  {
    if par[y] != x {
      AboveRankIn(par, rank, x, par[y], n - 1);
    }
  }

  /** A proper ancestor has a smaller rank, so the relation is antisymmetric. */
  lemma AboveRank<V>(par: map<V, V>, rank: map<V, nat>, x: V, y: V)
    requires Ranked(par, rank) && Above(par, x, y) && x != y
    ensures x in rank && y in rank && rank[x] < rank[y]
    ensures !Above(par, y, x)
  {
    var n: nat :| AboveIn(par, x, y, n);
    AboveRankIn(par, rank, x, y, n);
    if Above(par, y, x) {
      var m: nat :| AboveIn(par, y, x, m);
      AboveRankIn(par, rank, y, x, m);
    }
  }

  /** The ancestors of one node form a chain. */
  lemma {:induction false} AboveLinear<V>(par: map<V, V>, rank: map<V, nat>, x: V, y: V, z: V)
    requires Ranked(par, rank) && Above(par, x, z) && Above(par, y, z)
    ensures Above(par, x, y) || Above(par, y, x)
    decreases if z in par then rank[z] else 0
  {
    AboveUnfold(par, x, z);
    AboveUnfold(par, y, z);
    if x != z && y != z {
      if par[z] !in par {
        AboveUnfold(par, x, par[z]);
        AboveUnfold(par, y, par[z]);
        AboveUnfold(par, x, y);
      } else {
        AboveLinear(par, rank, x, y, par[z]);
      }
    }
  }

  /** Two different children of one parent have no common descendant. */
  lemma SiblingsApart<V>(par: map<V, V>, rank: map<V, nat>, a: V, b: V, z: V)
    requires Ranked(par, rank) && a in par && b in par && par[a] == par[b] && a != b
    ensures !(Above(par, a, z) && Above(par, b, z))
  {
    if Above(par, a, z) && Above(par, b, z) {
      AboveLinear(par, rank, a, b, z);
      var u, v := if Above(par, a, b) then a else b, if Above(par, a, b) then b else a;
      AboveUnfold(par, u, v);
      assert Above(par, u, par[u]);
      AboveRank(par, rank, par[u], u) by {
        AboveUnfold(par, par[u], par[u]);
        AboveUnfold(par, par[u], u);
      }
    }
  }

  /** Every node of a tree lies below the root. */
  lemma {:induction false} RootAbove<V>(nodes: set<V>, root: V, par: map<V, V>, rank: map<V, nat>, y: V)
    requires IsTree(nodes, root, par, rank) && y in nodes
    ensures Above(par, root, y)
    decreases if y in par then rank[y] + 1 else 0
  {
    AboveUnfold(par, root, y);
    if y != root {
      RootAbove(nodes, root, par, rank, par[y]);
    }
  }

  // ----- giving one node a new parent -----

  lemma {:induction false} MoveAboveOutside<V>(par: map<V, V>, rank: map<V, nat>, t: V, q: V, x: V, y: V)
    requires Ranked(par, rank) && t in par && !Above(par, t, y)
    ensures Above(par[t := q], x, y) <==> Above(par, x, y)
    decreases if y in par then rank[y] + 1 else 0
  {
    AboveUnfold(par, t, y);
    AboveUnfold(par, x, y);
    AboveUnfold(par[t := q], x, y);
    if y in par {
      MoveAboveOutside(par, rank, t, q, x, par[y]);
    }
  }

  /** How the ancestor relation changes when t (with its subtree) is hung under q. */
  lemma {:induction false} MoveAbove<V>(par: map<V, V>, rank: map<V, nat>, t: V, q: V, x: V, y: V)
    requires Ranked(par, rank) && t in par && !Above(par, t, q)
    ensures Above(par[t := q], x, y) <==>
            if Above(par, t, y) then (Above(par, t, x) && Above(par, x, y)) || Above(par, x, q)
            else Above(par, x, y)
    decreases if y in par then rank[y] + 1 else 0
  {
    var par' := par[t := q];
    if !Above(par, t, y) {
      MoveAboveOutside(par, rank, t, q, x, y);
    } else {
      AboveUnfold(par', x, y);
      AboveUnfold(par, x, y);
      AboveUnfold(par, t, y);
      if y == t {
        MoveAboveOutside(par, rank, t, q, x, q);
        AboveUnfold(par, t, x);
        if x != t && Above(par, t, x) && Above(par, x, t) {
          AboveRank(par, rank, t, x);
        }
      } else {
        MoveAbove(par, rank, t, q, x, par[y]);
      }
    }
  }

  /** Ranks for the tree after the move: the moved subtree is shifted below q. */
  ghost function MovedRanks<V>(par: map<V, V>, rank: map<V, nat>, t: V, q: V): map<V, nat>
  {
    map y | y in rank :: if Above(par, t, y) then rank[y] + (if q in rank then rank[q] else 0) + 1 else rank[y]
  }

  lemma MoveKeepsTree<V>(nodes: set<V>, root: V, par: map<V, V>, rank: map<V, nat>, t: V, q: V)
    requires IsTree(nodes, root, par, rank) && t in par && q in nodes && !Above(par, t, q)
    requires q in rank
    ensures IsTree(nodes, root, par[t := q], MovedRanks(par, rank, t, q))
  {
    var par', rank' := par[t := q], MovedRanks(par, rank, t, q);
    forall y | y in par' ensures y in rank' && par'[y] in rank' && rank'[par'[y]] < rank'[y] {
      AboveUnfold(par, t, y);
    }
  }

  /** The subtrees after the move. */
  lemma MoveSubtrees<V>(nodes: set<V>, par: map<V, V>, rank: map<V, nat>, t: V, q: V, x: V)
    requires Ranked(par, rank) && t in par && !Above(par, t, q)
    ensures Above(par, t, x) ==> Subtree(nodes, par[t := q], x) == Subtree(nodes, par, x) && !Above(par, x, q)
    ensures !Above(par, t, x) ==>
              Subtree(nodes, par[t := q], x) ==
              Subtree(nodes, par, x) - Subtree(nodes, par, t) +
              (if Above(par, x, q) then Subtree(nodes, par, t) else {})
  {
    if Above(par, t, x) && Above(par, x, q) {
      AboveTrans(par, t, x, q);
    }
    forall y | y in nodes
      ensures Above(par[t := q], x, y) <==>
              if Above(par, t, y) then (Above(par, t, x) && Above(par, x, y)) || Above(par, x, q)
              else Above(par, x, y)
    {
      MoveAbove(par, rank, t, q, x, y);
      if Above(par, t, x) && Above(par, x, y) {
        AboveTrans(par, t, x, y);
      }
    }
  }

  lemma SubtreeParts<V>(nodes: set<V>, par: map<V, V>, rank: map<V, nat>, t: V, x: V)
    requires Ranked(par, rank) && !Above(par, t, x)
    ensures Above(par, x, t) ==> Subtree(nodes, par, t) <= Subtree(nodes, par, x)
    ensures !Above(par, x, t) ==> Subtree(nodes, par, t) !! Subtree(nodes, par, x)
  {
    forall y | y in Subtree(nodes, par, t)
      ensures y in Subtree(nodes, par, x) <==> Above(par, x, t)
    {
      if Above(par, x, t) {
        AboveTrans(par, x, t, y);
      } else if Above(par, x, y) {
        AboveLinear(par, rank, x, t, y);
      }
    }
  }

  lemma SwapSizes<V>(S: set<V>, T: set<V>)
    ensures T <= S ==> |S - T| == |S| - |T| && S - T + T == S
    ensures T !! S ==> |S + T| == |S| + |T| && S - T == S
  {
    if T <= S {
      assert S == (S - T) + T;
    }
  }

  /** Subtree sizes after the move: lost above the old place, gained above the new one. */
  lemma MoveSizes<V>(nodes: set<V>, par: map<V, V>, rank: map<V, nat>, t: V, q: V, x: V)
    requires Ranked(par, rank) && t in par && !Above(par, t, q)
    ensures |Subtree(nodes, par[t := q], x)| ==
            |Subtree(nodes, par, x)|
            + (if !Above(par, t, x) && Above(par, x, q) then |Subtree(nodes, par, t)| else 0)
            - (if !Above(par, t, x) && Above(par, x, t) then |Subtree(nodes, par, t)| else 0)
  {
    MoveSubtrees(nodes, par, rank, t, q, x);
    if !Above(par, t, x) {
      SubtreeParts(nodes, par, rank, t, x);
      SwapSizes(Subtree(nodes, par, x), Subtree(nodes, par, t));
    }
  }
}
