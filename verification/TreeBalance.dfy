/**
 What the update means for the network: flow is conserved at every node, the
 basis exchanges exactly one arc, and potential differences along basic arcs
 survive.  Everything here is about the closed forms that `UpdateTree` ensures.
 */
module TreeBalance {
  import opened Ancestry
  import opened TreeUpdate
  import opened TreePivot

  // ----- sums over the nodes -----

  ghost function Sum(xs: set<Node>, f: map<Node, int>): int
    requires xs <= f.Keys
  {
    if xs == {} then 0 else var x :| x in xs; f[x] + Sum(xs - {x}, f)
  }

  lemma {:induction false} SumPick(xs: set<Node>, f: map<Node, int>, x: Node)
    requires xs <= f.Keys && x in xs
    ensures Sum(xs, f) == f[x] + Sum(xs - {x}, f)
  {
    var y :| y in xs && Sum(xs, f) == f[y] + Sum(xs - {y}, f);
    if x != y {
      SumPick(xs - {y}, f, x);
      SumPick(xs - {x}, f, y);
      assert xs - {y} - {x} == xs - {x} - {y};
    }
  }

  lemma {:induction false} SumAgree(xs: set<Node>, f: map<Node, int>, g: map<Node, int>)
    requires xs <= f.Keys && xs <= g.Keys && forall x :: x in xs ==> f[x] == g[x]
    ensures Sum(xs, f) == Sum(xs, g)
  {
    if xs != {} {
      var x :| x in xs;
      SumPick(xs, f, x);
      SumPick(xs, g, x);
      SumAgree(xs - {x}, f, g);
    }
  }

  lemma SumUpdate(xs: set<Node>, f: map<Node, int>, g: map<Node, int>, x: Node)
    requires xs <= f.Keys && xs <= g.Keys && x in xs && forall y :: y in xs && y != x ==> f[y] == g[y]
    ensures Sum(xs, g) == Sum(xs, f) - f[x] + g[x]
  {
    SumPick(xs, f, x);
    SumPick(xs, g, x);
    SumAgree(xs - {x}, f, g);
  }

  // ----- net outflow -----

  /** The flow that leaves a node over its basic arc, i.e. towards its parent. */
  function Upward(a: NodeData): int
  {
    if a.orientation == 0 then -a.flow else a.flow
  }

  ghost function Share(par: map<Node, Node>, up: map<Node, int>, n: Node): map<Node, int>
    requires par.Keys <= up.Keys
  {
    map x | x in par :: (if x == n then up[x] else 0) - (if par[x] == n then up[x] else 0)
  }

  /** What leaves n over all tree arcs, minus what enters it. */
  ghost function Outflow(par: map<Node, Node>, up: map<Node, int>, n: Node): int
    requires par.Keys <= up.Keys
  {
    Sum(par.Keys, Share(par, up, n))
  }

  /** One node x is given a new parent and a new flow. */
  lemma OutflowUpdate(par: map<Node, Node>, up: map<Node, int>, par': map<Node, Node>, up': map<Node, int>, x: Node, n: Node)
    requires par.Keys <= up.Keys && x in par && par'.Keys == par.Keys <= up'.Keys
    requires forall y :: y in par && y != x ==> par'[y] == par[y] && up'[y] == up[y]
    ensures Outflow(par', up', n) == Outflow(par, up, n)
            - (if x == n then up[x] else 0) + (if par[x] == n then up[x] else 0)
            + (if x == n then up'[x] else 0) - (if par'[x] == n then up'[x] else 0)
  {
    SumUpdate(par.Keys, Share(par, up, n), Share(par', up', n), x);
  }

  // ----- along the re-rooted path -----

  ghost function ParentsAt(par: map<Node, Node>, p: seq<Node>, jplus: Node, k: nat): map<Node, Node>
    requires k <= |p|
  {
    map x | x in par :: ParentAfter(par, p, jplus, k, x)
  }

  ghost function UpAt(data: map<Node, NodeData>, p: seq<Node>, v: Pivot, k: nat): map<Node, int>
    requires k <= |p|
  {
    map x | x in data :: Upward(DataAfter(data, p, v, k, x))
  }

  /** Orientations are 0 or 1, as the callers of update_tree ensure. */
  ghost predicate Oriented(data: map<Node, NodeData>, cycleOri: int)
  {
    0 <= cycleOri <= 1 && forall x :: x in data ==> 0 <= data[x].orientation <= 1
  }

  /** p is a path without repetition from p[0] up to a child of jminus. */
  ghost predicate Climbs(par: map<Node, Node>, p: seq<Node>, jminus: Node)
  {
    NoDuplicates(p) && forall j :: 0 <= j < |p| ==> p[j] in par && par[p[j]] == PathNode(p, jminus, j + 1)
  }

  /** The amount of flow that the pivot sends round the cycle: iminus .. iplus, jplus .. w .. jminus. */
  function Round(v: Pivot): int
  {
    if v.cycleOri == 0 then -v.delta else v.delta
  }

  lemma TurnedUpward(a: NodeData, v: Pivot)
    requires 0 <= a.orientation <= 1 && 0 <= v.cycleOri <= 1
    ensures Upward(Turned(a, v.cycleOri, v.delta, v.d)) == Round(v) - Upward(a)
  {
  }

  lemma OnePass(par: map<Node, Node>, p: seq<Node>, jplus: Node, jminus: Node,
                data: map<Node, NodeData>, v: Pivot, k: nat, n: Node)
    requires Climbs(par, p, jminus) && par.Keys <= data.Keys && k < |p|
    ensures var given := Upward(Handed(data, p, v, k));
            Outflow(ParentsAt(par, p, jplus, k + 1), UpAt(data, p, v, k + 1), n) ==
            Outflow(ParentsAt(par, p, jplus, k), UpAt(data, p, v, k), n)
            + (if p[k] == n then given - Upward(data[p[k]]) else 0)
            + (if PathNode(p, jminus, k + 1) == n then Upward(data[p[k]]) else 0)
            - (if NewPred(p, jplus, k) == n then given else 0)
  {
    forall y | y in data
      ensures DataAfter(data, p, v, k + 1, y) == if y == p[k] then Handed(data, p, v, k) else DataAfter(data, p, v, k, y)
      ensures DataAfter(data, p, v, k, p[k]) == data[p[k]]
    {
      DataPass(data, p, v, k, y);
    }
    forall y | y in par
      ensures ParentAfter(par, p, jplus, k + 1, y) == if y == p[k] then NewPred(p, jplus, k) else ParentAfter(par, p, jplus, k, y)
      ensures ParentAfter(par, p, jplus, k, p[k]) == par[p[k]]
    {
      assert y in p[..k + 1] <==> y in p[..k] || y == p[k];
      assert p[k] !in p[..k];
    }
    OutflowUpdate(ParentsAt(par, p, jplus, k), UpAt(data, p, v, k),
                  ParentsAt(par, p, jplus, k + 1), UpAt(data, p, v, k + 1), p[k], n);
  }

  lemma {:induction false} OutflowAlong(par: map<Node, Node>, p: seq<Node>, jplus: Node, jminus: Node,
                                        data: map<Node, NodeData>, v: Pivot, k: nat, n: Node)
    requires Climbs(par, p, jminus) && par.Keys <= data.Keys && Oriented(data, v.cycleOri)
    requires 1 <= k <= |p|
    ensures Outflow(ParentsAt(par, p, jplus, k), UpAt(data, p, v, k), n) ==
            Outflow(ParentsAt(par, p, jplus, 0), UpAt(data, p, v, 0), n)
            + (if n == p[0] then Upward(v.first) - Round(v) else 0) - (if n == jplus then Upward(v.first) else 0)
            + (if n == p[k - 1] then Round(v) - Upward(data[p[k - 1]]) else 0)
            + (if n == PathNode(p, jminus, k) then Upward(data[p[k - 1]]) else 0)
  {
    OnePass(par, p, jplus, jminus, data, v, k - 1, n);
    if k > 1 {
      OutflowAlong(par, p, jplus, jminus, data, v, k - 1, n);
      TurnedUpward(data[p[k - 2]], v);
    }
  }

  // ----- along the two walks -----

  lemma WalkSplits(t: Shape, cur: Node, w: Node, x: Node)
    requires WellFormed(t) && cur in t.par && Above(t.par, w, cur) && cur != w
    ensures OnWalk(t.par, cur, w, x) <==> x == cur || OnWalk(t.par, t.par[cur], w, x)
    ensures !OnWalk(t.par, t.par[cur], w, cur)
  {
    AboveUnfold(t.par, x, cur);
    AboveUnfold(t.par, cur, cur);
    AboveUnfold(t.par, t.par[cur], t.par[cur]);
    AboveUnfold(t.par, t.par[cur], cur);
    AboveRank(t.par, t.rank, t.par[cur], cur);
    AboveRank(t.par, t.rank, w, cur);
  }

  ghost function Raised(t: Shape, up: map<Node, int>, cur: Node, w: Node, amount: int): map<Node, int>
  {
    map x | x in up :: up[x] + if OnWalk(t.par, cur, w, x) then amount else 0
  }

  /** Raising the flow on the walk from cur to w moves that amount from w to cur and changes nothing in between. */
  lemma {:induction false} OutflowWalk(t: Shape, up: map<Node, int>, cur: Node, w: Node, amount: int, n: Node)
    requires WellFormed(t) && t.par.Keys <= up.Keys && Above(t.par, w, cur)
    ensures Outflow(t.par, Raised(t, up, cur, w, amount), n) ==
            Outflow(t.par, up, n) + (if n == cur then amount else 0) - (if n == w then amount else 0)
    decreases if cur in t.par then t.rank[cur] + 1 else 0
  {
    hide KidsMatch;
    AboveUnfold(t.par, w, cur);
    if cur == w {
      assert Raised(t, up, cur, w, amount) == up;
    } else {
      var next := t.par[cur];
      OutflowWalk(t, up, next, w, amount, n);
      forall x ensures OnWalk(t.par, cur, w, x) <==> x == cur || OnWalk(t.par, next, w, x)
               ensures !OnWalk(t.par, next, w, cur)
      {
        WalkSplits(t, cur, w, x);
      }
      OutflowUpdate(t.par, Raised(t, up, next, w, amount), t.par, Raised(t, up, cur, w, amount), cur, n);
    }
  }

  ghost function Ups(data: map<Node, NodeData>): map<Node, int>
  {
    map x | x in data :: Upward(data[x])
  }

  /** The data after the update, as UpdateTree ensures it. */
  ghost predicate Updated(s: Shape, p: seq<Node>, data: map<Node, NodeData>, v: Pivot, jminus: Node, jplus: Node, w: Node,
                          moveFlow: bool, final: map<Node, NodeData>)
  {
    && data.Keys == s.nodes && final.Keys == s.nodes
    && forall x :: x in s.nodes ==>
         final[x] == AfterWalks(s.par, DataAfter(data, p, v, |p|, x), jminus, jplus, w, v.cycleOri, v.delta, moveFlow, v.d, x)
  }

  lemma WalkedUpward(a: NodeData, upward: bool, v: Pivot, moveFlow: bool)
    requires 0 <= a.orientation <= 1 && 0 <= v.cycleOri <= 1
    ensures var b := Walked(a, upward, v.cycleOri, v.delta, moveFlow, v.d);
            && b.orientation == a.orientation
            && Upward(b) == Upward(a) + if !moveFlow then 0 else if upward then Round(v) else -Round(v)
  {
  }

  lemma DataOriented(data: map<Node, NodeData>, p: seq<Node>, v: Pivot, x: Node)
    requires Oriented(data, v.cycleOri) && 0 <= v.first.orientation <= 1 && x in data
    ensures 0 <= DataAfter(data, p, v, |p|, x).orientation <= 1
  {
  }

  lemma AfterWalksUpward(par: map<Node, Node>, a: NodeData, jminus: Node, jplus: Node, w: Node, v: Pivot, moveFlow: bool, x: Node)
    requires 0 <= a.orientation <= 1 && 0 <= v.cycleOri <= 1
    ensures Upward(AfterWalks(par, a, jminus, jplus, w, v.cycleOri, v.delta, moveFlow, v.d, x)) == Upward(a)
            - (if OnWalk(par, jminus, w, x) && moveFlow then Round(v) else 0)
            + (if OnWalk(par, jplus, w, x) && moveFlow then Round(v) else 0)
  {
    hide Walked, OnWalk, Upward, Round;
    WalkedUpward(a, false, v, moveFlow);
    WalkedUpward(Walked(a, false, v.cycleOri, v.delta, moveFlow, v.d), true, v, moveFlow);
    WalkedUpward(a, true, v, moveFlow);
  }

  lemma FinalUps(s: Shape, p: seq<Node>, data: map<Node, NodeData>, v: Pivot, jminus: Node, jplus: Node, w: Node,
                 moveFlow: bool, final: map<Node, NodeData>, t: Shape)
    requires |p| > 0 && Updated(s, p, data, v, jminus, jplus, w, moveFlow, final)
    requires Oriented(data, v.cycleOri) && 0 <= v.first.orientation <= 1
    requires forall x :: OnWalk(t.par, jminus, w, x) <==> OnWalk(s.par, jminus, w, x)
    requires forall x :: OnWalk(t.par, jplus, w, x) <==> OnWalk(s.par, jplus, w, x)
    ensures var amount := if moveFlow then Round(v) else 0;
            Ups(final) == Raised(t, Raised(t, UpAt(data, p, v, |p|), jminus, w, -amount), jplus, w, amount)
  {
    hide Walked, OnWalk, Upward, Round, DataAfter, AfterWalks, Oriented;
    forall x | x in s.nodes
      ensures Upward(final[x]) == Upward(DataAfter(data, p, v, |p|, x))
              - (if OnWalk(t.par, jminus, w, x) && moveFlow then Round(v) else 0)
              + (if OnWalk(t.par, jplus, w, x) && moveFlow then Round(v) else 0)
    {
      DataOriented(data, p, v, x);
      assert 0 <= v.cycleOri <= 1 by {
        OrientedCycle(data, v.cycleOri);
      }
      AfterWalksUpward(s.par, DataAfter(data, p, v, |p|, x), jminus, jplus, w, v, moveFlow, x);
    }
  }

  lemma OrientedCycle(data: map<Node, NodeData>, cycleOri: int)
    requires Oriented(data, cycleOri)
    ensures 0 <= cycleOri <= 1
  {
  }

  lemma PathClimbs(s: Shape, p: seq<Node>, iplus: Node, jplus: Node, iminus: Node, jminus: Node)
    requires PivotPath(s, p, iplus, jplus, iminus, jminus)
    ensures Climbs(s.par, p, jminus) && |p| > 0 && p[0] == iplus && p[|p| - 1] == iminus && s.par.Keys <= s.nodes
  {
    forall j | 0 <= j < |p| ensures p[j] in s.par && s.par[p[j]] == PathNode(p, jminus, j + 1) {
      PathMembers(s, p, iplus, jplus, iminus, jminus, j);
    }
    PathMembers(s, p, iplus, jplus, iminus, jminus, 0);
  }

  /**
   Conservation of flow.  The entering arc bea carries, besides the flow that
   went round, the amount enters = Upward(v.first) - Round(v) from iplus to
   jplus, and the arc that leaves the basis would carry leaves =
   Upward(data[iminus]) - Round(v) from iminus to jminus.  Counting these two,
   the net outflow of every node is what it was.  When the walks do not move
   flow (delta <= feas_tol) the amount Round(v) is missing between jminus and jplus.
   */
  lemma FlowIsConserved(s: Shape, p: seq<Node>, iplus: Node, jplus: Node, iminus: Node, jminus: Node, w: Node,
                        data: map<Node, NodeData>, v: Pivot, moveFlow: bool, final: map<Node, NodeData>, t: Shape, n: Node)
    requires PivotPath(s, p, iplus, jplus, iminus, jminus) && RerootedTo(s, p, jplus, |p|, t)
    requires w in s.nodes && Above(s.par, w, jminus) && Above(s.par, w, jplus)
    requires Updated(s, p, data, v, jminus, jplus, w, moveFlow, final)
    requires Oriented(data, v.cycleOri) && 0 <= v.first.orientation <= 1
    requires t.par.Keys <= final.Keys && s.par.Keys <= data.Keys && iminus in data
    ensures var enters, leaves := Upward(v.first) - Round(v), Upward(data[iminus]) - Round(v);
            Outflow(t.par, Ups(final), n) + (if n == iminus then leaves else 0) - (if n == jminus then leaves else 0) ==
            Outflow(s.par, Ups(data), n) + (if n == iplus then enters else 0) - (if n == jplus then enters else 0)
            + if moveFlow then 0 else (if n == jminus then Round(v) else 0) - (if n == jplus then Round(v) else 0)
  {
    hide WellFormed, Updated, OnWalk, RerootedTo, PivotPath, Linked, Outflow, Raised, Ups, UpAt, ParentsAt, Climbs, Oriented, Upward, Round;
    PathClimbs(s, p, iplus, jplus, iminus, jminus);
    FlowEnds(s, p, jplus, t, data, v);
    WalksFit(s, p, iplus, jplus, iminus, jminus, t, w);
    var amount := if moveFlow then Round(v) else 0;
    var up := UpAt(data, p, v, |p|);
    UpdatedKeys(s, p, data, v, jminus, jplus, w, moveFlow, final);
    FinalUps(s, p, data, v, jminus, jplus, w, moveFlow, final, t);
    KeysOf(t, data, p, v, jminus, w, -amount);
    OutflowWalk(t, Raised(t, up, jminus, w, -amount), jplus, w, amount, n);
    OutflowWalk(t, up, jminus, w, -amount, n);
    OutflowAlong(s.par, p, jplus, jminus, data, v, |p|, n);
  }

  lemma KeysOf(t: Shape, data: map<Node, NodeData>, p: seq<Node>, v: Pivot, cur: Node, w: Node, amount: int)
    ensures UpAt(data, p, v, |p|).Keys == data.Keys
    ensures Raised(t, UpAt(data, p, v, |p|), cur, w, amount).Keys == data.Keys
  {
  }

  lemma FlowEnds(s: Shape, p: seq<Node>, jplus: Node, t: Shape, data: map<Node, NodeData>, v: Pivot)
    requires RerootedTo(s, p, jplus, |p|, t)
    ensures ParentsAt(s.par, p, jplus, |p|) == t.par && ParentsAt(s.par, p, jplus, 0) == s.par
    ensures UpAt(data, p, v, 0) == Ups(data)
    ensures WellFormed(t)
  {
    hide WellFormed;
  }

  lemma UpdatedKeys(s: Shape, p: seq<Node>, data: map<Node, NodeData>, v: Pivot, jminus: Node, jplus: Node, w: Node,
                    moveFlow: bool, final: map<Node, NodeData>)
    requires Updated(s, p, data, v, jminus, jplus, w, moveFlow, final)
    ensures data.Keys == s.nodes == final.Keys
  {
  }

  // ----- the basis -----

  /** The nodes whose basic arc is a. */
  ghost function Holders(data: map<Node, NodeData>, p: seq<Node>, v: Pivot, k: nat, a: Arc?): set<Node>
    requires k <= |p|
  {
    set x | x in data && DataAfter(data, p, v, k, x).basicArc == a
  }

  lemma SwapOne(H: set<Node>, G: set<Node>, x: Node)
    requires H - {x} == G - {x}
    ensures |G| == |H| - (if x in H then 1 else 0) + (if x in G then 1 else 0)
  {
    assert H == (if x in H then H - {x} + {x} else H - {x});
    assert G == (if x in G then G - {x} + {x} else G - {x});
  }

  /**
   The basis exchanges one arc: for every arc a, the number of nodes that hold a
   drops by one for the arc of the last node moved and grows by one for bea.
   */
  lemma {:induction false} BasisExchange(data: map<Node, NodeData>, p: seq<Node>, v: Pivot, k: nat, a: Arc?)
    requires NoDuplicates(p) && (forall z :: z in p ==> z in data) && 1 <= k <= |p|
    ensures |Holders(data, p, v, k, a)| == |Holders(data, p, v, 0, a)|
            - (if data[p[k - 1]].basicArc == a then 1 else 0) + (if v.first.basicArc == a then 1 else 0)
  {
    forall x | x in data
      ensures DataAfter(data, p, v, k, x) == if x == p[k - 1] then Handed(data, p, v, k - 1) else DataAfter(data, p, v, k - 1, x)
      ensures DataAfter(data, p, v, k - 1, p[k - 1]) == data[p[k - 1]]
    {
      DataPass(data, p, v, k - 1, x);
    }
    SwapOne(Holders(data, p, v, k - 1, a), Holders(data, p, v, k, a), p[k - 1]);
    if k > 1 {
      BasisExchange(data, p, v, k - 1, a);
      assert Handed(data, p, v, k - 1).basicArc == data[p[k - 2]].basicArc;
    }
  }

  // ----- the tree and its arcs -----

  /** The new tree: iplus hangs under jplus, the path from iplus up to iminus runs the other way, all else is as it was. */
  lemma PathReversed(s: Shape, p: seq<Node>, iplus: Node, jplus: Node, iminus: Node, jminus: Node, t: Shape, x: Node)
    requires PivotPath(s, p, iplus, jplus, iminus, jminus) && RerootedTo(s, p, jplus, |p|, t) && x in s.par
    ensures t.par.Keys == s.par.Keys && iplus in t.par && t.par[iplus] == jplus
    ensures var onPath := Above(s.par, iminus, x) && Above(s.par, x, iplus);
            && (!onPath ==> t.par[x] == s.par[x])
            && (onPath && x != iminus ==> s.par[x] in t.par && t.par[s.par[x]] == x)
  {
    hide *;
    PathEnds(s, p, iplus, jplus, iminus, jminus, x);
    NewParent(s, p, iplus, jplus, iminus, jminus, t, iplus);
    NewParent(s, p, iplus, jplus, iminus, jminus, t, x);
    if x in p && x != iminus {
      var i := IndexOf(p, x);
      PathMembers(s, p, iplus, jplus, iminus, jminus, i);
      PathNext(p, jminus, i);
      PathMembers(s, p, iplus, jplus, iminus, jminus, i + 1);
      NewParent(s, p, iplus, jplus, iminus, jminus, t, p[i + 1]);
    }
  }

  lemma PathNext(p: seq<Node>, jminus: Node, i: nat)
    requires i < |p| && p[i] != p[|p| - 1]
    ensures i + 1 < |p| && PathNode(p, jminus, i + 1) == p[i + 1]
  {
  }

  lemma PathEnds(s: Shape, p: seq<Node>, iplus: Node, jplus: Node, iminus: Node, jminus: Node, x: Node)
    requires PivotPath(s, p, iplus, jplus, iminus, jminus)
    ensures |p| > 0 && p[0] == iplus && p[|p| - 1] == iminus && iplus in s.par && IndexOf(p, iplus) == 0
    ensures x in p <==> Above(s.par, iminus, x) && Above(s.par, x, iplus)
  {
    hide KidsMatch;
    PathUpFacts(s.par, s.rank, iplus, iminus);
    PathMembers(s, p, iplus, jplus, iminus, jminus, 0);
  }

  lemma NewParent(s: Shape, p: seq<Node>, iplus: Node, jplus: Node, iminus: Node, jminus: Node, t: Shape, x: Node)
    requires PivotPath(s, p, iplus, jplus, iminus, jminus) && RerootedTo(s, p, jplus, |p|, t) && x in s.par
    ensures x in t.par && t.par.Keys == s.par.Keys
    ensures t.par[x] == if x !in p then s.par[x] else if IndexOf(p, x) == 0 then jplus else p[IndexOf(p, x) - 1]
  {
    hide WellFormed, PivotPath;
    assert p[..|p|] == p;
  }

  datatype Ends = Ends(tail: Node, head: Node)

  /** The basic arc of x joins x with its parent, and the orientation tells in which direction. */
  ghost predicate Fits(ends: map<Arc, Ends>, a: NodeData, x: Node, parent: Node)
  {
    && a.basicArc != null && a.basicArc in ends
    && (a.orientation == 1 ==> ends[a.basicArc] == Ends(x, parent))
    && (a.orientation == 0 ==> ends[a.basicArc] == Ends(parent, x))
  }

  /** When every basic arc joins its node with the parent, and bea joins iplus with jplus, this is so afterwards. */
  lemma ArcsStillFit(s: Shape, p: seq<Node>, iplus: Node, jplus: Node, iminus: Node, jminus: Node, w: Node,
                     data: map<Node, NodeData>, v: Pivot, moveFlow: bool, final: map<Node, NodeData>, t: Shape,
                     ends: map<Arc, Ends>, x: Node)
    requires PivotPath(s, p, iplus, jplus, iminus, jminus) && RerootedTo(s, p, jplus, |p|, t)
    requires Updated(s, p, data, v, jminus, jplus, w, moveFlow, final) && Oriented(data, v.cycleOri)
    requires forall y :: y in s.par && y in data ==> Fits(ends, data[y], y, s.par[y])
    requires Fits(ends, v.first, iplus, jplus) && x in t.par && x in final
    ensures Fits(ends, final[x], x, t.par[x])
  {
    hide *;
    KeysKept(s, p, jplus, t, x);
    PathEnds(s, p, iplus, jplus, iminus, jminus, x);
    NewParent(s, p, iplus, jplus, iminus, jminus, t, x);
    UpdatedKeys(s, p, data, v, jminus, jplus, w, moveFlow, final);
    RerootInit(s, p, iplus, jplus, iminus, jminus);
    FinalArc(s, p, data, v, jminus, jplus, w, moveFlow, final, x);
    var from := data[x];
    if x in p {
      var i := IndexOf(p, x);
      PathMembers(s, p, iplus, jplus, iminus, jminus, i);
      if i > 0 {
        var y := p[i - 1];
        PathMembers(s, p, iplus, jplus, iminus, jminus, i - 1);
        PathAt(p, jminus, i);
        assert Fits(ends, data[y], y, s.par[y]) by {
          KeysKept(s, p, jplus, t, y);
        }
        TurnedFits(ends, data, v, y, x);
        from := Turned(data[y], v.cycleOri, v.delta, v.d);
      } else {
        from := v.first;
      }
    }
    FitsAlike(ends, from, final[x], x, t.par[x]);
  }

  lemma FitsAlike(ends: map<Arc, Ends>, a: NodeData, b: NodeData, x: Node, parent: Node)
    requires Fits(ends, a, x, parent) && a.basicArc == b.basicArc && a.orientation == b.orientation
    ensures Fits(ends, b, x, parent)
  {
  }

  lemma PathAt(p: seq<Node>, jminus: Node, i: nat)
    requires i < |p|
    ensures PathNode(p, jminus, i) == p[i]
  {
  }

  lemma KeysKept(s: Shape, p: seq<Node>, jplus: Node, t: Shape, x: Node)
    requires RerootedTo(s, p, jplus, |p|, t)
    ensures x in t.par <==> x in s.par
    ensures x in t.par ==> x in s.nodes
  {
  }

  /** Walking over a node touches neither its arc nor the orientation. */
  lemma FinalArc(s: Shape, p: seq<Node>, data: map<Node, NodeData>, v: Pivot, jminus: Node, jplus: Node, w: Node,
                 moveFlow: bool, final: map<Node, NodeData>, x: Node)
    requires Updated(s, p, data, v, jminus, jplus, w, moveFlow, final) && x in final
    requires NoDuplicates(p) && forall z :: z in p ==> z in data
    ensures x in data
    ensures var a := if x !in p then data[x] else if IndexOf(p, x) == 0 then v.first
                     else Turned(data[p[IndexOf(p, x) - 1]], v.cycleOri, v.delta, v.d);
            final[x].basicArc == a.basicArc && final[x].orientation == a.orientation
  {
    hide OnWalk, Turned;
    assert p[..|p|] == p;
  }

  lemma TurnedFits(ends: map<Arc, Ends>, data: map<Node, NodeData>, v: Pivot, y: Node, x: Node)
    requires Oriented(data, v.cycleOri) && y in data && Fits(ends, data[y], y, x)
    ensures Fits(ends, Turned(data[y], v.cycleOri, v.delta, v.d), x, y)
  {
  }

  /** The nodes of the path lie below iminus, so neither walk meets them. */
  lemma PathOffWalks(s: Shape, p: seq<Node>, iplus: Node, jplus: Node, iminus: Node, jminus: Node, w: Node, x: Node)
    requires PivotPath(s, p, iplus, jplus, iminus, jminus) && Above(s.par, iminus, x)
    ensures !OnWalk(s.par, jminus, w, x) && !OnWalk(s.par, jplus, w, x)
  {
    hide *;
    EnteringEnds(s, p, iplus, jplus, iminus, jminus);
    JminusOutside(s, p, iplus, jplus, iminus, jminus);
    WalkBelow(s.par, jminus, w, x);
    WalkBelow(s.par, jplus, w, x);
    if Above(s.par, x, jminus) {
      AboveTrans(s.par, iminus, x, jminus);
    }
    if Above(s.par, x, jplus) {
      AboveTrans(s.par, iminus, x, jplus);
    }
  }

  lemma WalkBelow(par: map<Node, Node>, from: Node, w: Node, x: Node)
    ensures OnWalk(par, from, w, x) ==> Above(par, x, from)
  {
  }

  /** What x gains when its arc has this orientation and delta goes round towards orientation cycleOri. */
  function Gain(orientation: int, v: Pivot): int
  {
    if orientation == v.cycleOri then v.delta else -v.delta
  }

  /**
   The flow of every arc of the old basis that stays in it.  On the jplus side of
   the cycle an arc of the cycle's orientation gains delta and any other loses
   delta; on the iplus side (the path) and the jminus side it is the other way
   round.  An arc of the path is afterwards held by the other end of it.
   */
  lemma ArcFlow(s: Shape, p: seq<Node>, iplus: Node, jplus: Node, iminus: Node, jminus: Node, w: Node,
                data: map<Node, NodeData>, v: Pivot, moveFlow: bool, final: map<Node, NodeData>, y: Node)
    requires PivotPath(s, p, iplus, jplus, iminus, jminus)
    requires Updated(s, p, data, v, jminus, jplus, w, moveFlow, final) && Oriented(data, v.cycleOri)
    requires y in s.par && y in data && y != iminus
    ensures var onPath := Above(s.par, iminus, y) && Above(s.par, y, iplus);
            var holder, gain := if onPath then s.par[y] else y, Gain(data[y].orientation, v);
            && holder in final && final[holder].basicArc == data[y].basicArc
            && final[holder].flow == data[y].flow
                                     - (if onPath || (moveFlow && OnWalk(s.par, jminus, w, y)) then gain else 0)
                                     + (if moveFlow && OnWalk(s.par, jplus, w, y) then gain else 0)
  {
    hide *;
    PathEnds(s, p, iplus, jplus, iminus, jminus, y);
    UpdatedKeys(s, p, data, v, jminus, jplus, w, moveFlow, final);
    RerootInit(s, p, iplus, jplus, iminus, jminus);
    if y in p {
      var i := IndexOf(p, y);
      PathMembers(s, p, iplus, jplus, iminus, jminus, i);
      PathNext(p, jminus, i);
      PathMembers(s, p, iplus, jplus, iminus, jminus, i + 1);
      PathOffWalks(s, p, iplus, jplus, iminus, jminus, w, y);
      PathOffWalks(s, p, iplus, jplus, iminus, jminus, w, p[i + 1]);
      HandedFlow(s, p, data, v, jminus, jplus, w, moveFlow, final, i);
    } else {
      WalkedFlow(s, p, data, v, jminus, jplus, w, moveFlow, final, y);
    }
  }

  lemma HandedFlow(s: Shape, p: seq<Node>, data: map<Node, NodeData>, v: Pivot, jminus: Node, jplus: Node, w: Node,
                   moveFlow: bool, final: map<Node, NodeData>, i: nat)
    requires Updated(s, p, data, v, jminus, jplus, w, moveFlow, final) && Oriented(data, v.cycleOri)
    requires i + 1 < |p| && p[i] in data && p[i + 1] in data && IndexOf(p, p[i + 1]) == i + 1
    requires !OnWalk(s.par, jminus, w, p[i + 1]) && !OnWalk(s.par, jplus, w, p[i + 1])
    ensures p[i + 1] in final && final[p[i + 1]].basicArc == data[p[i]].basicArc
    ensures final[p[i + 1]].flow == data[p[i]].flow - Gain(data[p[i]].orientation, v)
  {
    hide OnWalk;
    assert p[..|p|] == p;
    assert 0 <= data[p[i]].orientation <= 1;
  }

  lemma WalkedFlow(s: Shape, p: seq<Node>, data: map<Node, NodeData>, v: Pivot, jminus: Node, jplus: Node, w: Node,
                   moveFlow: bool, final: map<Node, NodeData>, y: Node)
    requires Updated(s, p, data, v, jminus, jplus, w, moveFlow, final) && y in data && y !in p
    ensures y in final && final[y].basicArc == data[y].basicArc
    ensures final[y].flow == data[y].flow
                             - (if moveFlow && OnWalk(s.par, jminus, w, y) then Gain(data[y].orientation, v) else 0)
                             + (if moveFlow && OnWalk(s.par, jplus, w, y) then Gain(data[y].orientation, v) else 0)
  {
    hide OnWalk;
    assert p[..|p|] == p;
  }

  // ----- potentials -----

  /** Adding sigma below iminus keeps the potential difference along every arc of the new tree except bea. */
  lemma DifferencesKept(s: Shape, p: seq<Node>, iplus: Node, jplus: Node, iminus: Node, jminus: Node, t: Shape,
                        before: map<Node, int>, after: map<Node, int>, sigma: int, x: Node)
    requires PivotPath(s, p, iplus, jplus, iminus, jminus) && RerootedTo(s, p, jplus, |p|, t)
    requires before.Keys == after.Keys == s.nodes
    requires forall y :: y in s.nodes ==> after[y] == before[y] + if Above(s.par, iminus, y) then sigma else 0
    requires x in t.par && x in s.nodes && t.par[x] in s.nodes
    ensures after[x] - after[t.par[x]] == before[x] - before[t.par[x]] + if x == iplus then sigma else 0
  {
    hide WellFormed;
    PathClimbs(s, p, iplus, jplus, iminus, jminus);
    if x in p {
      var i := IndexOf(p, x);
      PathMembers(s, p, iplus, jplus, iminus, jminus, i);
      if i > 0 {
        PathMembers(s, p, iplus, jplus, iminus, jminus, i - 1);
      }
    } else {
      assert t.par[x] == s.par[x];
      AboveUnfold(s.par, iminus, x);
      assert x != iminus;
    }
  }
}
