/**
 The last part of `update_tree` (the two walks to the common ancestor w) and
 the whole update.
 */
module TreePivot {
  import opened Ancestry
  import opened TreeUpdate
  import opened PotentialWalk

  /** One pass of a repair loop over a node: upward is the walk from jplus, downward the one from jminus. */
  function Walked(a: NodeData, upward: bool, cycleOri: int, delta: int, moveFlow: bool, d: int): NodeData
  {
    var flow := if !moveFlow then a.flow
                else if (a.orientation == cycleOri) == upward then a.flow + delta
                else a.flow - delta;
    NodeData(a.orientation, flow, a.basicArc, if upward then a.depth + d else a.depth - d)
  }

  /** x lies on the walk from `from` up to, but not including, w. */
  ghost predicate OnWalk(par: map<Node, Node>, from: Node, w: Node, x: Node)
  {
    Above(par, x, from) && !Above(par, x, w)
  }

  lemma WalkStep(s: Shape, from: Node, temp: Node, x: Node)
    requires WellFormed(s) && temp in s.par && Above(s.par, temp, from)
    ensures OnWalk(s.par, from, s.par[temp], x) <==> OnWalk(s.par, from, temp, x) || x == temp
    ensures !OnWalk(s.par, from, temp, temp)
  {
    AboveUnfold(s.par, x, temp);
    AboveUnfold(s.par, temp, temp);
    AboveUnfold(s.par, s.par[temp], s.par[temp]);
    AboveUnfold(s.par, s.par[temp], temp);
    AboveRank(s.par, s.rank, s.par[temp], temp);
  }

  lemma WalkNext(s: Shape, from: Node, temp: Node, w: Node)
    requires WellFormed(s) && temp in s.nodes && Above(s.par, temp, from) && Above(s.par, w, temp) && temp != w
    ensures temp in s.par && s.par[temp] in s.nodes && Above(s.par, s.par[temp], from) && Above(s.par, w, s.par[temp])
    ensures RankOf(s, s.par[temp]) < RankOf(s, temp)
  {
    AboveUnfold(s.par, w, temp);
    AboveUnfold(s.par, s.par[temp], s.par[temp]);
    AboveUnfold(s.par, s.par[temp], temp);
    AboveTrans(s.par, s.par[temp], temp, from);
  }

  ghost predicate WalkedTo(s: Shape, before: map<Node, NodeData>, from: Node, temp: Node, upward: bool,
                           cycleOri: int, delta: int, moveFlow: bool, d: int)
    reads s.nodes`orientation, s.nodes`flow, s.nodes`basicArc, s.nodes`depth
  {
    && before.Keys == s.nodes
    && forall x {:trigger DataOf(x)} :: x in s.nodes ==>
      DataOf(x) == if OnWalk(s.par, from, temp, x) then Walked(before[x], upward, cycleOri, delta, moveFlow, d) else before[x]
  }

  method WalkOver(temp: Node, upward: bool, cycleOri: int, delta: int, moveFlow: bool, d: int,
                  ghost s: Shape, ghost before: map<Node, NodeData>, ghost from: Node)
    requires WellFormed(s) && temp in s.par && temp in s.nodes && Above(s.par, temp, from)
    requires WalkedTo(s, before, from, temp, upward, cycleOri, delta, moveFlow, d)
    modifies temp`flow, temp`depth
    ensures WalkedTo(s, before, from, s.par[temp], upward, cycleOri, delta, moveFlow, d)
  {
    hide WellFormed, OnWalk;
    WalkStep(s, from, temp, temp);
    assert DataOf(temp) == before[temp];
    if upward {
      temp.depth := temp.depth + d;
    } else {
      temp.depth := temp.depth - d;
    }
    if moveFlow {
      if (temp.orientation == cycleOri) == upward {
        temp.flow := temp.flow + delta;
      } else {
        temp.flow := temp.flow - delta;
      }
    }
    assert DataOf(temp) == Walked(before[temp], upward, cycleOri, delta, moveFlow, d);
    forall x | x in s.nodes
      ensures DataOf(x) == if OnWalk(s.par, from, s.par[temp], x) then Walked(before[x], upward, cycleOri, delta, moveFlow, d) else before[x]
    {
      WalkStep(s, from, temp, x);
      assert x != temp ==> DataOf(x) == old(DataOf(x));
    }
  }

  lemma WalkStarts(s: Shape, before: map<Node, NodeData>, from: Node, upward: bool,
                   cycleOri: int, delta: int, moveFlow: bool, d: int)
    requires before == DataMap(s.nodes)
    ensures WalkedTo(s, before, from, from, upward, cycleOri, delta, moveFlow, d)
  {
  }

  method Walk(from: Node, w: Node, upward: bool, cycleOri: int, delta: int, moveFlow: bool, d: int,
              ghost s: Shape, ghost before: map<Node, NodeData>)
    requires Linked(s) && from in s.nodes && w in s.nodes && Above(s.par, w, from)
    requires before == DataMap(s.nodes)
    modifies s.nodes`flow, s.nodes`depth
    ensures Linked(s) && WalkedTo(s, before, from, w, upward, cycleOri, delta, moveFlow, d)
  {
    hide Linked, WellFormed, WalkedTo, OnWalk, DataMap;
    LinkedIsWellFormed(s);
    AboveUnfold(s.par, from, from);
    WalkStarts(s, before, from, upward, cycleOri, delta, moveFlow, d);
    var temp: Node := from;
    while temp != w
      invariant temp in s.nodes && Above(s.par, temp, from) && Above(s.par, w, temp) && Linked(s) && WellFormed(s)
      invariant WalkedTo(s, before, from, temp, upward, cycleOri, delta, moveFlow, d)
      decreases RankOf(s, temp)
    {
      WalkNext(s, from, temp, w);
      PredIsParent(s, temp);
      WalkOver(temp, upward, cycleOri, delta, moveFlow, d, s, before, from);
      temp := temp.pred;
    }
  }

  // ----- the whole update -----

  function Abs(x: int): int { if x < 0 then -x else x }

  /** The amount by which the potentials in the subtree of iminus change. */
  function SignedSigma(tail: Node?, iplus: Node, jplus: Node, sigma: int): int
  {
    if (tail == jplus && sigma < 0) || (tail == iplus && sigma > 0) then Abs(sigma) else -Abs(sigma)
  }

  lemma EnteringEnds(s: Shape, p: seq<Node>, iplus: Node, jplus: Node, iminus: Node, jminus: Node)
    requires PivotPath(s, p, iplus, jplus, iminus, jminus)
    ensures Above(s.par, iminus, iplus) && !Above(s.par, iminus, jplus) && iplus != jplus
  {
  }

  ghost predicate SizesRight(s: Shape)
    reads s.nodes`depth
  {
    forall x {:trigger x.depth} :: x in s.nodes ==> x.depth == |Below(s, x)|
  }

  /** What the two walks make of the data a of the node x. */
  ghost function AfterWalks(par: map<Node, Node>, a: NodeData, jminus: Node, jplus: Node, w: Node,
                            cycleOri: int, delta: int, moveFlow: bool, d: int, x: Node): NodeData
  {
    var b := if OnWalk(par, jminus, w, x) then Walked(a, false, cycleOri, delta, moveFlow, d) else a;
    if OnWalk(par, jplus, w, x) then Walked(b, true, cycleOri, delta, moveFlow, d) else b
  }

  /** Outside the subtree of iminus the re-rooting does not change who is above whom. */
  lemma {:induction false} AboveOutside(s: Shape, p: seq<Node>, iplus: Node, jplus: Node, iminus: Node, jminus: Node,
                                        t: Shape, x: Node, y: Node)
    requires PivotPath(s, p, iplus, jplus, iminus, jminus) && RerootedTo(s, p, jplus, |p|, t) && !Above(s.par, iminus, y)
    ensures Above(t.par, x, y) <==> Above(s.par, x, y)
    decreases if y in s.par then s.rank[y] + 1 else 0
  {
    hide KidsMatch;
    AboveUnfold(s.par, x, y);
    AboveUnfold(t.par, x, y);
    if y in s.par {
      AboveUnfold(s.par, iminus, y);
      assert y !in p by {
        PathUpFacts(s.par, s.rank, iplus, iminus);
      }
      assert t.par[y] == s.par[y];
      AboveOutside(s, p, iplus, jplus, iminus, jminus, t, x, s.par[y]);
    }
  }

  lemma JminusOutside(s: Shape, p: seq<Node>, iplus: Node, jplus: Node, iminus: Node, jminus: Node)
    requires PivotPath(s, p, iplus, jplus, iminus, jminus)
    ensures !Above(s.par, iminus, jminus) && jminus in s.nodes
  {
    AboveUnfold(s.par, jminus, jminus);
    AboveUnfold(s.par, jminus, iminus);
    AboveRank(s.par, s.rank, jminus, iminus);
  }

  lemma FinalSize(t: Shape, x: Node, depth: int, jminus: Node, iminus: Node, jplus: Node, w: Node, d: int)
    requires Above(t.par, w, jminus) && Above(t.par, w, jplus)
    requires SizeAt(t, x, depth, jminus, iminus, jplus, d, 0)
    ensures |Below(t, x)| == depth - (if OnWalk(t.par, jminus, w, x) then d else 0) + (if OnWalk(t.par, jplus, w, x) then d else 0)
  {
    if Above(t.par, x, w) {
      AboveTrans(t.par, x, w, jminus);
      AboveTrans(t.par, x, w, jplus);
    }
  }

  /** Everything the two walks need, and what they make of the sizes. */
  lemma WalksFit(s: Shape, p: seq<Node>, iplus: Node, jplus: Node, iminus: Node, jminus: Node, t: Shape, w: Node)
    requires PivotPath(s, p, iplus, jplus, iminus, jminus) && RerootedTo(s, p, jplus, |p|, t)
    requires Above(s.par, w, jminus) && Above(s.par, w, jplus) && w in s.nodes
    ensures t.nodes == s.nodes && jminus in t.nodes && jplus in t.nodes
    ensures Above(t.par, w, jminus) && Above(t.par, w, jplus)
    ensures forall x :: OnWalk(t.par, jminus, w, x) <==> OnWalk(s.par, jminus, w, x)
    ensures forall x :: OnWalk(t.par, jplus, w, x) <==> OnWalk(s.par, jplus, w, x)
  {
    hide WellFormed;
    JminusOutside(s, p, iplus, jplus, iminus, jminus);
    if Above(s.par, iminus, w) {
      AboveTrans(s.par, iminus, w, jminus);
    }
    AboveOutside(s, p, iplus, jplus, iminus, jminus, t, w, jminus);
    AboveOutside(s, p, iplus, jplus, iminus, jminus, t, w, jplus);
    forall x
      ensures Above(t.par, x, jminus) <==> Above(s.par, x, jminus)
      ensures Above(t.par, x, jplus) <==> Above(s.par, x, jplus)
      ensures Above(t.par, x, w) <==> Above(s.par, x, w)
    {
      AboveOutside(s, p, iplus, jplus, iminus, jminus, t, x, jminus);
      AboveOutside(s, p, iplus, jplus, iminus, jminus, t, x, jplus);
      AboveOutside(s, p, iplus, jplus, iminus, jminus, t, x, w);
    }
  }

  /** The size repair: the loops of lines 122-147. */
  method RepairAbove(jminus: Node, jplus: Node, w: Node, cycleOri: int, delta: int, feasTol: int, depthIminus: int,
                     ghost t: Shape, ghost data: map<Node, NodeData>, ghost iminus: Node)
    requires Linked(t) && jminus in t.nodes && jplus in t.nodes && w in t.nodes
    requires Above(t.par, w, jminus) && Above(t.par, w, jplus)
    requires data == DataMap(t.nodes) && SizesAt(t, jminus, iminus, jplus, depthIminus, 0)
    modifies t.nodes`flow, t.nodes`depth
    ensures Linked(t) && SizesRight(t)
    ensures forall x {:trigger DataOf(x)} :: x in t.nodes ==>
              DataOf(x) == AfterWalks(t.par, data[x], jminus, jplus, w, cycleOri, delta, delta > feasTol, depthIminus, x)
  {
    hide Linked, WellFormed, OnWalk, SizeAt;
    Walk(jminus, w, false, cycleOri, delta, delta > feasTol, depthIminus, t, data);
    ghost var data1 := DataMap(t.nodes);
    Walk(jplus, w, true, cycleOri, delta, delta > feasTol, depthIminus, t, data1);
    forall x | x in t.nodes
      ensures DataOf(x) == AfterWalks(t.par, data[x], jminus, jplus, w, cycleOri, delta, delta > feasTol, depthIminus, x)
      ensures x.depth == |Below(t, x)|
    {
      assert x in data1 && DataOf(x) ==
        if OnWalk(t.par, jplus, w, x) then Walked(data1[x], true, cycleOri, delta, delta > feasTol, depthIminus) else data1[x];
      assert old(SizeAt(t, x, x.depth, jminus, iminus, jplus, depthIminus, 0));
      FinalSize(t, x, data[x].depth, jminus, iminus, jplus, w, depthIminus);
    }
  }

  lemma PivotFacts(s: Shape, p: seq<Node>, iplus: Node, jplus: Node, iminus: Node, jminus: Node)
    requires PivotPath(s, p, iplus, jplus, iminus, jminus)
    ensures iminus in s.nodes && jminus in s.nodes && iplus in s.nodes && jplus in s.nodes
  {
    hide KidsMatch;
    JminusOutside(s, p, iplus, jplus, iminus, jminus);
  }

  method RerootTree(cycleOri: int, newOri: int, delta: int, newFl: int, iplus: Node, jplus: Node, iminus: Node, jminus: Node,
                    bea: Arc, ghost s: Shape, ghost p: seq<Node>, ghost data: map<Node, NodeData>)
    returns (ghost t: Shape, ghost v: Pivot)
    requires PivotPath(s, p, iplus, jplus, iminus, jminus) && Linked(s) && SizesRight(s) && data == DataMap(s.nodes)
    modifies s.nodes`pred, s.nodes`child, s.nodes`sibling, s.nodes`siblingPrev
    modifies s.nodes`orientation, s.nodes`flow, s.nodes`basicArc, s.nodes`depth
    ensures iminus in s.nodes
    ensures v == Pivot(cycleOri, delta, data[iminus].depth, NodeData(newOri, newFl, bea, data[iminus].depth))
    ensures t.nodes == s.nodes && Linked(t) && RerootedTo(s, p, jplus, |p|, t) && SizesAt(t, jminus, iminus, jplus, v.d, 0)
    ensures forall x {:trigger DataOf(x)} :: x in s.nodes ==> DataOf(x) == DataAfter(data, p, v, |p|, x)
  {
    hide Linked, WellFormed, PivotPath, ParentAfter, DataAfter;
    PivotFacts(s, p, iplus, jplus, iminus, jminus);
    RerootInit(s, p, iplus, jplus, iminus, jminus);
    t, v := Reroot(cycleOri, newOri, delta, newFl, iplus, jplus, iminus, jminus, bea, s, p, data);
    DataEnds(data, p, v);
  }

  method UpdateTree(cycleOri: int, newOrientation: int, delta: int, newFlow: int, iplus: Node, jplus: Node, iminus: Node,
                    jminus: Node, w: Node, bea: Arc, sigma: int, feasTol: int,
                    ghost s: Shape, ghost p: seq<Node>, ghost data: map<Node, NodeData>)
    returns (ghost t: Shape)
    requires Linked(s) && SizesRight(s) && data == DataMap(s.nodes)
    requires PivotPath(s, p, iplus, jplus, iminus, jminus)
    requires w in s.nodes && Above(s.par, w, jminus) && Above(s.par, w, jplus)
    modifies s.nodes
    ensures Linked(t) && RerootedTo(s, p, jplus, |p|, t)
    ensures SizesRight(t)
    ensures forall x :: x in s.nodes ==>
              x.potential == old(x.potential) +
                             if Above(s.par, iminus, x) then SignedSigma(old(bea.tail), iplus, jplus, sigma) else 0
    ensures old(bea.tail) == iplus ==> (iplus.potential - old(iplus.potential)) - (jplus.potential - old(jplus.potential)) == sigma
    ensures old(bea.tail) == jplus ==> (jplus.potential - old(jplus.potential)) - (iplus.potential - old(iplus.potential)) == sigma
    ensures var v := Pivot(cycleOri, delta, data[iminus].depth, NodeData(newOrientation, newFlow, bea, data[iminus].depth));
            forall x {:trigger DataOf(x)} :: x in s.nodes ==>
              DataOf(x) == AfterWalks(s.par, DataAfter(data, p, v, |p|, x), jminus, jplus, w, cycleOri, delta, delta > feasTol, v.d, x)
  {
    hide Linked, WellFormed, PivotPath, RerootedTo, OnWalk, DataAfter, Walked, Above, ParentsOf;
    PivotFacts(s, p, iplus, jplus, iminus, jminus);
    EnteringEnds(s, p, iplus, jplus, iminus, jminus);
    RaisePotentials(iminus, SignedSigma(bea.tail, iplus, jplus, sigma), s);
    var depthIminus := iminus.depth;
    ghost var v;
    t, v := RerootTree(cycleOri, newOrientation, delta, newFlow, iplus, jplus, iminus, jminus, bea, s, p, data);
    WalksFit(s, p, iplus, jplus, iminus, jminus, t, w);
    ghost var data1 := DataMap(t.nodes);
    RepairAbove(jminus, jplus, w, cycleOri, delta, feasTol, depthIminus, t, data1, iminus);
  }
}
