/** The assumptions on trees can be met: a root with two children, pivoted. */
module TreeWitness {
  import opened Ancestry
  import opened TreeUpdate
  import opened TreePivot

  ghost function Fork(r: Node, a: Node, b: Node): Shape
  {
    Shape({r, a, b}, r, map[a := r, b := r], map[r := [a, b], a := [], b := []], map[r := 0, a := 1, b := 1])
  }

  lemma ForkShape(r: Node, a: Node, b: Node)
    requires r != a && r != b && a != b
    ensures WellFormed(Fork(r, a, b))
  {
  }

  lemma ForkAbove(r: Node, a: Node, b: Node)
    requires r != a && r != b && a != b
    ensures Above(Fork(r, a, b).par, r, r) && Above(Fork(r, a, b).par, r, b) && Above(Fork(r, a, b).par, a, a)
    ensures !Above(Fork(r, a, b).par, a, b) && !Above(Fork(r, a, b).par, a, r) && !Above(Fork(r, a, b).par, b, r)
    ensures Above(Fork(r, a, b).par, r, a) && !Above(Fork(r, a, b).par, b, a) && Above(Fork(r, a, b).par, b, b)
  {
    var par := Fork(r, a, b).par;
    AboveUnfold(par, r, r);
    AboveUnfold(par, a, a);
    AboveUnfold(par, b, b);
    AboveUnfold(par, r, a);
    AboveUnfold(par, r, b);
    AboveUnfold(par, a, r);
    AboveUnfold(par, b, r);
    AboveUnfold(par, a, b);
    AboveUnfold(par, b, a);
  }

  lemma ForkSizes(r: Node, a: Node, b: Node)
    requires r != a && r != b && a != b
    ensures |Below(Fork(r, a, b), r)| == 3 && |Below(Fork(r, a, b), a)| == 1 && |Below(Fork(r, a, b), b)| == 1
  {
    hide Above;
    ForkAbove(r, a, b);
    assert Below(Fork(r, a, b), r) == {r, a, b};
    assert Below(Fork(r, a, b), a) == {a};
    assert Below(Fork(r, a, b), b) == {b};
  }

  lemma ForkPath(r: Node, a: Node, b: Node)
    requires r != a && r != b && a != b
    ensures PivotPath(Fork(r, a, b), [a], a, b, a, r)
  {
    hide Above, KidsMatch;
    ForkShape(r, a, b);
    ForkAbove(r, a, b);
  }

  lemma ForkLinked(r: Node, a: Node, b: Node)
    requires r != a && r != b && a != b
    requires r.pred == null && r.child == a && a.pred == r && a.child == null && b.pred == r && b.child == null
    requires a.sibling == b && a.siblingPrev == null && b.sibling == null && b.siblingPrev == a
    ensures Linked(Fork(r, a, b))
  {
    hide WellFormed;
    ForkShape(r, a, b);
    assert ListOf(r, [a, b]);
  }

  method SetUp(r: Node, a: Node, b: Node)
    requires r != a && r != b && a != b
    modifies r, a, b
    ensures Linked(Fork(r, a, b)) && SizesRight(Fork(r, a, b))
  {
    hide Linked, Below;
    r.pred, r.child, r.depth := null, a, 3;
    a.pred, a.child, a.sibling, a.siblingPrev, a.depth := r, null, b, null, 1;
    b.pred, b.child, b.sibling, b.siblingPrev, b.depth := r, null, null, a, 1;
    ForkLinked(r, a, b);
    ForkSizes(r, a, b);
  }

  /** Sets up the tree and pivots: a, which hung under r, now hangs under b. */
  method Pivoted(r: Node, a: Node, b: Node, bea: Arc)
    requires r != a && r != b && a != b
    modifies r, a, b
    ensures a.pred == b && b.pred == r && r.pred == null
  {
    SetUp(r, a, b);
    ghost var s := Fork(r, a, b);
    ForkPath(r, a, b);
    ForkAbove(r, a, b);
    hide WellFormed, ListsOf, SizesRight, PivotPath, Above, Passes, AfterWalks, DataAfter;
    ghost var t := UpdateTree(0, 1, 2, 2, a, b, a, r, r, bea, 5, 0, s, [a], DataMap(s.nodes));
    assert t.par[a] == ParentAfter(s.par, [a], b, 1, a) && t.par[b] == ParentAfter(s.par, [a], b, 1, b);
    assert IndexOf([a], a) == 0;
  }
}
