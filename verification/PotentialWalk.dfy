/**
 The first part of `update_tree`: a stackless traversal of the subtree of
 `iminus`, written with labels and jumps, that adds sigma to every potential.
 */
module PotentialWalk {
  import opened Ancestry
  import opened TreeUpdate

  datatype Label = RECURSION | ITERATION | TEST | CONTINUE

  /** The nodes below the siblings that come after f in the child list of its parent. */
  ghost function Later(s: Shape, f: Node): set<Node>
    requires WellFormed(s) && f in s.par
  {
    var ks := s.kids[s.par[f]];
    set y | y in s.nodes && exists i :: IndexOf(ks, f) < i < |ks| && Above(s.par, ks[i], y)
  }

  /** What the traversal below top still has to visit when it has finished the subtree of f. */
  ghost function After(s: Shape, top: Node, f: Node): set<Node>
    requires WellFormed(s) && Above(s.par, top, f)
    decreases if f in s.par then s.rank[f] + 1 else 0
  {
    AboveUnfold(s.par, top, f);
    if f == top then {} else Later(s, f) + After(s, top, s.par[f])
  }

  /** What is left to visit at each label; `at` is temp at ITERATION and father elsewhere. */
  ghost function Todo(s: Shape, top: Node, pc: Label, at: Node): set<Node>
    requires WellFormed(s) && Above(s.par, top, at)
  {
    match pc
    case RECURSION => Below(s, at) - {at} + After(s, top, at)
    case ITERATION => Below(s, at) + After(s, top, at)
    case TEST => After(s, top, at)
    case CONTINUE => {}
  }

  lemma {:induction false} KidAbove(s: Shape, f: Node, y: Node) returns (i: nat)
    requires WellFormed(s) && f in s.nodes && Above(s.par, f, y) && y != f
    ensures i < |s.kids[f]| && Above(s.par, s.kids[f][i], y)
    decreases if y in s.par then s.rank[y] + 1 else 0
  {
    AboveUnfold(s.par, f, y);
    if s.par[y] == f {
      i := IndexOf(s.kids[f], y);
      AboveUnfold(s.par, y, y);
    } else {
      i := KidAbove(s, f, s.par[y]);
      AboveUnfold(s.par, s.kids[f][i], y);
    }
  }

  lemma KidFacts(s: Shape, f: Node, i: nat)
    requires WellFormed(s) && f in s.nodes && i < |s.kids[f]|
    ensures var c := s.kids[f][i]; c in s.nodes && c in s.par && s.par[c] == f && IndexOf(s.kids[f], c) == i
    ensures Above(s.par, f, s.kids[f][i]) && s.kids[f][i] != f && !Above(s.par, s.kids[f][i], f)
  {
    var c := s.kids[f][i];
    assert c in s.kids[f];
    AboveUnfold(s.par, f, f);
    AboveUnfold(s.par, f, c);
    AboveRank(s.par, s.rank, f, c);
  }

  lemma BelowSplits(s: Shape, f: Node)
    requires WellFormed(s) && f in s.nodes
    ensures s.kids[f] == [] ==> Below(s, f) - {f} == {}
    ensures s.kids[f] != [] ==> Below(s, f) - {f} == Below(s, s.kids[f][0]) + Later(s, s.kids[f][0])
  {
    forall y | y in s.nodes
      ensures y in Below(s, f) - {f} <==> exists i :: 0 <= i < |s.kids[f]| && Above(s.par, s.kids[f][i], y)
    {
      if y in Below(s, f) - {f} {
        var i := KidAbove(s, f, y);
      }
      if i :| 0 <= i < |s.kids[f]| && Above(s.par, s.kids[f][i], y) {
        KidFacts(s, f, i);
        AboveTrans(s.par, f, s.kids[f][i], y);
        assert y != f;
      }
    }
    if s.kids[f] != [] {
      KidFacts(s, f, 0);
    }
  }

  /** Nothing that is still to come lies below f. */
  lemma {:induction false} AfterApart(s: Shape, top: Node, f: Node, y: Node)
    requires WellFormed(s) && Above(s.par, top, f) && y in After(s, top, f)
    ensures !Above(s.par, f, y)
    decreases if f in s.par then s.rank[f] + 1 else 0
  {
    AboveUnfold(s.par, top, f);
    var g := s.par[f];
    var ks := s.kids[g];
    if y in Later(s, f) {
      var i :| IndexOf(ks, f) < i < |ks| && Above(s.par, ks[i], y);
      KidFacts(s, g, i);
      SiblingsApart(s.par, s.rank, f, ks[i], y);
    } else {
      AfterApart(s, top, g, y);
      if Above(s.par, f, y) {
        AboveUnfold(s.par, g, g);
        AboveUnfold(s.par, g, f);
        AboveTrans(s.par, g, f, y);
      }
    }
  }

  /** RECURSION with a child: go down to the first child. */
  lemma StepDown(s: Shape, top: Node, f: Node)
    requires WellFormed(s) && Above(s.par, top, f) && f in s.nodes
    ensures s.kids[f] == [] ==> Todo(s, top, RECURSION, f) == Todo(s, top, TEST, f)
    ensures s.kids[f] != [] ==>
              && s.kids[f][0] in s.nodes && Above(s.par, top, s.kids[f][0])
              && Todo(s, top, RECURSION, f) == Todo(s, top, ITERATION, s.kids[f][0])
  {
    BelowSplits(s, f);
    if s.kids[f] != [] {
      var c := s.kids[f][0];
      KidFacts(s, f, 0);
      AboveUnfold(s.par, top, c);
      assert c != top;
    }
  }

  /** ITERATION visits exactly one node, and one that was still to be visited. */
  lemma StepVisit(s: Shape, top: Node, c: Node)
    requires WellFormed(s) && Above(s.par, top, c) && c in s.nodes
    ensures c in Todo(s, top, ITERATION, c)
    ensures Todo(s, top, RECURSION, c) == Todo(s, top, ITERATION, c) - {c}
  {
    AboveUnfold(s.par, c, c);
    if c in After(s, top, c) {
      AfterApart(s, top, c, c);
    }
  }

  /** TEST away from the top: go on to the next sibling, or up. */
  lemma StepOn(s: Shape, top: Node, f: Node)
    requires WellFormed(s) && Above(s.par, top, f) && f in s.nodes && f != top
    ensures f in s.par && Above(s.par, top, s.par[f]) && s.par[f] in s.nodes && RankOf(s, s.par[f]) < RankOf(s, f)
    ensures var ks := s.kids[s.par[f]]; var i := IndexOf(ks, f) + 1;
            if i < |ks| then
              && ks[i] in s.nodes && Above(s.par, top, ks[i])
              && Todo(s, top, TEST, f) == Todo(s, top, ITERATION, ks[i])
            else
              Todo(s, top, TEST, f) == Todo(s, top, TEST, s.par[f])
  {
    AboveUnfold(s.par, top, f);
    var g := s.par[f];
    var ks := s.kids[g];
    var i := IndexOf(ks, f) + 1;
    if i < |ks| {
      KidFacts(s, g, i);
      AboveUnfold(s.par, top, ks[i]);
      assert ks[i] != top;
      assert Later(s, f) == Below(s, ks[i]) + Later(s, ks[i]);
    } else {
      assert Later(s, f) == {};
    }
  }

  ghost predicate Raised(s: Shape, before: map<Node, int>, top: Node, sigma: int, todo: set<Node>)
    reads s.nodes`potential
  {
    forall x {:trigger x.potential} :: x in s.nodes ==>
      x in before && x.potential == before[x] + if Above(s.par, top, x) && x !in todo then sigma else 0
  }

  lemma LinkedIsWellFormed(s: Shape)
    requires Linked(s)
    ensures WellFormed(s)
  {
  }

  lemma FirstChild(s: Shape, f: Node)
    requires Linked(s) && f in s.nodes
    ensures f.child == At(s.kids[f], 0)
  {
    assert ListOf(f, s.kids[f]);
  }

  lemma NextSibling(s: Shape, f: Node)
    requires Linked(s) && f in s.par && f in s.nodes
    ensures f.sibling == At(s.kids[s.par[f]], IndexOf(s.kids[s.par[f]], f) + 1) && f.pred == s.par[f]
  {
    var ks := s.kids[s.par[f]];
    assert ListOf(s.par[f], ks);
    assert ks[IndexOf(ks, f)].sibling == f.sibling;
  }

  ghost function RankOf(s: Shape, x: Node): nat
  {
    if x in s.rank then s.rank[x] else 0
  }

  function Order(pc: Label): nat
  {
    match pc case RECURSION => 2 case ITERATION => 0 case TEST => 1 case CONTINUE => 0
  }

  lemma StepDone(s: Shape, top: Node)
    requires WellFormed(s) && Above(s.par, top, top)
    ensures Todo(s, top, TEST, top) == {} && Todo(s, top, CONTINUE, top) == {}
    ensures Todo(s, top, RECURSION, top) == Below(s, top) - {top}
  {
  }

  method Raise(temp: Node, sigma: int, ghost s: Shape, ghost top: Node, ghost before: map<Node, int>, ghost todo: set<Node>)
    requires Raised(s, before, top, sigma, todo) && temp in s.nodes && temp in todo && Above(s.par, top, temp)
    modifies temp`potential
    ensures Raised(s, before, top, sigma, todo - {temp})
  {
    temp.potential := temp.potential + sigma;
    forall x | x in s.nodes
      ensures x in before && x.potential == before[x] + if Above(s.par, top, x) && x !in todo - {temp} then sigma else 0
    {
      assert x in before && old(x.potential) == before[x] + if Above(s.par, top, x) && x !in todo then sigma else 0;
    }
  }

  lemma NothingLeft(s: Shape, top: Node, at: Node)
    requires WellFormed(s) && Above(s.par, top, at)
    ensures Todo(s, top, CONTINUE, at) == {}
  {
  }

  method Visit(temp: Node, sigma: int, ghost s: Shape, ghost top: Node, ghost before: map<Node, int>)
    requires Linked(s) && temp in s.nodes && WellFormed(s) && Above(s.par, top, temp)
    requires Raised(s, before, top, sigma, Todo(s, top, ITERATION, temp))
    modifies temp`potential
    ensures Linked(s) && Raised(s, before, top, sigma, Todo(s, top, RECURSION, temp))
    ensures |Todo(s, top, RECURSION, temp)| < |Todo(s, top, ITERATION, temp)|
  {
    StepVisit(s, top, temp);
    hide Linked, WellFormed, Todo;
    Raise(temp, sigma, s, top, before, Todo(s, top, ITERATION, temp));
  }

  method RaisePotentials(iminus: Node, sigma: int, ghost s: Shape)
    requires Linked(s) && iminus in s.nodes
    modifies s.nodes`potential
    ensures forall x :: x in s.nodes ==>
              x.potential == old(x.potential) + if Above(s.par, iminus, x) then sigma else 0
  {
    hide Linked, WellFormed, Todo;
    ghost var before := map x | x in s.nodes :: x.potential;
    var father: Node := iminus;
    father.potential := father.potential + sigma;
    var temp: Node? := null;
    var pc := RECURSION;
    ghost var at := father;
    AboveUnfold(s.par, iminus, iminus);
    LinkedIsWellFormed(s);
    StepDone(s, iminus);
    assert Raised(s, before, iminus, sigma, Todo(s, iminus, pc, at));
    while pc != CONTINUE
      invariant at in s.nodes && Above(s.par, iminus, at) && (if pc == ITERATION then temp == at else father == at)
      invariant Linked(s) && WellFormed(s)
      invariant Raised(s, before, iminus, sigma, Todo(s, iminus, pc, at))
      decreases |Todo(s, iminus, pc, at)|, pc != CONTINUE, Order(pc), RankOf(s, at)
    {
      match pc
      case RECURSION =>
        temp := father.child;
        FirstChild(s, father);
        StepDown(s, iminus, father);
        if temp != null {
          pc, at := ITERATION, temp;
        } else {
          pc := TEST;
        }
      case ITERATION =>
        Visit(temp, sigma, s, iminus, before);
        father := temp;
        pc := RECURSION;
      case TEST =>
        if father == iminus {
          pc := CONTINUE;
        } else {
          temp := father.sibling;
          StepOn(s, iminus, father);
          NextSibling(s, father);
          if temp != null {
            pc, at := ITERATION, temp;
          } else {
            father := father.pred;
            at := father;
          }
        }
    }
    NothingLeft(s, iminus, at);
  }
}
