/** The per-variable check graph of `lib/CheckGraphBuilder.cpp`: which check can run after which. */
module CheckGraph {
  import opened IR
  import opened Bypass
  import opened SliceSpec

  class CheckNode {
    const anchor: Option<InstId>
    const bb: Option<BlockId>
    var successors: seq<CheckNode>
    var predecessors: seq<CheckNode>

    constructor (anchor: Option<InstId>, bb: Option<BlockId>)
      ensures this.anchor == anchor && this.bb == bb && successors == [] && predecessors == []
    {
      this.anchor, this.bb := anchor, bb;
      successors, predecessors := [], [];
    }
  }

  /** i stands strictly before j in the block b. */
  ghost predicate ComesBefore(f: Func, b: BlockId, i: InstId, j: InstId)
  {
    b in f.blocks && exists m, n :: 0 <= m < n < |f.blocks[b]| && f.blocks[b][m] == i && f.blocks[b][n] == j
  }

  /** What isReachable decides: earlier in the same block, or a path between different blocks. */
  ghost predicate CanFollow(f: Func, x: CheckNode, y: CheckNode)
  {
    && x.anchor.Some? && y.anchor.Some? && x.bb.Some? && y.bb.Some?
    && if x.bb == y.bb then ComesBefore(f, x.bb.value, x.anchor.value, y.anchor.value)
       else Reaches(f, x.bb.value, y.bb.value)
  }

  method InstructionComesBefore(f: Func, b: BlockId, i: InstId, j: InstId) returns (before: bool)
    requires b in f.blocks && NoDup(f.blocks[b]) && i in f.blocks[b]
    ensures before <==> ComesBefore(f, b, i, j)
  {
    var ks := f.blocks[b];
    var m := 0;
    while ks[m] != i
      invariant 0 <= m < |ks| && i !in ks[..m]
      decreases |ks| - m
    {
      m := m + 1;
    }
    for n := m + 1 to |ks|
      invariant forall k :: m < k < n ==> ks[k] != j
    {
      if ks[n] == j {
        return true;
      }
    }
    before := false;
  }

  lemma {:induction false} ReachesTrans(f: Func, a: BlockId, b: BlockId, c: BlockId, n: nat)
    requires Reaches(f, a, b) && ReachIn(f, b, c, n)
    ensures Reaches(f, a, c)
    decreases n
  {
    if b != c {
      var d :| Edge(f, d, c) && ReachIn(f, b, d, n - 1);
      ReachesTrans(f, a, b, d, n - 1);
      ReachStep(f, a, d, c);
    }
  }

  /** The breadth-first search of isReachable between two different blocks. */
  method Search(f: Func, start: BlockId, goal: BlockId) returns (found: bool)
    requires Valid(f) && start in f.blocks && start != goal
    ensures found <==> Reaches(f, start, goal)
  {
    hide Valid, Edge, Reaches;
    var visited: set<BlockId> := {};
    var queue := Successors(Term(f, start));
    StartQueue(f, start);
    while queue != []
      invariant visited <= f.blocks.Keys && goal !in visited
      invariant forall x :: x in queue ==> x in f.blocks && Reaches(f, start, x)
      invariant forall x :: x in visited ==> Reaches(f, start, x)
      invariant forall x, y :: (x in visited || x == start) && Edge(f, x, y) ==> y in visited || y in queue
      decreases |f.blocks.Keys - visited|, |queue|
    {
      var current := queue[0];
      ghost var whole := queue;
      assert current in whole && forall x :: x in whole ==> x == current || x in whole[1..];
      queue := queue[1..];
      if current !in visited {
        MoreIsSmaller(f.blocks.Keys, visited, current);
        visited := visited + {current};
        if current == goal {
          return true;
        }
        EnqueueFacts(f, start, current, queue);
        queue := queue + Successors(Term(f, current));
      }
    }
    found := false;
    if Reaches(f, start, goal) {
      NotFound(f, start, goal, visited);
    }
  }

  lemma StartQueue(f: Func, start: BlockId)
    requires Valid(f) && start in f.blocks
    ensures forall x :: x in Successors(Term(f, start)) <==> Edge(f, start, x)
    ensures forall x :: x in Successors(Term(f, start)) ==> x in f.blocks && Reaches(f, start, x)
  {
    TermOf(f, start);
    ReachRefl(f, start);
    forall x | x in Successors(Term(f, start)) ensures Reaches(f, start, x) {
      ReachStep(f, start, start, x);
    }
  }

  lemma EnqueueFacts(f: Func, start: BlockId, b: BlockId, queue: seq<BlockId>)
    requires Valid(f) && b in f.blocks && Reaches(f, start, b)
    ensures forall x :: x in queue + Successors(Term(f, b)) <==> x in queue || Edge(f, b, x)
    ensures forall x :: Edge(f, b, x) ==> x in f.blocks && Reaches(f, start, x)
  {
    TermOf(f, b);
    forall x | Edge(f, b, x) ensures Reaches(f, start, x) {
      ReachStep(f, start, b, x);
    }
  }

  lemma NotFound(f: Func, start: BlockId, goal: BlockId, visited: set<BlockId>)
    requires Reaches(f, start, goal) && start != goal
    requires forall x, y :: (x in visited || x == start) && Edge(f, x, y) ==> y in visited
    ensures goal in visited
  {
    var n: nat :| ReachIn(f, start, goal, n);
    StaysInside(f, start, goal, n, visited + {start});
  }

  /** A node stands at its anchor. */
  ghost predicate Anchored(f: Func, x: CheckNode)
  {
    x.anchor.Some? && x.bb.Some? ==> x.bb.value in f.blocks && x.anchor.value in f.blocks[x.bb.value]
  }

  method IsReachable(f: Func, x: CheckNode, y: CheckNode) returns (reachable: bool)
    requires Valid(f) && Anchored(f, x) && Anchored(f, y)
    ensures reachable <==> CanFollow(f, x, y)
  {
    if x.anchor.None? || y.anchor.None? || x.bb.None? || y.bb.None? {
      return false;
    }
    if x.bb == y.bb {
      reachable := InstructionComesBefore(f, x.bb.value, x.anchor.value, y.anchor.value);
    } else {
      reachable := Search(f, x.bb.value, y.bb.value);
    }
  }

  // ----- successor and predecessor lists -----

  /** The nodes among the first n that can follow x, in order. */
  ghost function Followers(f: Func, nodes: seq<CheckNode>, x: CheckNode, n: nat): seq<CheckNode>
    requires n <= |nodes|
  {
    if n == 0 then []
    else Followers(f, nodes, x, n - 1) + if nodes[n - 1] != x && CanFollow(f, x, nodes[n - 1]) then [nodes[n - 1]] else []
  }

  /** The nodes among the first n that y can follow, in order. */
  ghost function Leaders(f: Func, nodes: seq<CheckNode>, y: CheckNode, n: nat): seq<CheckNode>
    requires n <= |nodes|
  {
    if n == 0 then []
    else Leaders(f, nodes, y, n - 1) + if nodes[n - 1] != y && CanFollow(f, nodes[n - 1], y) then [nodes[n - 1]] else []
  }

  lemma {:induction false} FollowersMembers(f: Func, nodes: seq<CheckNode>, x: CheckNode, n: nat)
    requires n <= |nodes| && NoDup(nodes)
    ensures forall y :: y in Followers(f, nodes, x, n) <==> y in nodes[..n] && y != x && CanFollow(f, x, y)
    ensures NoDup(Followers(f, nodes, x, n))
  {
    if n > 0 {
      FollowersMembers(f, nodes, x, n - 1);
      assert nodes[..n] == nodes[..n - 1] + [nodes[n - 1]];
      assert nodes[n - 1] !in nodes[..n - 1];
    }
  }

  lemma {:induction false} LeadersMembers(f: Func, nodes: seq<CheckNode>, y: CheckNode, n: nat)
    requires n <= |nodes| && NoDup(nodes)
    ensures forall x :: x in Leaders(f, nodes, y, n) <==> x in nodes[..n] && x != y && CanFollow(f, x, y)
    ensures NoDup(Leaders(f, nodes, y, n))
  {
    if n > 0 {
      LeadersMembers(f, nodes, y, n - 1);
      assert nodes[..n] == nodes[..n - 1] + [nodes[n - 1]];
      assert nodes[n - 1] !in nodes[..n - 1];
    }
  }

  /** appendUniqueNode. */
  function AppendUnique(nodes: seq<CheckNode>, x: CheckNode): seq<CheckNode>
  {
    if x in nodes then nodes else nodes + [x]
  }

  ghost predicate SuccessorsAre(f: Func, nodes: seq<CheckNode>, done: nat)
    requires done <= |nodes|
    reads nodes`successors
  {
    && (forall a :: 0 <= a < done ==> nodes[a].successors == Followers(f, nodes, nodes[a], |nodes|))
    && (forall a :: done <= a < |nodes| ==> nodes[a].successors == [])
  }

  /** Row i of the table has been filled up to column j. */
  ghost predicate PredecessorsAre(f: Func, nodes: seq<CheckNode>, i: nat, j: nat)
    requires i <= |nodes| && j <= |nodes| && (i == |nodes| ==> j == 0)
    reads nodes`predecessors
  {
    forall b :: 0 <= b < |nodes| ==> nodes[b].predecessors == Leaders(f, nodes, nodes[b], if b < j then i + 1 else i)
  }

  /** One cell of the table: node i against node j. */
  method ComputeCell(f: Func, nodes: seq<CheckNode>, ghost i: nat, ghost j: nat, x: CheckNode, y: CheckNode)
    requires Valid(f) && NoDup(nodes) && i < |nodes| && j < |nodes| && x == nodes[i] && y == nodes[j]
    requires Anchored(f, x) && Anchored(f, y)
    requires x.successors == Followers(f, nodes, x, j)
    requires y.predecessors == Leaders(f, nodes, y, i)
    modifies x`successors, y`predecessors
    ensures x.successors == Followers(f, nodes, x, j + 1)
    ensures y.predecessors == Leaders(f, nodes, y, i + 1)
  {
    hide Valid, CanFollow, Anchored;
    FollowersMembers(f, nodes, x, j);
    LeadersMembers(f, nodes, y, i);
    assert y !in nodes[..j] && x !in nodes[..i];
    if x != y {
      var reachable := IsReachable(f, x, y);
      if reachable {
        x.successors := AppendUnique(x.successors, y);
        y.predecessors := AppendUnique(y.predecessors, x);
      }
    }
  }

  lemma NoFollowers(f: Func, nodes: seq<CheckNode>, x: CheckNode)
    ensures Followers(f, nodes, x, 0) == []
  {
  }

  method ComputeRow(f: Func, nodes: seq<CheckNode>, i: nat)
    requires Valid(f) && NoDup(nodes) && i < |nodes| && forall x :: x in nodes ==> Anchored(f, x)
    requires SuccessorsAre(f, nodes, i) && PredecessorsAre(f, nodes, i, 0)
    modifies nodes`successors, nodes`predecessors
    ensures SuccessorsAre(f, nodes, i + 1) && PredecessorsAre(f, nodes, i + 1, 0)
  {
    hide Valid, CanFollow, Anchored, Followers, Leaders;
    NoFollowers(f, nodes, nodes[i]);
    for j := 0 to |nodes|
      invariant nodes[i].successors == Followers(f, nodes, nodes[i], j)
      invariant forall a :: 0 <= a < |nodes| && a != i ==> nodes[a].successors == old(nodes[a].successors)
      invariant PredecessorsAre(f, nodes, i, j)
    {
      ComputeCell(f, nodes, i, j, nodes[i], nodes[j]);
    }
  }

  method ClearLinks(nodes: seq<CheckNode>)
    modifies nodes`successors, nodes`predecessors
    ensures forall a :: 0 <= a < |nodes| ==> nodes[a].successors == [] && nodes[a].predecessors == []
  {
    for k := 0 to |nodes|
      invariant forall a :: 0 <= a < k ==> nodes[a].successors == [] && nodes[a].predecessors == []
    {
      nodes[k].successors := [];
      nodes[k].predecessors := [];
    }
  }

  lemma TableStart(f: Func, nodes: seq<CheckNode>)
    requires forall a :: 0 <= a < |nodes| ==> nodes[a].successors == [] && nodes[a].predecessors == []
    ensures SuccessorsAre(f, nodes, 0) && PredecessorsAre(f, nodes, 0, 0)
  {
  }

  lemma TableEnd(f: Func, nodes: seq<CheckNode>, x: CheckNode)
    requires x in nodes && SuccessorsAre(f, nodes, |nodes|) && PredecessorsAre(f, nodes, |nodes|, 0)
    ensures x.successors == Followers(f, nodes, x, |nodes|) && x.predecessors == Leaders(f, nodes, x, |nodes|)
  {
    hide Followers, Leaders;
  }

  method ComputeReachability(f: Func, nodes: seq<CheckNode>)
    requires Valid(f) && NoDup(nodes) && forall x :: x in nodes ==> Anchored(f, x)
    modifies nodes`successors, nodes`predecessors
    ensures forall x {:trigger x.successors} :: x in nodes ==> x.successors == Followers(f, nodes, x, |nodes|)
    ensures forall y {:trigger y.predecessors} :: y in nodes ==> y.predecessors == Leaders(f, nodes, y, |nodes|)
  {
    hide *;
    ClearLinks(nodes);
    TableStart(f, nodes);
    for i := 0 to |nodes|
      invariant SuccessorsAre(f, nodes, i) && PredecessorsAre(f, nodes, i, 0)
    {
      ComputeRow(f, nodes, i);
    }
    forall x | x in nodes
      ensures x.successors == Followers(f, nodes, x, |nodes|) && x.predecessors == Leaders(f, nodes, x, |nodes|)
    {
      TableEnd(f, nodes, x);
    }
  }

  // ----- the relation -----

  /** The lists of computeReachability hold no node twice and are each other's inverse. */
  lemma ListsAreInverse(f: Func, nodes: seq<CheckNode>, x: CheckNode, y: CheckNode)
    requires NoDup(nodes) && x in nodes && y in nodes
    ensures NoDup(Followers(f, nodes, x, |nodes|)) && NoDup(Leaders(f, nodes, y, |nodes|))
    ensures y in Followers(f, nodes, x, |nodes|) <==> x in Leaders(f, nodes, y, |nodes|)
    ensures y in Followers(f, nodes, x, |nodes|) <==> x != y && CanFollow(f, x, y)
  {
    hide CanFollow;
    FollowersMembers(f, nodes, x, |nodes|);
    LeadersMembers(f, nodes, y, |nodes|);
    assert nodes[..|nodes|] == nodes;
  }

  ghost predicate Acyclic(f: Func)
  {
    forall a, b :: a != b && Reaches(f, a, b) ==> !Reaches(f, b, a)
  }

  lemma BeforeOrder(f: Func, b: BlockId, i: InstId, j: InstId, k: InstId)
    requires b in f.blocks && NoDup(f.blocks[b]) && ComesBefore(f, b, i, j)
    ensures i != j && !ComesBefore(f, b, j, i)
    ensures ComesBefore(f, b, j, k) ==> ComesBefore(f, b, i, k)
  {
  }

  /** On an acyclic function the relation that computeReachability lists is a strict partial order. */
  lemma StrictOrder(f: Func, x: CheckNode, y: CheckNode, z: CheckNode)
    requires Valid(f) && Acyclic(f) && Anchored(f, x) && Anchored(f, y) && Anchored(f, z)
    ensures !CanFollow(f, x, x)
    ensures CanFollow(f, x, y) ==> !CanFollow(f, y, x)
    ensures CanFollow(f, x, y) && CanFollow(f, y, z) ==> CanFollow(f, x, z)
  {
    hide Reaches, ComesBefore;
    if x.anchor.Some? && x.bb.Some? && ComesBefore(f, x.bb.value, x.anchor.value, x.anchor.value) {
      BeforeOrder(f, x.bb.value, x.anchor.value, x.anchor.value, x.anchor.value);
    }
    if CanFollow(f, x, y) {
      if x.bb == y.bb {
        BeforeOrder(f, x.bb.value, x.anchor.value, y.anchor.value, if z.anchor.Some? then z.anchor.value else 0);
      }
      if CanFollow(f, y, z) && x.bb != y.bb && y.bb != z.bb {
        ReachesBoth(f, x.bb.value, y.bb.value, z.bb.value);
      }
    }
  }

  lemma ReachesBoth(f: Func, a: BlockId, b: BlockId, c: BlockId)
    requires Reaches(f, a, b) && Reaches(f, b, c)
    ensures Reaches(f, a, c)
  {
    var n: nat :| ReachIn(f, b, c, n);
    ReachesTrans(f, a, b, c, n);
  }
}
