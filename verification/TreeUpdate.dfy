/**
 The tree update of the network simplex (`motivating_example/treeup.c`): a
 tree of nodes linked by `pred`, `child`, `sibling` and `siblingPrev`.
 */
module TreeUpdate {
  import opened Ancestry

  class Arc {
    var tail: Node?
  }

  class Node {
    var pred: Node?
    var child: Node?
    var sibling: Node?
    var siblingPrev: Node?
    var potential: int
    var flow: int
    var depth: int
    var orientation: int
    var basicArc: Arc?
  }

  // ----- the abstract tree -----

  /** Parent map, ordered children, and ranks that witness acyclicity. */
  datatype Shape = Shape(nodes: set<Node>, root: Node, par: map<Node, Node>, kids: map<Node, seq<Node>>,
                         rank: map<Node, nat>)

  ghost predicate NoDuplicates(ks: seq<Node>)
  {
    forall i, j :: 0 <= i < j < |ks| ==> ks[i] != ks[j]
  }

  /** The child lists list exactly the children, each once. */
  ghost predicate KidsMatch(nodes: set<Node>, par: map<Node, Node>, kids: map<Node, seq<Node>>)
  {
    && kids.Keys == nodes
    && (forall n, c :: n in nodes && c in kids[n] ==> c in nodes && c in par && par[c] == n)
    && (forall c {:trigger par[c]} :: c in par ==> par[c] in nodes && c in kids[par[c]])
    && (forall n :: n in nodes ==> NoDuplicates(kids[n]))
  }

  ghost predicate WellFormed(s: Shape)
  {
    && IsTree(s.nodes, s.root, s.par, s.rank)
    && s.nodes <= s.rank.Keys
    && KidsMatch(s.nodes, s.par, s.kids)
  }

  function At(ks: seq<Node>, i: int): Node?
  {
    if 0 <= i < |ks| then ks[i] else null
  }

  /** ks is the doubly linked list of children that starts at n.child. */
  ghost predicate ListOf(n: Node, ks: seq<Node>)
    reads n`child, ks`sibling, ks`siblingPrev
  {
    && n.child == At(ks, 0)
    && (forall i {:trigger ks[i].sibling} :: 0 <= i < |ks| ==> ks[i].sibling == At(ks, i + 1))
    && (forall i {:trigger ks[i].siblingPrev} :: 0 <= i < |ks| ==> ks[i].siblingPrev == At(ks, i - 1))
  }

  ghost predicate ParentsOf(nodes: set<Node>, par: map<Node, Node>)
    reads nodes`pred
  {
    forall n {:trigger n.pred} :: n in nodes ==> n.pred == if n in par then par[n] else null
  }

  ghost predicate ListsOf(nodes: set<Node>, kids: map<Node, seq<Node>>)
    reads nodes`child, nodes`sibling, nodes`siblingPrev
  {
    forall n :: n in nodes ==> n in kids && (forall c :: c in kids[n] ==> c in nodes) && ListOf(n, kids[n])
  }

  /** All four link fields of all nodes agree with the parent map and the child lists. */
  ghost predicate Threaded(nodes: set<Node>, par: map<Node, Node>, kids: map<Node, seq<Node>>)
    reads nodes`pred, nodes`child, nodes`sibling, nodes`siblingPrev
  {
    ParentsOf(nodes, par) && ListsOf(nodes, kids)
  }

  ghost predicate Linked(s: Shape)
    reads s.nodes`pred, s.nodes`child, s.nodes`sibling, s.nodes`siblingPrev
  {
    WellFormed(s) && Threaded(s.nodes, s.par, s.kids)
  }

  ghost function Below(s: Shape, x: Node): set<Node>
  {
    Subtree(s.nodes, s.par, x)
  }

  ghost function IndexOf(ks: seq<Node>, x: Node): nat
    requires x in ks
    ensures IndexOf(ks, x) < |ks| && ks[IndexOf(ks, x)] == x
  {
    var i :| 0 <= i < |ks| && ks[i] == x; i
  }

  ghost function Without(ks: seq<Node>, x: Node): seq<Node>
    requires x in ks
  {
    ks[..IndexOf(ks, x)] + ks[IndexOf(ks, x) + 1..]
  }

  lemma WithoutMembers(ks: seq<Node>, x: Node)
    requires x in ks && NoDuplicates(ks)
    ensures NoDuplicates(Without(ks, x))
    ensures forall c :: c in Without(ks, x) <==> c in ks && c != x
  {
    var k, ws := IndexOf(ks, x), Without(ks, x);
    forall c | c in ks && c != x ensures c in ws {
      var i :| 0 <= i < |ks| && ks[i] == c;
      assert ws[if i < k then i else i - 1] == c;
    }
  }

  ghost function Unhang(par: map<Node, Node>, kids: map<Node, seq<Node>>, t: Node): map<Node, seq<Node>>
  {
    if t in par && par[t] in kids && t in kids[par[t]] then kids[par[t] := Without(kids[par[t]], t)] else kids
  }

  ghost function Hang(kids: map<Node, seq<Node>>, t: Node, q: Node): map<Node, seq<Node>>
  {
    if q in kids then kids[q := [t] + kids[q]] else kids
  }

  /** One pass of the loop: t, with its subtree, becomes the first child of q. */
  ghost function MoveFirst(s: Shape, t: Node, q: Node): Shape
  {
    s.(par := s.par[t := q],
       kids := Hang(Unhang(s.par, s.kids, t), t, q),
       rank := MovedRanks(s.par, s.rank, t, q))
  }

  lemma UnhangMatches(nodes: set<Node>, par: map<Node, Node>, kids: map<Node, seq<Node>>, t: Node)
    requires KidsMatch(nodes, par, kids) && t in par
    ensures KidsMatch(nodes, par - {t}, Unhang(par, kids, t))
  {
    WithoutMembers(kids[par[t]], t);
  }

  lemma HangMatches(nodes: set<Node>, par: map<Node, Node>, kids: map<Node, seq<Node>>, t: Node, q: Node)
    requires KidsMatch(nodes, par, kids) && t !in par && t in nodes && q in nodes
    ensures KidsMatch(nodes, par[t := q], Hang(kids, t, q))
  {
  }

  lemma MoveFirstWellFormed(s: Shape, t: Node, q: Node)
    requires WellFormed(s) && t in s.par && q in s.nodes && !Above(s.par, t, q)
    ensures WellFormed(MoveFirst(s, t, q))
  {
    MoveKeepsTree(s.nodes, s.root, s.par, s.rank, t, q);
    UnhangMatches(s.nodes, s.par, s.kids, t);
    HangMatches(s.nodes, s.par - {t}, Unhang(s.par, s.kids, t), t, q);
    assert (s.par - {t})[t := q] == s.par[t := q];
  }

  // ----- the list surgery of one pass -----

  method Unlink(temp: Node, father: Node, ghost ks: seq<Node>)
    requires ListOf(father, ks) && NoDuplicates(ks) && temp in ks
    modifies ks`sibling, ks`siblingPrev, father`child
    ensures ListOf(father, Without(ks, temp))
  {
    if temp.sibling != null {
      temp.sibling.siblingPrev := temp.siblingPrev;
    }
    if temp.siblingPrev != null {
      temp.siblingPrev.sibling := temp.sibling;
    } else {
      father.child := temp.sibling;
    }
  }

  method LinkFirst(temp: Node, newPred: Node, ghost ks: seq<Node>)
    requires ListOf(newPred, ks) && NoDuplicates(ks) && temp !in ks
    modifies temp`sibling, temp`siblingPrev, newPred`child, ks`siblingPrev
    ensures ListOf(newPred, [temp] + ks)
  {
    temp.sibling := newPred.child;
    if temp.sibling != null {
      temp.sibling.siblingPrev := temp;
    }
    newPred.child := temp;
    temp.siblingPrev := null;
  }

  ghost predicate Apart(ks: seq<Node>, cells: seq<Node>)
  {
    forall i :: 0 <= i < |ks| ==> ks[i] !in cells
  }

  method UnlinkIn(temp: Node, father: Node, ghost nodes: set<Node>, ghost kids: map<Node, seq<Node>>)
    requires ListsOf(nodes, kids) && father in nodes && temp in kids[father] && NoDuplicates(kids[father])
    requires forall n :: n in nodes && n != father ==> Apart(kids[n], kids[father])
    modifies nodes`child, nodes`sibling, nodes`siblingPrev
    ensures ListsOf(nodes, kids[father := Without(kids[father], temp)])
  {
    ghost var ks := kids[father];
    Unlink(temp, father, ks);
    WithoutMembers(ks, temp);
    forall n | n in nodes && n != father ensures ListOf(n, kids[n]) {
      assert old(ListOf(n, kids[n])) && Apart(kids[n], ks);
    }
  }

  method LinkFirstIn(temp: Node, newPred: Node, ghost nodes: set<Node>, ghost kids: map<Node, seq<Node>>)
    requires ListsOf(nodes, kids) && newPred in nodes && temp in nodes && NoDuplicates(kids[newPred])
    requires forall n :: n in nodes && n != newPred ==> Apart(kids[n], [temp] + kids[newPred])
    requires temp !in kids[newPred]
    modifies nodes`child, nodes`sibling, nodes`siblingPrev
    ensures ListsOf(nodes, Hang(kids, temp, newPred))
  {
    ghost var ks := kids[newPred];
    LinkFirst(temp, newPred, ks);
    forall n | n in nodes && n != newPred ensures ListOf(n, kids[n]) {
      assert old(ListOf(n, kids[n])) && Apart(kids[n], [temp] + ks);
    }
  }

  lemma KidsApart(nodes: set<Node>, par: map<Node, Node>, kids: map<Node, seq<Node>>, n: Node, m: Node)
    requires KidsMatch(nodes, par, kids) && n in nodes && m in nodes && n != m
    ensures Apart(kids[n], kids[m])
    ensures forall t :: t !in par ==> Apart(kids[n], [t] + kids[m])
  {
    forall i | 0 <= i < |kids[n]| ensures kids[n][i] in par && kids[n][i] !in kids[m] {
      assert kids[n][i] in kids[n];
    }
  }

  lemma RehangApart(nodes: set<Node>, par: map<Node, Node>, kids: map<Node, seq<Node>>, t: Node, q: Node)
    requires KidsMatch(nodes, par, kids) && t in par && t in nodes && q in nodes
    ensures forall n :: n in nodes && n != par[t] ==> Apart(kids[n], kids[par[t]])
    ensures var kids1 := Unhang(par, kids, t);
            && NoDuplicates(kids[par[t]]) && q in kids1 && NoDuplicates(kids1[q]) && t !in kids1[q]
            && forall n :: n in nodes && n != q ==> n in kids1 && Apart(kids1[n], [t] + kids1[q])
  {
    UnhangMatches(nodes, par, kids, t);
    var kids1 := Unhang(par, kids, t);
    forall n | n in nodes
      ensures n != par[t] ==> Apart(kids[n], kids[par[t]])
      ensures n != q ==> Apart(kids1[n], [t] + kids1[q])
    {
      if n != par[t] {
        KidsApart(nodes, par, kids, n, par[t]);
      }
      if n != q {
        KidsApart(nodes, par - {t}, kids1, n, q);
      }
    }
  }

  lemma RehangAt(nodes: set<Node>, par: map<Node, Node>, kids: map<Node, seq<Node>>, t: Node)
    requires KidsMatch(nodes, par, kids) && t in par
    ensures kids.Keys == nodes && par[t] in nodes && t in kids[par[t]]
    ensures Unhang(par, kids, t) == kids[par[t] := Without(kids[par[t]], t)]
  {
  }

  method RehangLists(temp: Node, father: Node, newPred: Node,
                     ghost nodes: set<Node>, ghost par: map<Node, Node>, ghost kids: map<Node, seq<Node>>)
    requires KidsMatch(nodes, par, kids) && ListsOf(nodes, kids)
    requires temp in par && par[temp] == father && newPred in nodes && temp in nodes
    modifies temp`pred, nodes`child, nodes`sibling, nodes`siblingPrev
    ensures temp.pred == newPred
    ensures ListsOf(nodes, Hang(Unhang(par, kids, temp), temp, newPred))
  {
    hide NoDuplicates, ListOf, ListsOf, Apart, Without, Unhang, Hang, KidsMatch;
    RehangApart(nodes, par, kids, temp, newPred);
    RehangAt(nodes, par, kids, temp);
    UnlinkIn(temp, father, nodes, kids);
    temp.pred := newPred;
    LinkFirstIn(temp, newPred, nodes, Unhang(par, kids, temp));
  }

  lemma LinkedParts(s: Shape)
    requires Linked(s)
    ensures WellFormed(s) && KidsMatch(s.nodes, s.par, s.kids) && ParentsOf(s.nodes, s.par) && ListsOf(s.nodes, s.kids)
    ensures s.par.Keys <= s.nodes
  {
  }

  lemma MoveFirstLinked(s: Shape, t: Node, q: Node)
    requires WellFormed(MoveFirst(s, t, q)) && ParentsOf(s.nodes, s.par[t := q])
    requires ListsOf(s.nodes, Hang(Unhang(s.par, s.kids, t), t, q))
    ensures Linked(MoveFirst(s, t, q))
  {
    hide WellFormed, ListsOf, ParentsOf, Hang, Unhang, MovedRanks;
  }

  method Rehang(temp: Node, father: Node, newPred: Node, ghost s: Shape)
    requires Linked(s) && temp in s.par && s.par[temp] == father
    requires newPred in s.nodes && !Above(s.par, temp, newPred)
    modifies s.nodes`pred, s.nodes`child, s.nodes`sibling, s.nodes`siblingPrev
    ensures WellFormed(MoveFirst(s, temp, newPred)) && Linked(MoveFirst(s, temp, newPred))
  {
    hide Linked, WellFormed, Threaded, KidsMatch, ListsOf, Hang, Unhang, MovedRanks, MoveFirst, Above, AboveIn, IsTree;
    LinkedParts(s);
    RehangLists(temp, father, newPred, s.nodes, s.par, s.kids);
    assert ParentsOf(s.nodes, s.par[temp := newPred]);
    MoveFirstWellFormed(s, temp, newPred);
    MoveFirstLinked(s, temp, newPred);
  }

  // ----- the pivot path -----

  /** The nodes from y up to its ancestor x, both included. */
  ghost function PathUp(par: map<Node, Node>, rank: map<Node, nat>, y: Node, x: Node): (p: seq<Node>)
    requires Ranked(par, rank) && Above(par, x, y)
    ensures |p| > 0 && p[0] == y && p[|p| - 1] == x
    decreases if y in par then rank[y] + 1 else 0
  {
    AboveUnfold(par, x, y);
    if x == y then [y] else [y] + PathUp(par, rank, par[y], x)
  }

  ghost predicate StepUp(par: map<Node, Node>, p: seq<Node>, j: int)
  {
    0 <= j < |p| - 1 && p[j] in par && par[p[j]] == p[j + 1]
  }

  lemma {:induction false} PathUpFacts(par: map<Node, Node>, rank: map<Node, nat>, y: Node, x: Node)
    requires Ranked(par, rank) && Above(par, x, y)
    ensures var p := PathUp(par, rank, y, x);
            && (forall j :: 0 <= j < |p| - 1 ==> StepUp(par, p, j))
            && (forall z :: z in p <==> Above(par, x, z) && Above(par, z, y))
            && NoDuplicates(p)
    decreases if y in par then rank[y] + 1 else 0
  {
    AboveUnfold(par, x, y);
    AboveUnfold(par, y, y);
    AboveUnfold(par, x, x);
    if x != y {
      var p, q := PathUp(par, rank, y, x), PathUp(par, rank, par[y], x);
      PathUpFacts(par, rank, par[y], x);
      forall j | 0 <= j < |p| - 1 ensures StepUp(par, p, j) {
        assert j > 0 ==> StepUp(par, q, j - 1);
      }
      forall z ensures z in p <==> Above(par, x, z) && Above(par, z, y) {
        AboveUnfold(par, z, y);
        assert z in p <==> z == y || z in q;
      }
      assert y !in q by {
        AboveUnfold(par, par[y], par[y]);
        AboveUnfold(par, par[y], y);
        AboveRank(par, rank, par[y], y);
      }
    } else {
      forall z ensures z == x <==> Above(par, x, z) && Above(par, z, y) {
        if z != x && Above(par, x, z) {
          AboveRank(par, rank, x, z);
        }
      }
    }
  }

  // ----- subtree sizes during the re-rooting loop -----

  /**
   The size of x's subtree in the tree as it stands at a loop head, in terms of
   the field `depth`: what was moved so far (d - nd nodes) is missing above
   `temp`, everything above `newPred` still waits for the nd nodes to come, and
   the ancestors of `jplus` have not been credited with the d nodes at all.
   */
  ghost predicate SizeAt(s: Shape, x: Node, depth: int, temp: Node, newPred: Node, jplus: Node, d: int, nd: int)
  {
    |Below(s, x)| == depth
                     - (if Above(s.par, x, temp) then d - nd else 0)
                     - (if Above(s.par, x, newPred) then nd else 0)
                     + (if Above(s.par, x, jplus) then d else 0)
  }

  lemma SizeStep(s: Shape, x: Node, depth: int, depthTemp: int, temp: Node, newPred: Node, jplus: Node, d: int, nd: int)
    requires WellFormed(s) && temp in s.par && newPred in s.nodes && x in s.nodes
    requires !Above(s.par, temp, newPred) && !Above(s.par, temp, jplus)
    requires SizeAt(s, x, depth, temp, newPred, jplus, d, nd)
    requires SizeAt(s, temp, depthTemp, temp, newPred, jplus, d, nd)
    ensures SizeAt(MoveFirst(s, temp, newPred), x, if x == temp then nd else depth,
                   s.par[temp], temp, jplus, d, d - depthTemp)
  {
    var father := s.par[temp];
    MoveSizes(s.nodes, s.par, s.rank, temp, newPred, x);
    AboveUnfold(s.par, temp, temp);
    AboveUnfold(s.par, temp, father);
    AboveUnfold(s.par, x, temp);
    AboveUnfold(s.par, temp, x);
    assert !Above(s.par, temp, father) by {
      AboveUnfold(s.par, father, father);
      AboveUnfold(s.par, father, temp);
      AboveRank(s.par, s.rank, father, temp);
    }
    MoveAbove(s.par, s.rank, temp, newPred, x, father);
    MoveAbove(s.par, s.rank, temp, newPred, x, temp);
    MoveAbove(s.par, s.rank, temp, newPred, x, jplus);
    if Above(s.par, temp, x) {
      if Above(s.par, x, newPred) { AboveTrans(s.par, temp, x, newPred); }
      if Above(s.par, x, jplus) { AboveTrans(s.par, temp, x, jplus); }
      if Above(s.par, x, father) { AboveTrans(s.par, temp, x, father); }
      if x != temp {
        AboveRank(s.par, s.rank, temp, x);
      }
    }
  }

  // ----- the re-rooting loop -----

  function Flip(orientation: int): int { if orientation == 0 then 1 else 0 }

  /** The flow a path arc carries after the pivot. */
  function PathFlow(orientation: int, flow: int, cycleOri: int, delta: int): int
  {
    if Flip(orientation) == cycleOri then flow + delta else flow - delta
  }

  /** The node under which the k-th node of the path goes. */
  ghost function NewPred(p: seq<Node>, jplus: Node, k: nat): Node
  {
    if 0 < k <= |p| then p[k - 1] else jplus
  }

  /** The parent of x once the first k nodes of the path p have been moved. */
  ghost function ParentAfter(par: map<Node, Node>, p: seq<Node>, jplus: Node, k: nat, x: Node): Node
    requires x in par && k <= |p|
  {
    if x !in p[..k] then par[x] else NewPred(p, jplus, IndexOf(p, x))
  }

  /** The tree after k passes: each path node in turn becomes the first child of the one before it. */
  ghost function Passes(s: Shape, p: seq<Node>, jplus: Node, k: nat): Shape
  {
    if k == 0 || k > |p| then s else MoveFirst(Passes(s, p, jplus, k - 1), p[k - 1], NewPred(p, jplus, k - 1))
  }

  /** The tree t at the loop head after k passes that started from the tree s. */
  ghost predicate RerootedTo(s: Shape, p: seq<Node>, jplus: Node, k: nat, t: Shape)
  {
    && k <= |p| && t == Passes(s, p, jplus, k) && WellFormed(t) && t.nodes == s.nodes && t.root == s.root && t.par.Keys == s.par.Keys
    && (forall x {:trigger t.par[x]} :: x in s.par ==> t.par[x] == ParentAfter(s.par, p, jplus, k, x))
    && (forall j :: k <= j < |p| ==> !Above(t.par, p[j], NewPred(p, jplus, k)) && !Above(t.par, p[j], jplus))
  }

  /** What the loop needs to know about its pivot path. */
  ghost predicate PivotPath(s: Shape, p: seq<Node>, iplus: Node, jplus: Node, iminus: Node, jminus: Node)
  {
    && WellFormed(s)
    && iminus in s.par && s.par[iminus] == jminus && jplus in s.nodes && iplus in s.nodes
    && Above(s.par, iminus, iplus) && !Above(s.par, iminus, jplus)
    && p == PathUp(s.par, s.rank, iplus, iminus)
  }

  ghost function PathNode(p: seq<Node>, jminus: Node, k: nat): Node
  {
    if k < |p| then p[k] else jminus
  }

  lemma PathMembers(s: Shape, p: seq<Node>, iplus: Node, jplus: Node, iminus: Node, jminus: Node, k: nat)
    requires PivotPath(s, p, iplus, jplus, iminus, jminus) && k < |p|
    ensures NoDuplicates(p) && p[k] in s.par && s.par[p[k]] == PathNode(p, jminus, k + 1)
    ensures Above(s.par, iminus, p[k]) && p[k] != jminus && IndexOf(p, p[k]) == k
  {
    PathUpFacts(s.par, s.rank, iplus, iminus);
    assert p[k] in p;
    if k < |p| - 1 {
      assert StepUp(s.par, p, k);
    }
    AboveUnfold(s.par, jminus, jminus);
    AboveUnfold(s.par, jminus, iminus);
    AboveRank(s.par, s.rank, jminus, iminus);
  }

  lemma RerootInit(s: Shape, p: seq<Node>, iplus: Node, jplus: Node, iminus: Node, jminus: Node)
    requires PivotPath(s, p, iplus, jplus, iminus, jminus)
    ensures RerootedTo(s, p, jplus, 0, s)
    ensures |p| > 0 && p[0] == iplus && p[|p| - 1] == iminus && iminus in s.nodes
    ensures NoDuplicates(p) && forall z :: z in p ==> z in s.nodes
  {
    PathUpFacts(s.par, s.rank, iplus, iminus);
    forall j | 0 <= j < |p| ensures !Above(s.par, p[j], jplus) && p[j] in s.nodes {
      PathMembers(s, p, iplus, jplus, iminus, jminus, j);
      if Above(s.par, p[j], jplus) {
        AboveTrans(s.par, iminus, p[j], jplus);
      }
    }
  }

  lemma {:induction false} PathAbove(s: Shape, p: seq<Node>, iplus: Node, jplus: Node, iminus: Node, jminus: Node,
                                     k: nat, t: Shape, i: nat, j: nat)
    requires PivotPath(s, p, iplus, jplus, iminus, jminus) && RerootedTo(s, p, jplus, k, t)
    requires k <= i <= j < |p|
    ensures Above(t.par, p[j], p[i])
    decreases j - i
  {
    hide WellFormed;
    AboveUnfold(t.par, p[j], p[i]);
    if i < j {
      PathAbove(s, p, iplus, jplus, iminus, jminus, k, t, i + 1, j);
      PathMembers(s, p, iplus, jplus, iminus, jminus, i);
      assert p[i] in s.par && p[i] !in p[..k];
      assert t.par[p[i]] == p[i + 1];
    }
  }

  lemma RerootReady(s: Shape, p: seq<Node>, iplus: Node, jplus: Node, iminus: Node, jminus: Node, k: nat, t: Shape)
    requires PivotPath(s, p, iplus, jplus, iminus, jminus) && RerootedTo(s, p, jplus, k, t) && k < |p|
    ensures p[k] in t.par && t.par[p[k]] == PathNode(p, jminus, k + 1) && NewPred(p, jplus, k) in t.nodes
    ensures p[k] !in p[..k] && IndexOf(p, p[k]) == k && p[k] != jminus && t.nodes == s.nodes
    ensures !Above(t.par, p[k], NewPred(p, jplus, k)) && !Above(t.par, p[k], jplus)
  {
    hide KidsMatch;
    PathMembers(s, p, iplus, jplus, iminus, jminus, k);
    if k > 0 {
      PathMembers(s, p, iplus, jplus, iminus, jminus, k - 1);
    }
    assert t.par[p[k]] == ParentAfter(s.par, p, jplus, k, p[k]);
  }

  lemma RerootAbove(s: Shape, p: seq<Node>, iplus: Node, jplus: Node, iminus: Node, jminus: Node,
                    k: nat, t: Shape, j: nat)
    requires PivotPath(s, p, iplus, jplus, iminus, jminus) && RerootedTo(s, p, jplus, k, t) && k < j < |p|
    requires p[k] in t.par && !Above(t.par, p[k], NewPred(p, jplus, k)) && !Above(t.par, p[k], jplus)
    ensures var par := t.par[p[k] := NewPred(p, jplus, k)]; !Above(par, p[j], p[k]) && !Above(par, p[j], jplus)
  {
    hide KidsMatch;
    var q := NewPred(p, jplus, k);
    PathAbove(s, p, iplus, jplus, iminus, jminus, k, t, k, j);
    assert p[j] != p[k] by {
      PathMembers(s, p, iplus, jplus, iminus, jminus, k);
    }
    AboveRank(t.par, t.rank, p[j], p[k]);
    AboveUnfold(t.par, p[k], p[k]);
    MoveAbove(t.par, t.rank, p[k], q, p[j], p[k]);
    MoveAbove(t.par, t.rank, p[k], q, p[j], jplus);
  }

  lemma RerootPass(s: Shape, p: seq<Node>, iplus: Node, jplus: Node, iminus: Node, jminus: Node, k: nat, t: Shape)
    requires PivotPath(s, p, iplus, jplus, iminus, jminus) && RerootedTo(s, p, jplus, k, t) && k < |p|
    requires p[k] in t.par && NewPred(p, jplus, k) in t.nodes
    ensures RerootedTo(s, p, jplus, k + 1, MoveFirst(t, p[k], NewPred(p, jplus, k)))
  {
    hide WellFormed, PivotPath;
    RerootReady(s, p, iplus, jplus, iminus, jminus, k, t);
    var t' := MoveFirst(t, p[k], NewPred(p, jplus, k));
    MoveFirstWellFormed(t, p[k], NewPred(p, jplus, k));
    forall x | x in s.par ensures x in t.par && t'.par[x] == ParentAfter(s.par, p, jplus, k + 1, x) {
      assert x in p[..k + 1] <==> x in p[..k] || x == p[k];
      assert t.par[x] == ParentAfter(s.par, p, jplus, k, x);
    }
    forall j | k + 1 <= j < |p| ensures !Above(t'.par, p[j], p[k]) && !Above(t'.par, p[j], jplus) {
      RerootAbove(s, p, iplus, jplus, iminus, jminus, k, t, j);
    }
  }

  ghost predicate SizesAt(t: Shape, temp: Node, newPred: Node, jplus: Node, d: int, nd: int)
    reads t.nodes`depth
  {
    forall x {:trigger x.depth} :: x in t.nodes ==> SizeAt(t, x, x.depth, temp, newPred, jplus, d, nd)
  }

  // ----- what is stored with a node -----

  /** The basic arc of a node with its orientation and flow, and the size of the node's subtree. */
  datatype NodeData = NodeData(orientation: int, flow: int, basicArc: Arc?, depth: int)

  ghost function DataOf(n: Node): NodeData
    reads n`orientation, n`flow, n`basicArc, n`depth
  {
    NodeData(n.orientation, n.flow, n.basicArc, n.depth)
  }

  ghost function DataMap(nodes: set<Node>): map<Node, NodeData>
    reads nodes`orientation, nodes`flow, nodes`basicArc, nodes`depth
  {
    map x | x in nodes :: DataOf(x)
  }

  /** What a node of the path hands on to the next one: its arc turned round and shifted, and the complement of its size. */
  function Turned(a: NodeData, cycleOri: int, delta: int, d: int): NodeData
  {
    NodeData(Flip(a.orientation), PathFlow(a.orientation, a.flow, cycleOri, delta), a.basicArc, d - a.depth)
  }

  datatype Pivot = Pivot(cycleOri: int, delta: int, d: int, first: NodeData)

  /** The data that the k-th node of the path receives. */
  ghost function Handed(data: map<Node, NodeData>, p: seq<Node>, v: Pivot, k: nat): NodeData
  {
    if k == 0 || k > |p| || p[k - 1] !in data then v.first else Turned(data[p[k - 1]], v.cycleOri, v.delta, v.d)
  }

  ghost function DataAfter(data: map<Node, NodeData>, p: seq<Node>, v: Pivot, k: nat, x: Node): NodeData
    requires k <= |p| && x in data
  {
    if x in p[..k] then Handed(data, p, v, IndexOf(p, x)) else data[x]
  }

  ghost predicate DataIs(nodes: set<Node>, data: map<Node, NodeData>, p: seq<Node>, v: Pivot, k: nat)
    reads nodes`orientation, nodes`flow, nodes`basicArc, nodes`depth
  {
    && k <= |p| && data.Keys == nodes && (forall z :: z in p ==> z in data)
    && forall x {:trigger DataOf(x)} :: x in nodes ==> DataOf(x) == DataAfter(data, p, v, k, x)
  }

  method Exchange(temp: Node, cycleOri: int, delta: int, depthIminus: int, given: NodeData) returns (next: NodeData)
    modifies temp`orientation, temp`flow, temp`basicArc, temp`depth
    ensures DataOf(temp) == given && next == Turned(old(DataOf(temp)), cycleOri, delta, depthIminus)
  {
    var orientationTemp := Flip(temp.orientation);
    var flowTemp := if orientationTemp == cycleOri then temp.flow + delta else temp.flow - delta;
    var basicArcTemp, depthTemp := temp.basicArc, temp.depth;
    temp.orientation, temp.flow, temp.basicArc, temp.depth := given.orientation, given.flow, given.basicArc, given.depth;
    next := NodeData(orientationTemp, flowTemp, basicArcTemp, depthIminus - depthTemp);
  }

  /** One pass of the re-rooting loop. */
  method RerootStep(temp: Node, father: Node, newPred: Node, cycleOri: int, delta: int, d: int, given: NodeData,
                    ghost jplus: Node, ghost s: Shape) returns (next: NodeData)
    requires Linked(s) && temp in s.nodes && temp in s.par && s.par[temp] == father && newPred in s.nodes
    requires !Above(s.par, temp, newPred) && !Above(s.par, temp, jplus)
    requires SizesAt(s, temp, newPred, jplus, d, given.depth)
    modifies s.nodes`pred, s.nodes`child, s.nodes`sibling, s.nodes`siblingPrev
    modifies temp`orientation, temp`flow, temp`basicArc, temp`depth
    ensures WellFormed(s) && Linked(MoveFirst(s, temp, newPred))
    ensures SizesAt(MoveFirst(s, temp, newPred), father, temp, jplus, d, next.depth)
    ensures next == Turned(old(DataOf(temp)), cycleOri, delta, d) && DataOf(temp) == given
  {
    hide WellFormed, Threaded;
    Rehang(temp, father, newPred, s);
    next := Exchange(temp, cycleOri, delta, d, given);
    ghost var t := MoveFirst(s, temp, newPred);
    forall x | x in t.nodes ensures SizeAt(t, x, x.depth, father, temp, jplus, d, next.depth) {
      assert old(SizeAt(s, x, x.depth, temp, newPred, jplus, d, given.depth));
      assert old(SizeAt(s, temp, temp.depth, temp, newPred, jplus, d, given.depth));
      SizeStep(s, x, old(x.depth), old(temp.depth), temp, newPred, jplus, d, given.depth);
    }
  }

  lemma PredIsParent(s: Shape, x: Node)
    requires Linked(s) && x in s.par
    ensures x in s.nodes && x.pred == s.par[x]
  {
  }

  lemma DataPass(data: map<Node, NodeData>, p: seq<Node>, v: Pivot, k: nat, x: Node)
    requires k < |p| && x in data && NoDuplicates(p) && forall z :: z in p ==> z in data
    ensures DataAfter(data, p, v, k + 1, x) == if x == p[k] then Handed(data, p, v, k) else DataAfter(data, p, v, k, x)
    ensures DataAfter(data, p, v, k, p[k]) == data[p[k]]
    ensures Handed(data, p, v, k + 1) == Turned(data[p[k]], v.cycleOri, v.delta, v.d)
  {
    assert x in p[..k + 1] <==> x in p[..k] || x == p[k];
    assert p[k] !in p[..k];
  }

  lemma DataEnds(data: map<Node, NodeData>, p: seq<Node>, v: Pivot)
    requires |p| > 0 && NoDuplicates(p) && forall z :: z in p ==> z in data
    requires v.d == data[p[|p| - 1]].depth
    ensures forall x :: x in data ==> DataAfter(data, p, v, 0, x) == data[x]
    ensures Handed(data, p, v, 0) == v.first && Handed(data, p, v, |p|).depth == 0
  {
  }

  /**
   The invariant at the head of the re-rooting loop after k passes: the links
   form the tree t, the sizes are off by what is still to be accounted for, and
   the first k path nodes have received the data of their predecessors.
   */
  ghost predicate LoopHead(s: Shape, p: seq<Node>, iplus: Node, jplus: Node, iminus: Node, jminus: Node,
                           data: map<Node, NodeData>, v: Pivot, k: nat, t: Shape, given: NodeData)
    reads s.nodes
  {
    && PivotPath(s, p, iplus, jplus, iminus, jminus)
    && RerootedTo(s, p, jplus, k, t) && Linked(t)
    && SizesAt(t, PathNode(p, jminus, k), NewPred(p, jplus, k), jplus, v.d, given.depth)
    && DataIs(s.nodes, data, p, v, k) && given == Handed(data, p, v, k)
  }

  lemma PassOpens(s: Shape, p: seq<Node>, iplus: Node, jplus: Node, iminus: Node, jminus: Node,
                  data: map<Node, NodeData>, v: Pivot, k: nat, t: Shape, given: NodeData)
    requires LoopHead(s, p, iplus, jplus, iminus, jminus, data, v, k, t, given) && k < |p|
    ensures NoDuplicates(p) && t.nodes == s.nodes && WellFormed(t) && p[k] in s.nodes && p[k] in t.par
    ensures var q := NewPred(p, jplus, k);
            && q in t.nodes && p[k].pred == t.par[p[k]] == PathNode(p, jminus, k + 1)
            && !Above(t.par, p[k], q) && !Above(t.par, p[k], jplus)
            && RerootedTo(s, p, jplus, k + 1, MoveFirst(t, p[k], q))
    ensures Turned(DataOf(p[k]), v.cycleOri, v.delta, v.d) == Handed(data, p, v, k + 1)
  {
    hide WellFormed, PivotPath, SizesAt;
    PathMembers(s, p, iplus, jplus, iminus, jminus, k);
    RerootReady(s, p, iplus, jplus, iminus, jminus, k, t);
    RerootPass(s, p, iplus, jplus, iminus, jminus, k, t);
    PredIsParent(t, p[k]);
    DataPass(data, p, v, k, p[k]);
    assert DataOf(p[k]) == data[p[k]];
  }

  method RerootPassAt(temp: Node, father: Node?, newPred: Node, cycleOri: int, delta: int, depthIminus: int, given: NodeData,
                      ghost s: Shape, ghost p: seq<Node>, ghost iplus: Node, ghost jplus: Node, ghost iminus: Node,
                      ghost jminus: Node, ghost data: map<Node, NodeData>, ghost v: Pivot, ghost k: nat, ghost t: Shape)
    returns (next: NodeData)
    requires LoopHead(s, p, iplus, jplus, iminus, jminus, data, v, k, t, given) && k < |p|
    requires temp == p[k] && father == temp.pred && newPred == NewPred(p, jplus, k)
    requires cycleOri == v.cycleOri && delta == v.delta && depthIminus == v.d
    modifies s.nodes`pred, s.nodes`child, s.nodes`sibling, s.nodes`siblingPrev
    modifies s.nodes`orientation, s.nodes`flow, s.nodes`basicArc, s.nodes`depth
    ensures father == PathNode(p, jminus, k + 1) && WellFormed(t) && temp in t.par && newPred in t.nodes
    ensures LoopHead(s, p, iplus, jplus, iminus, jminus, data, v, k + 1, MoveFirst(t, temp, newPred), next)
    ensures next == Handed(data, p, v, k + 1)
  {
    hide WellFormed, PivotPath, RerootedTo, Linked, SizesAt, Turned, Handed, DataAfter;
    PassOpens(s, p, iplus, jplus, iminus, jminus, data, v, k, t, given);
    next := RerootStep(temp, father, newPred, cycleOri, delta, depthIminus, given, jplus, t);
    forall x | x in s.nodes ensures DataOf(x) == DataAfter(data, p, v, k + 1, x) {
      DataPass(data, p, v, k, x);
      assert old(DataOf(x)) == DataAfter(data, p, v, k, x);
    }
  }

  lemma HeadInit(s: Shape, p: seq<Node>, iplus: Node, jplus: Node, iminus: Node, jminus: Node,
                 data: map<Node, NodeData>, v: Pivot)
    requires PivotPath(s, p, iplus, jplus, iminus, jminus) && Linked(s) && data == DataMap(s.nodes)
    requires SizesAt(s, iplus, jplus, jplus, v.d, v.first.depth) && v.d == iminus.depth
    ensures LoopHead(s, p, iplus, jplus, iminus, jminus, data, v, 0, s, v.first)
    ensures |p| > 0 && p[0] == iplus && iminus in s.nodes
    ensures Handed(data, p, v, 0) == v.first
  {
    hide WellFormed, Threaded, KidsMatch, SizesAt;
    RerootInit(s, p, iplus, jplus, iminus, jminus);
    DataEnds(data, p, v);
  }

  method Reroot(cycleOri: int, newOri: int, delta: int, newFl: int, iplus: Node, jplus: Node, iminus: Node, jminus: Node,
                bea: Arc, ghost s: Shape, ghost p: seq<Node>, ghost data: map<Node, NodeData>)
    returns (ghost t: Shape, ghost v: Pivot)
    requires PivotPath(s, p, iplus, jplus, iminus, jminus) && Linked(s) && data == DataMap(s.nodes)
    requires SizesAt(s, iplus, jplus, jplus, iminus.depth, iminus.depth)
    modifies s.nodes`pred, s.nodes`child, s.nodes`sibling, s.nodes`siblingPrev
    modifies s.nodes`orientation, s.nodes`flow, s.nodes`basicArc, s.nodes`depth
    ensures v == Pivot(cycleOri, delta, data[iminus].depth, NodeData(newOri, newFl, bea, data[iminus].depth))
    ensures LoopHead(s, p, iplus, jplus, iminus, jminus, data, v, |p|, t, Handed(data, p, v, |p|))
  {
    hide LoopHead, Linked, PivotPath, SizesAt, Handed;
    t := s;
    var temp, father := iplus, iplus.pred;
    var depthIminus := iminus.depth;
    var newPred, given := jplus, NodeData(newOri, newFl, bea, depthIminus);
    v := Pivot(cycleOri, delta, depthIminus, given);
    ghost var k := 0;
    HeadInit(s, p, iplus, jplus, iminus, jminus, data, v);
    while temp != jminus
      invariant 0 <= k <= |p| && temp == PathNode(p, jminus, k) && newPred == NewPred(p, jplus, k) && father == temp.pred
      invariant LoopHead(s, p, iplus, jplus, iminus, jminus, data, v, k, t, given) && given == Handed(data, p, v, k)
      decreases |p| - k
    {
      given := RerootPassAt(temp, father, newPred, cycleOri, delta, depthIminus, given,
                            s, p, iplus, jplus, iminus, jminus, data, v, k, t);
      newPred, temp, father, t, k := temp, father, father.pred, MoveFirst(t, temp, newPred), k + 1;
    }
    if k < |p| {
      PathMembers(s, p, iplus, jplus, iminus, jminus, k);
    }
    assert k == |p|;
    assert given == Handed(data, p, v, k);
  }
}
