/** MergeBlockIntoPredecessor: fold the PHIs of a block, then append it to its only predecessor. */
module Merge {
  import opened IR
  import opened Bypass
  import opened SliceSpec
  import opened Guard
  import opened Health

  // ----- folding a PHI -----

  function Substituted(os: seq<Operand>, i: InstId, v: Operand): seq<Operand>
  {
    seq(|os|, k requires 0 <= k < |os| => if os[k] == Use(i) then v else os[k])
  }

  /** replaceAllUsesWith. */
  function ReplaceUses(f: Func, i: InstId, v: Operand): Func
  {
    f.(insts := map j | j in f.insts :: Inst(f.insts[j].op, Substituted(f.insts[j].operands, i, v)))
  }

  /** A PHI of a block with one predecessor stands for its first operand. */
  function FoldValue(f: Func, i: InstId): Operand
  {
    if i !in f.insts || f.insts[i].operands == [] || f.insts[i].operands[0] == Use(i) then Value(0)
    else f.insts[i].operands[0]
  }

  function FoldPhi(f: Func, i: InstId): Func
  {
    Minus(ReplaceUses(f, i, FoldValue(f, i)), {i})
  }

  lemma ReplaceEnds(f: Func, i: InstId, v: Operand, b: BlockId)
    requires b in f.blocks && EndsWell(f, b)
    ensures EndsWell(ReplaceUses(f, i, v), b) && Term(ReplaceUses(f, i, v), b) == Term(f, b)
  {
    var g, ks := ReplaceUses(f, i, v), f.blocks[b];
    forall k | 0 <= k < |ks| ensures ks[k] in g.insts && g.insts[ks[k]].op == f.insts[ks[k]].op {
      assert ks[k] in ks;
    }
  }

  lemma ReplacePlaced(f: Func, i: InstId, v: Operand)
    requires Placed(f) && PhisBalanced(f)
    ensures Placed(ReplaceUses(f, i, v)) && PhisBalanced(ReplaceUses(f, i, v))
  {
    hide NoDup;
    var g := ReplaceUses(f, i, v);
    assert g.blocks == f.blocks && g.parent == f.parent && g.insts.Keys == f.insts.Keys;
  }

  lemma ReplaceValid(f: Func, i: InstId, v: Operand)
    requires Valid(f)
    ensures Valid(ReplaceUses(f, i, v))
    ensures forall b :: b in f.blocks ==> Term(ReplaceUses(f, i, v), b) == Term(f, b)
  {
    hide EndsWell, Placed, PhisBalanced, Term;
    ReplacePlaced(f, i, v);
    forall b | b in f.blocks ensures EndsWell(ReplaceUses(f, i, v), b) && Term(ReplaceUses(f, i, v), b) == Term(f, b) {
      assert EndsWell(f, b);
      ReplaceEnds(f, i, v, b);
    }
  }

  lemma ReplaceUnused(f: Func, i: InstId, v: Operand)
    requires ChecksUnused(f) && (v.Use? && v.id in f.insts ==> !IsCheck(f.insts[v.id].op))
    ensures ChecksUnused(ReplaceUses(f, i, v))
  {
    var g := ReplaceUses(f, i, v);
    forall j, k | j in g.insts && k in g.insts && Use(k) in g.insts[j].operands ensures !IsCheck(g.insts[k].op) {
      var n :| 0 <= n < |g.insts[j].operands| && g.insts[j].operands[n] == Use(k);
      assert f.insts[j].operands[n] in f.insts[j].operands;
    }
  }

  lemma ReplaceKeeps(f: Func, i: InstId, v: Operand)
    requires Healthy(f) && (v.Use? && v.id in f.insts ==> !IsCheck(f.insts[v.id].op))
    ensures Keeps(f, ReplaceUses(f, i, v), {})
  {
    hide *;
    var g := ReplaceUses(f, i, v);
    HealthyParts(f);
    ReplaceValid(f, i, v);
    ReplaceUnused(f, i, v);
    ReplaceReachable(f, i, v);
    HealthyWhole(g);
    ReplaceChecks(f, i, v);
    ReplaceGuards(f, i, v);
    KeepsBy(f, g, {});
  }

  lemma ReplaceReachable(f: Func, i: InstId, v: Operand)
    requires Valid(f) && AllReachable(f)
    ensures AllReachable(ReplaceUses(f, i, v))
  {
    hide Valid, AllReachable, Term;
    ReplaceValid(f, i, v);
    SameEdges(f, ReplaceUses(f, i, v));
  }

  lemma ReplaceChecks(f: Func, i: InstId, v: Operand)
    ensures Checks(ReplaceUses(f, i, v)) == Checks(f) - {}
    ensures forall j :: j in Checks(f) ==> j in ReplaceUses(f, i, v).insts && ReplaceUses(f, i, v).insts[j].op == f.insts[j].op
  {
    hide IsCheck;
  }

  lemma ReplaceGuards(f: Func, i: InstId, v: Operand)
    requires Valid(f)
    ensures Guards(f, ReplaceUses(f, i, v), {})
  {
    var g := ReplaceUses(f, i, v);
    ReplaceValid(f, i, v);
    hide Valid, Term, Guarded, Fast, PlainCheck;
    forall m: set<InstId> | Guarded(f, m) ensures Guarded(g, m) {
      GuardedSameEdges(f, g, m);
    }
  }

  lemma FoldKeeps(f: Func, i: InstId)
    requires Healthy(f) && i in f.insts && f.insts[i].op.Phi?
    ensures Keeps(f, FoldPhi(f, i), {})
  {
    hide Valid, AllReachable, Minus, Keeps;
    var v := FoldValue(f, i);
    assert v.Use? ==> v in f.insts[i].operands;
    var g := ReplaceUses(f, i, v);
    ReplaceKeeps(f, i, v);
    assert Healthy(g) by { KeepsHealthy(f, g, {}); }
    assert g.insts[i].op == f.insts[i].op;
    MinusKeeps(g, {i});
    KeepsTrans(f, g, FoldPhi(f, i), {}, {i});
    KeepsLess(f, FoldPhi(f, i), i);
  }

  lemma KeepsLess(f: Func, g: Func, i: InstId)
    requires Keeps(f, g, {} + {i}) && (i in f.insts ==> !IsCheck(f.insts[i].op))
    ensures Keeps(f, g, {})
  {
    hide Healthy, Guards;
    assert {} + {i} == {i};
    GuardsLess(f, g, {i});
  }

  // ----- splicing -----

  function RenameIncoming(i: Inst, b: BlockId, p: BlockId): Inst
  {
    match i.op
    case Phi(ins) => Inst(Phi(seq(|ins|, k requires 0 <= k < |ins| => if ins[k] == b then p else ins[k])), i.operands)
    case _ => i
  }

  /** p is the only predecessor of b, b its only successor, and b has no PHIs left. */
  ghost predicate Spliceable(f: Func, p: BlockId, b: BlockId)
  {
    && b in f.blocks && p in f.blocks && p != b && b != f.entry
    && (Term(f, p).Br? || Term(f, p).CondBr?)
    && (forall d :: d in Successors(Term(f, p)) ==> d == b)
    && (forall a :: Edge(f, a, b) ==> a == p)
  }

  function Spliced(f: Func, p: BlockId, b: BlockId): Func
  {
    if p !in f.blocks || f.blocks[p] == [] || b !in f.blocks then f else
    var t := TermId(f, p);
    Func(f.entry,
         (f.blocks - {b})[p := f.blocks[p][..|f.blocks[p]| - 1] + f.blocks[b]],
         map i | i in f.insts && i != t :: RenameIncoming(f.insts[i], b, p),
         map i | i in f.parent && i != t :: if f.parent[i] == b then p else f.parent[i])
  }

  lemma RenameFacts(i: Inst, b: BlockId, p: BlockId)
    ensures var d := RenameIncoming(i, b, p);
            && IsTerminator(d.op) == IsTerminator(i.op) && IsCheck(d.op) == IsCheck(i.op)
            && SanitizerOnly(d.op) == SanitizerOnly(i.op) && DeadKind(d.op) == DeadKind(i.op)
            && (!i.op.Phi? ==> d == i) && (d.op.Phi? <==> i.op.Phi?)
            && (i.op.Phi? ==> |d.op.incoming| == |i.op.incoming|)
            && d.operands == i.operands
  {
  }

  /** The instructions of the merged block. */
  lemma Joined(f: Func, p: BlockId, b: BlockId)
    requires Placed(f) && p in f.blocks && b in f.blocks && p != b && |f.blocks[p]| > 0
    ensures var t, ks := TermId(f, p), Spliced(f, p, b).blocks[p];
            && (forall i :: i in ks <==> (i in f.blocks[p] && i != t) || i in f.blocks[b])
            && NoDup(ks) && t !in ks
  {
    var t, ks := TermId(f, p), Spliced(f, p, b).blocks[p];
    var init := f.blocks[p][..|f.blocks[p]| - 1];
    assert f.blocks[p] == init + [t] && ks == init + f.blocks[b];
    assert t in f.blocks[p];
    forall i ensures i in ks <==> (i in f.blocks[p] && i != t) || i in f.blocks[b] {
      assert i in init ==> i in f.blocks[p];
      assert i in f.blocks[p] ==> i in init || i == t;
    }
    assert NoDup(f.blocks[p]) && NoDup(f.blocks[b]);
    forall i | i in ks ensures i != t {
      if i in init {
        var k :| 0 <= k < |init| && init[k] == i;
        assert f.blocks[p][k] == i && f.blocks[p][|f.blocks[p]| - 1] == t;
      } else {
        assert i in f.blocks[b] && f.parent[i] == b && f.parent[t] == p;
      }
    }
    forall i, j | 0 <= i < j < |ks| ensures ks[i] != ks[j] {
      if j < |init| {
        assert ks[i] == f.blocks[p][i] && ks[j] == f.blocks[p][j];
      } else if i < |init| {
        assert ks[i] in f.blocks[p] && ks[j] in f.blocks[b];
        assert f.parent[ks[i]] == p && f.parent[ks[j]] == b;
      } else {
        assert ks[i] == f.blocks[b][i - |init|] && ks[j] == f.blocks[b][j - |init|];
      }
    }
  }

  lemma SplicedShape(f: Func, p: BlockId, b: BlockId)
    requires p in f.blocks && b in f.blocks && p != b && |f.blocks[p]| > 0
    ensures var g, t := Spliced(f, p, b), TermId(f, p);
            && p in g.blocks && g.blocks == (f.blocks - {b})[p := g.blocks[p]]
            && g.insts.Keys == f.insts.Keys - {t} && g.parent.Keys == f.parent.Keys - {t}
            && forall i :: i in g.parent ==> g.parent[i] == if f.parent[i] == b then p else f.parent[i]
  {
  }

  lemma SplicedUp(f: Func, p: BlockId, b: BlockId, i: InstId)
    requires Placed(f) && p in f.blocks && b in f.blocks && p != b && |f.blocks[p]| > 0 && i in Spliced(f, p, b).parent
    ensures var g := Spliced(f, p, b); g.parent[i] in g.blocks && i in g.blocks[g.parent[i]]
  {
    Joined(f, p, b);
    SplicedShape(f, p, b);
    hide Spliced, NoDup, TermId;
    assert f.parent[i] in f.blocks && i in f.blocks[f.parent[i]];
  }

  lemma SplicedDown(f: Func, p: BlockId, b: BlockId, c: BlockId, i: InstId)
    requires Placed(f) && p in f.blocks && b in f.blocks && p != b && |f.blocks[p]| > 0
    requires c in Spliced(f, p, b).blocks && i in Spliced(f, p, b).blocks[c]
    ensures i in Spliced(f, p, b).parent && Spliced(f, p, b).parent[i] == c
  {
    var t := TermId(f, p);
    assert t in f.blocks[p] && f.parent[t] == p;
    Joined(f, p, b);
    SplicedShape(f, p, b);
    hide Spliced, NoDup, TermId;
    var d := if c != p then c else if i in f.blocks[b] then b else p;
    assert d in f.blocks && i in f.blocks[d] && i != t;
  }

  lemma SplicedNoDup(f: Func, p: BlockId, b: BlockId, c: BlockId)
    requires Placed(f) && p in f.blocks && b in f.blocks && p != b && |f.blocks[p]| > 0 && c in Spliced(f, p, b).blocks
    ensures NoDup(Spliced(f, p, b).blocks[c])
  {
    Joined(f, p, b);
    SplicedShape(f, p, b);
    assert c != p ==> NoDup(f.blocks[c]);
    hide Spliced, Placed, NoDup;
  }

  lemma PlacedFrom(g: Func)
    requires g.parent.Keys == g.insts.Keys
    requires forall i {:trigger g.parent[i]} :: i in g.parent ==> g.parent[i] in g.blocks && i in g.blocks[g.parent[i]]
    requires forall b, i :: b in g.blocks && i in g.blocks[b] ==> i in g.parent && g.parent[i] == b
    requires forall b :: b in g.blocks ==> NoDup(g.blocks[b])
    ensures Placed(g)
  {
  }

  lemma SplicedPlaced(f: Func, p: BlockId, b: BlockId)
    requires Placed(f) && p in f.blocks && b in f.blocks && p != b && |f.blocks[p]| > 0
    ensures Placed(Spliced(f, p, b))
  {
    var g := Spliced(f, p, b);
    SplicedShape(f, p, b);
    assert f.parent.Keys == f.insts.Keys;
    hide Spliced, NoDup, TermId, Placed;
    forall i | i in g.parent ensures g.parent[i] in g.blocks && i in g.blocks[g.parent[i]] {
      SplicedUp(f, p, b, i);
    }
    forall c, i | c in g.blocks && i in g.blocks[c] ensures i in g.parent && g.parent[i] == c {
      SplicedDown(f, p, b, c, i);
    }
    forall c | c in g.blocks ensures NoDup(g.blocks[c]) {
      SplicedNoDup(f, p, b, c);
    }
    PlacedFrom(g);
  }

  lemma SplicedInst(f: Func, p: BlockId, b: BlockId, i: InstId)
    requires p in f.blocks && b in f.blocks && |f.blocks[p]| > 0
    ensures i in Spliced(f, p, b).insts <==> i in f.insts && i != TermId(f, p)
    ensures i in Spliced(f, p, b).insts ==> Spliced(f, p, b).insts[i] == RenameIncoming(f.insts[i], b, p)
  {
  }

  lemma SplicedTermId(f: Func, p: BlockId, b: BlockId, c: BlockId)
    requires p in f.blocks && b in f.blocks && c in f.blocks && c != b && p != b && |f.blocks[p]| > 0
    requires |f.blocks[b]| > 0 && |f.blocks[c]| > 0
    ensures var g, d := Spliced(f, p, b), if c == p then b else c;
            c in g.blocks && |g.blocks[c]| > 0 && TermId(g, c) == TermId(f, d)
  {
  }

  /** The terminator of the merged block is that of b; the others keep theirs. */
  lemma SplicedTerm(f: Func, p: BlockId, b: BlockId, c: BlockId)
    requires Valid(f) && p in f.blocks && b in f.blocks && c in f.blocks && c != b && p != b
    ensures |f.blocks[p]| > 0 && Term(Spliced(f, p, b), c) == Term(f, if c == p then b else c)
  {
    var d := if c == p then b else c;
    TermOf(f, d);
    TermOf(f, c);
    TermOf(f, b);
    TermOf(f, p);
    hide Valid;
    SplicedTermId(f, p, b, c);
    SplicedInst(f, p, b, TermId(f, d));
    RenameFacts(f.insts[TermId(f, d)], b, p);
  }

  lemma SplicedEdge(f: Func, p: BlockId, b: BlockId, x: BlockId, y: BlockId)
    requires Valid(f) && Spliceable(f, p, b)
    ensures |f.blocks[p]| > 0
    ensures Edge(Spliced(f, p, b), x, y) <==> x != b && Edge(f, if x == p then b else x, y)
    ensures Edge(Spliced(f, p, b), x, y) ==> y != b && y in f.blocks
  {
    TermOf(f, p);
    hide Valid, Term;
    var g := Spliced(f, p, b);
    assert g.blocks.Keys == f.blocks.Keys - {b};
    if x in f.blocks && x != b {
      SplicedTerm(f, p, b, x);
      TermOf(f, if x == p then b else x);
    }
  }

  lemma {:induction false} SplicedReach(f: Func, p: BlockId, b: BlockId, y: BlockId, n: nat)
    requires Valid(f) && Spliceable(f, p, b) && |f.blocks[p]| > 0 && ReachIn(f, f.entry, y, n) && y != b
    ensures Reaches(Spliced(f, p, b), f.entry, y)
    decreases n
  {
    hide Valid, Edge, Spliced;
    var g := Spliced(f, p, b);
    if y == f.entry {
      ReachRefl(g, y);
    } else {
      var x :| Edge(f, x, y) && ReachIn(f, f.entry, x, n - 1);
      if x == b {
        var a :| Edge(f, a, b) && ReachIn(f, f.entry, a, n - 2);
        SplicedReach(f, p, b, p, n - 2);
        SplicedEdge(f, p, b, p, y);
        ReachStep(g, f.entry, p, y);
      } else {
        SplicedReach(f, p, b, x, n - 1);
        SplicedEdge(f, p, b, x, y);
        assert x != p by { OnlySuccessor(f, p, b, y); }
        ReachStep(g, f.entry, x, y);
      }
    }
  }

  lemma OnlySuccessor(f: Func, p: BlockId, b: BlockId, y: BlockId)
    requires Spliceable(f, p, b)
    ensures Edge(f, p, y) ==> y == b
  {
  }

  lemma SplicedReachable(f: Func, p: BlockId, b: BlockId)
    requires Valid(f) && Spliceable(f, p, b) && |f.blocks[p]| > 0 && AllReachable(f)
    ensures AllReachable(Spliced(f, p, b))
  {
    hide Valid, Spliceable, ReachIn;
    forall y | y in Spliced(f, p, b).blocks ensures Reaches(Spliced(f, p, b), f.entry, y) {
      assert y in f.blocks && y != b by { SpliceableBlocks(f, p, b); }
      assert Reaches(f, f.entry, y);
      var n: nat :| ReachIn(f, f.entry, y, n);
      SplicedReach(f, p, b, y, n);
    }
  }

  lemma SpliceableBlocks(f: Func, p: BlockId, b: BlockId)
    requires Spliceable(f, p, b) && |f.blocks[p]| > 0
    ensures Spliced(f, p, b).blocks.Keys == f.blocks.Keys - {b} && Spliced(f, p, b).entry == f.entry != b
  {
  }

  lemma SuccessorsKept(f: Func, p: BlockId, b: BlockId, c: BlockId)
    requires Valid(f) && Spliceable(f, p, b) && |f.blocks[p]| > 0 && c in f.blocks && c != b
    ensures forall d :: d in Successors(Term(Spliced(f, p, b), c)) ==> d in Spliced(f, p, b).blocks
  {
    hide Valid, Spliceable, Spliced, Term;
    SpliceableBlocks(f, p, b);
    forall d | d in Successors(Term(Spliced(f, p, b), c)) ensures d in Spliced(f, p, b).blocks {
      assert Edge(Spliced(f, p, b), c, d);
      SplicedEdge(f, p, b, c, d);
    }
  }

  /** The k-th instruction of the merged block. */
  lemma SplicedAt(f: Func, p: BlockId, b: BlockId, c: BlockId, k: nat)
    requires Valid(f) && Spliceable(f, p, b) && |f.blocks[p]| > 0 && c in f.blocks && c != b
    requires c in Spliced(f, p, b).blocks && k < |Spliced(f, p, b).blocks[c]|
    ensures var g, ks := Spliced(f, p, b), Spliced(f, p, b).blocks[c];
            ks[k] in g.insts && (IsTerminator(g.insts[ks[k]].op) <==> k == |ks| - 1)
  {
    hide IsTerminator, RenameIncoming;
    assert EndsWell(f, p) && EndsWell(f, b) && EndsWell(f, c);
    hide Valid;
    ListedElsewhere(f, p, b, c);
    var m := |f.blocks[p]| - 1;
    var d, j := if c != p then c else if k < m then p else b, if c == p && k >= m then k - m else k;
    assert d in f.blocks && j < |f.blocks[d]| && Spliced(f, p, b).blocks[c][k] == f.blocks[d][j];
    EndsAt(f, d, j);
    hide EndsWell, Spliceable;
    var i := f.blocks[d][j];
    assert i in f.blocks[d] && i != TermId(f, p);
    SplicedInst(f, p, b, i);
    RenameFacts(f.insts[i], b, p);
  }

  lemma EndsAt(f: Func, b: BlockId, j: nat)
    requires b in f.blocks && EndsWell(f, b) && j < |f.blocks[b]|
    ensures f.blocks[b][j] in f.insts && (IsTerminator(f.insts[f.blocks[b][j]].op) <==> j == |f.blocks[b]| - 1)
  {
    assert f.blocks[b][j] in f.blocks[b];
  }

  lemma SplicedEndsWell(f: Func, p: BlockId, b: BlockId, c: BlockId)
    requires Valid(f) && Spliceable(f, p, b) && |f.blocks[p]| > 0 && c in f.blocks && c != b
    ensures c in Spliced(f, p, b).blocks && EndsWell(Spliced(f, p, b), c)
  {
    TermOf(f, p);
    TermOf(f, b);
    TermOf(f, c);
    SpliceableBlocks(f, p, b);
    SuccessorsKept(f, p, b, c);
    SplicedSize(f, p, b, c);
    hide Valid, Spliceable, Spliced;
    var g := Spliced(f, p, b);
    var ks := g.blocks[c];
    forall k | 0 <= k < |ks| ensures ks[k] in g.insts && (IsTerminator(g.insts[ks[k]].op) <==> k == |ks| - 1) {
      SplicedAt(f, p, b, c, k);
    }
    assert Term(g, c) == g.insts[ks[|ks| - 1]].op;
  }

  lemma SplicedSize(f: Func, p: BlockId, b: BlockId, c: BlockId)
    requires Spliceable(f, p, b) && |f.blocks[p]| > 0 && |f.blocks[b]| > 0 && c in f.blocks && c != b && |f.blocks[c]| > 0
    ensures c in Spliced(f, p, b).blocks && |Spliced(f, p, b).blocks[c]| > 0
  {
  }

  /** The terminator of p occurs nowhere but at the end of p. */
  lemma ListedElsewhere(f: Func, p: BlockId, b: BlockId, c: BlockId)
    requires Valid(f) && p in f.blocks && b in f.blocks && c in f.blocks && p != b && |f.blocks[p]| > 0
    ensures TermId(f, p) !in f.blocks[b] && (c != p ==> TermId(f, p) !in f.blocks[c])
    ensures forall k :: 0 <= k < |f.blocks[p]| - 1 ==> f.blocks[p][k] != TermId(f, p)
  {
    var t := TermId(f, p);
    assert t in f.blocks[p] && NoDup(f.blocks[p]);
    hide EndsWell, PhisBalanced, NoDup, TermId;
    forall d | d in f.blocks && t in f.blocks[d] ensures d == p {
      ListedIsPlaced(f, d, t);
      ListedIsPlaced(f, p, t);
    }
    assert forall k :: 0 <= k < |f.blocks[p]| - 1 ==> f.blocks[p][k] != t by {
      LastIsAlone(f.blocks[p]);
      assert t == f.blocks[p][|f.blocks[p]| - 1] by { TermIsLast(f, p); }
    }
  }

  lemma TermIsLast(f: Func, p: BlockId)
    requires p in f.blocks && |f.blocks[p]| > 0
    ensures TermId(f, p) == f.blocks[p][|f.blocks[p]| - 1]
  {
  }

  lemma LastIsAlone(s: seq<InstId>)
    requires NoDup(s) && |s| > 0
    ensures forall k :: 0 <= k < |s| - 1 ==> s[k] != s[|s| - 1]
  {
  }

  lemma SplicedRenames(f: Func, p: BlockId, b: BlockId, i: InstId)
    requires p in f.blocks && b in f.blocks && |f.blocks[p]| > 0
    ensures i in Spliced(f, p, b).insts <==> i in f.insts && i != TermId(f, p)
    ensures i in Spliced(f, p, b).insts ==> RenamedAs(f.insts[i], Spliced(f, p, b).insts[i])
  {
    hide Spliced, RenameIncoming;
    SplicedInst(f, p, b, i);
    if i in Spliced(f, p, b).insts {
      RenameFacts(f.insts[i], b, p);
    }
  }

  lemma SplicedBalanced(f: Func, p: BlockId, b: BlockId)
    requires PhisBalanced(f) && Spliceable(f, p, b) && |f.blocks[p]| > 0
    ensures PhisBalanced(Spliced(f, p, b))
  {
    hide Spliced;
    forall i | i in Spliced(f, p, b).insts ensures i in f.insts && RenamedAs(f.insts[i], Spliced(f, p, b).insts[i]) {
      SplicedRenames(f, p, b, i);
    }
  }

  lemma SplicedChecks(f: Func, p: BlockId, b: BlockId)
    requires p in f.blocks && b in f.blocks && |f.blocks[p]| > 0
    requires TermId(f, p) in f.insts && !IsCheck(f.insts[TermId(f, p)].op)
    ensures Checks(Spliced(f, p, b)) == Checks(f)
    ensures forall i :: i in Checks(f) ==> i in Spliced(f, p, b).insts && Spliced(f, p, b).insts[i].op == f.insts[i].op
    ensures ChecksUnused(f) ==> ChecksUnused(Spliced(f, p, b))
  {
    hide Spliced, TermId;
    forall i
      ensures i in Spliced(f, p, b).insts <==> i in f.insts && i != TermId(f, p)
      ensures i in Spliced(f, p, b).insts ==> RenamedAs(f.insts[i], Spliced(f, p, b).insts[i])
    {
      SplicedRenames(f, p, b, i);
    }
  }

  ghost predicate RenamedAs(i: Inst, d: Inst)
  {
    && d.operands == i.operands && (d.op.Phi? <==> i.op.Phi?) && (!i.op.Phi? ==> d == i)
    && (i.op.Phi? ==> |d.op.incoming| == |i.op.incoming|)
  }

  /** The terminator of a block that can be merged into is a branch. */
  lemma SpliceTerm(f: Func, p: BlockId, b: BlockId)
    requires Valid(f) && Spliceable(f, p, b)
    ensures |f.blocks[p]| > 0 && TermId(f, p) in f.insts && !IsCheck(f.insts[TermId(f, p)].op)
    ensures SanitizerOnly(f.insts[TermId(f, p)].op)
    ensures Placed(f) && f.entry in f.blocks && p in f.blocks && b in f.blocks && p != b && b != f.entry
  {
    TermOf(f, p);
  }

  /** What holds a block fast does so after the merge, in the block that it then belongs to. */
  lemma SplicedHolds(f: Func, p: BlockId, b: BlockId, marks: set<InstId>, c: BlockId)
    requires Valid(f) && Spliceable(f, p, b) && |f.blocks[p]| > 0 && HeldFast(f, marks, c)
    ensures HeldFast(Spliced(f, p, b), marks, if c == b then p else c)
  {
    SpliceTerm(f, p, b);
    SplicedShape(f, p, b);
    Joined(f, p, b);
    hide Valid, Placed, Spliced, TermId, SanitizerOnly, DeadKind, IsCheck, NoDup;
    var i :| i in f.blocks[c] && i in f.insts && Fast(f.insts[i].op, i in marks);
    SplicedRenames(f, p, b, i);
    PhiIsLoose(f.insts[i].op, i in marks);
    SplicedListed(f, p, b, c, i);
  }

  lemma PhiIsLoose(op: Op, marked: bool)
    ensures Fast(op, marked) ==> !op.Phi?
  {
  }

  lemma SplicedListed(f: Func, p: BlockId, b: BlockId, c: BlockId, i: InstId)
    requires Placed(f) && p in f.blocks && b in f.blocks && p != b && |f.blocks[p]| > 0 && c in f.blocks
    requires i in f.blocks[c] && i != TermId(f, p)
    ensures var d := if c == b then p else c; d in Spliced(f, p, b).blocks && i in Spliced(f, p, b).blocks[d]
  {
    Joined(f, p, b);
    SplicedShape(f, p, b);
    hide Spliced, Placed, TermId, NoDup;
  }

  lemma SplicedLoose(f: Func, p: BlockId, b: BlockId, marks: set<InstId>, c: BlockId)
    requires Valid(f) && Spliceable(f, p, b) && |f.blocks[p]| > 0 && Loose(Spliced(f, p, b), marks, c) && !Loose(f, marks, b)
    ensures Loose(f, marks, c)
  {
    var g := Spliced(f, p, b);
    var i :| i in marks && i in g.insts && i in g.parent && PlainCheck(g.insts[i].op) && g.parent[i] == c;
    SplicedShape(f, p, b);
    SplicedRenames(f, p, b, i);
    hide Valid, Spliced, Spliceable, HeldFast, TermId;
    if HeldFast(f, marks, c) {
      SplicedHolds(f, p, b, marks, c);
    }
    if HeldFast(f, marks, b) {
      SplicedHolds(f, p, b, marks, b);
    }
  }

  /** A block that can be merged is not entered by a parting branch. */
  lemma MergedIsNotLoose(f: Func, p: BlockId, b: BlockId, marks: set<InstId>)
    requires Valid(f) && Spliceable(f, p, b) && Shielded(f, marks)
    ensures !Loose(f, marks, b)
  {
    hide Loose;
    var d := Term(f, p);
    assert d.Br? ==> d.dest in Successors(d);
    assert d.CondBr? ==> d.ifTrue in Successors(d) && d.ifFalse in Successors(d);
    assert Edge(f, p, b);
  }

  lemma SplicedShields(f: Func, p: BlockId, b: BlockId, marks: set<InstId>)
    requires Valid(f) && Spliceable(f, p, b) && |f.blocks[p]| > 0 && Shielded(f, marks)
    ensures Shielded(Spliced(f, p, b), marks)
  {
    var g := Spliced(f, p, b);
    SpliceableBlocks(f, p, b);
    MergedIsNotLoose(f, p, b, marks);
    SpliceTerm(f, p, b);
    forall y | Loose(g, marks, y) ensures Loose(f, marks, y) {
      SplicedLoose(f, p, b, marks, y);
    }
    hide Valid, Placed, Spliced, Spliceable, Loose, Term, Edge, Parted;
    forall x, y | Loose(g, marks, y) && Edge(g, x, y) ensures Parted(g, marks, x) {
      SplicedParted(f, p, b, marks, x, y);
    }
  }

  lemma SplicedParted(f: Func, p: BlockId, b: BlockId, marks: set<InstId>, x: BlockId, y: BlockId)
    requires Valid(f) && Spliceable(f, p, b) && |f.blocks[p]| > 0 && Shielded(f, marks)
    requires forall z :: Loose(Spliced(f, p, b), marks, z) ==> Loose(f, marks, z)
    requires Loose(f, marks, y) && Edge(Spliced(f, p, b), x, y)
    ensures Parted(Spliced(f, p, b), marks, x)
  {
    var g := Spliced(f, p, b);
    SpliceTerm(f, p, b);
    SpliceableBlocks(f, p, b);
    hide Valid, Placed, Spliced, Spliceable, Loose, Term, Edge;
    SplicedEdge(f, p, b, x, y);
    var q := if x == p then b else x;
    EdgeFrom(f, q, y);
    assert Edge(f, q, y) && Parted(f, marks, q);
    EdgeFrom(g, x, y);
    SplicedTerm(f, p, b, x);
  }

  lemma SplicedGuards(f: Func, p: BlockId, b: BlockId)
    requires Valid(f) && Spliceable(f, p, b) && |f.blocks[p]| > 0
    ensures Guards(f, Spliced(f, p, b), {})
  {
    var g := Spliced(f, p, b);
    SpliceableBlocks(f, p, b);
    hide Valid, Spliced, Spliceable, HeldFast, Shielded;
    forall m: set<InstId> | Guarded(f, m) ensures Guarded(g, m) {
      if HeldFast(f, m, f.entry) {
        SplicedHolds(f, p, b, m, f.entry);
      } else {
        SplicedShields(f, p, b, m);
      }
    }
  }

  lemma SplicedValid(f: Func, p: BlockId, b: BlockId)
    requires Valid(f) && Spliceable(f, p, b) && |f.blocks[p]| > 0
    ensures Valid(Spliced(f, p, b))
  {
    var g := Spliced(f, p, b);
    SplicedPlaced(f, p, b);
    SplicedBalanced(f, p, b);
    SpliceableBlocks(f, p, b);
    hide Spliced, Spliceable, Placed, EndsWell, PhisBalanced;
    forall c | c in g.blocks ensures EndsWell(g, c) {
      SplicedEndsWell(f, p, b, c);
    }
  }

  /** Merging a block into its predecessor keeps every check. */
  lemma SpliceKeeps(f: Func, p: BlockId, b: BlockId)
    requires Healthy(f) && Spliceable(f, p, b) && |f.blocks[p]| > 0
    ensures Keeps(f, Spliced(f, p, b), {})
  {
    hide *;
    HealthyParts(f);
    SpliceTerm(f, p, b);
    SplicedValid(f, p, b);
    SplicedGuards(f, p, b);
    SplicedChecks(f, p, b);
    SplicedReachable(f, p, b);
    HealthyWhole(Spliced(f, p, b));
    KeepsBy(f, Spliced(f, p, b), {});
  }

  lemma FoldHarmless(f: Func, i: InstId, v: Operand)
    requires i in f.insts && f.insts[i].op.Phi?
    ensures Harmless(ReplaceUses(f, i, v), {i}) && ReplaceUses(f, i, v).blocks == f.blocks && ReplaceUses(f, i, v).entry == f.entry
  {
    assert ReplaceUses(f, i, v).insts[i].op == f.insts[i].op;
  }

  lemma MinusBlocks(f: Func, gone: set<InstId>)
    ensures Minus(f, gone).blocks.Keys == f.blocks.Keys && Minus(f, gone).entry == f.entry
  {
  }

  lemma FoldTerms(f: Func, i: InstId)
    requires Valid(f) && i in f.insts && f.insts[i].op.Phi?
    ensures var h := FoldPhi(f, i);
            && h.blocks.Keys == f.blocks.Keys && h.entry == f.entry
            && forall b :: b in f.blocks ==> Term(h, b) == Term(f, b)
  {
    hide Valid, Term, ReplaceUses, Minus, Harmless, FoldValue;
    var v := FoldValue(f, i);
    ReplaceValid(f, i, v);
    FoldHarmless(f, i, v);
    MinusValid(ReplaceUses(f, i, v), {i});
    MinusBlocks(ReplaceUses(f, i, v), {i});
  }

  /** Folding a PHI changes neither blocks nor edges, so what could be merged still can. */
  lemma FoldSpliceable(f: Func, p: BlockId, b: BlockId, i: InstId)
    requires Valid(f) && Spliceable(f, p, b) && i in f.insts && f.insts[i].op.Phi?
    ensures Spliceable(FoldPhi(f, i), p, b) && FoldPhi(f, i).blocks.Keys == f.blocks.Keys
  {
    hide Valid, Term, FoldPhi;
    FoldTerms(f, i);
    forall a ensures Edge(FoldPhi(f, i), a, b) <==> Edge(f, a, b) {
    }
  }

  lemma FoldShrinks(f: Func, i: InstId)
    requires i in f.insts
    ensures |FoldPhi(f, i).insts| < |f.insts|
  {
    var v := FoldValue(f, i);
    MinusOne(ReplaceUses(f, i, v), i);
    assert ReplaceUses(f, i, v).insts.Keys == f.insts.Keys;
    SameSize(ReplaceUses(f, i, v), f);
  }

  lemma SameSize(f: Func, g: Func)
    requires f.insts.Keys == g.insts.Keys
    ensures |f.insts| == |g.insts|
  {
    assert |f.insts| == |f.insts.Keys| && |g.insts| == |g.insts.Keys|;
  }

  lemma SpliceShrinks(f: Func, p: BlockId, b: BlockId)
    requires Spliceable(f, p, b) && |f.blocks[p]| > 0
    ensures |Spliced(f, p, b).blocks| < |f.blocks|
  {
    SpliceableBlocks(f, p, b);
    assert |f.blocks.Keys - {b}| == |f.blocks.Keys| - 1;
    assert |Spliced(f, p, b).blocks| == |Spliced(f, p, b).blocks.Keys|;
  }

  lemma SpliceableLength(f: Func, p: BlockId, b: BlockId)
    requires Valid(f) && Spliceable(f, p, b)
    ensures |f.blocks[p]| > 0
  {
    TermOf(f, p);
  }

  lemma KeepsAlso(f: Func, g: Func, h: Func)
    requires Keeps(f, g, {}) && Keeps(g, h, {})
    ensures Keeps(f, h, {})
  {
    KeepsTrans(f, g, h, {}, {});
  }

  // ----- one merge, and a sequence of merges -----

  /** The PHIs are folded one after the other. */
  ghost function FoldSeq(f: Func, phis: seq<InstId>): Func
  {
    if phis == [] then f else FoldPhi(FoldSeq(f, phis[..|phis| - 1]), phis[|phis| - 1])
  }

  ghost predicate PhiIn(f: Func, b: BlockId, i: InstId)
  {
    b in f.blocks && i in f.blocks[b] && i in f.insts && f.insts[i].op.Phi?
  }

  /** Each of phis, when its turn comes, is a PHI of b. */
  ghost predicate FoldsIn(f: Func, b: BlockId, phis: seq<InstId>)
  {
    phis != [] ==> FoldsIn(f, b, phis[..|phis| - 1]) && PhiIn(FoldSeq(f, phis[..|phis| - 1]), b, phis[|phis| - 1])
  }

  lemma FoldNext(f: Func, b: BlockId, phis: seq<InstId>, i: InstId)
    requires FoldsIn(f, b, phis) && PhiIn(FoldSeq(f, phis), b, i)
    ensures FoldsIn(f, b, phis + [i]) && FoldSeq(f, phis + [i]) == FoldPhi(FoldSeq(f, phis), i)
  {
    assert (phis + [i])[..|phis|] == phis;
  }

  /** b has been merged into p: all PHIs of b folded, in some order, and the rest appended. */
  ghost predicate MergedBy(f: Func, p: BlockId, b: BlockId, phis: seq<InstId>, g: Func)
  {
    && Spliceable(f, p, b) && FoldsIn(f, b, phis)
    && (forall i :: !PhiIn(FoldSeq(f, phis), b, i))
    && g == Spliced(FoldSeq(f, phis), p, b)
  }

  ghost predicate OneMerge(f: Func, g: Func)
  {
    exists p, b, phis :: MergedBy(f, p, b, phis, g)
  }

  /** g is f after n merges. */
  ghost predicate MergedIn(f: Func, g: Func, n: nat)
    decreases n
  {
    if n == 0 then f == g else exists h :: MergedIn(f, h, n - 1) && OneMerge(h, g)
  }

  lemma MergedNext(f: Func, h: Func, g: Func, n: nat)
    requires MergedIn(f, h, n) && OneMerge(h, g)
    ensures MergedIn(f, g, n + 1)
  {
    hide OneMerge;
  }

  // ----- unreachable blocks -----

  ghost function UnreachableBlocks(f: Func): set<BlockId>
  {
    set b | b in f.blocks && !Reaches(f, f.entry, b)
  }

  lemma NothingUnreachable(f: Func)
    requires Valid(f)
    ensures WithoutBlocks(f, {}) == f
  {
    forall i | i in f.insts ensures DropIncoming(f.insts[i], {}) == f.insts[i] {
      if f.insts[i].op.Phi? {
        DropNothing(f.insts[i].op.incoming, f.insts[i].operands);
      }
    }
    var g := WithoutBlocks(f, {});
    assert g.blocks == f.blocks;
    assert g.insts == f.insts;
    assert g.parent == f.parent;
  }
}
