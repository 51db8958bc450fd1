/**
 The invariant that lets `eraseMarkedChecks` keep raw pointers to calls across
 edits: every rewriting step leaves a well-formed, fully reachable function and
 deletes no check but the one it is asked to delete.
 */
module Health {
  import opened IR
  import opened Bypass
  import opened SliceSpec
  import opened Guard

  /** Well formed, fully reachable, and no instruction uses the result of a check call. */
  ghost predicate Healthy(f: Func)
  {
    Valid(f) && AllReachable(f) && ChecksUnused(f)
  }

  ghost function Checks(f: Func): set<InstId>
  {
    set i | i in f.insts && IsCheck(f.insts[i].op)
  }

  /** g is guarded for all marks for which f is and that include the checks in gone. */
  ghost predicate Guards(f: Func, g: Func, gone: set<InstId>)
  {
    forall m: set<InstId> :: gone * Checks(f) <= m && Guarded(f, m) ==> Guarded(g, m)
  }

  /** g is healthy, has the checks of f except those in gone, and its entry block is as safe as that of f. */
  ghost predicate Keeps(f: Func, g: Func, gone: set<InstId>)
  {
    && Healthy(g) && Checks(g) == Checks(f) - gone
    && (forall i :: i in Checks(g) ==> i in f.insts && g.insts[i].op == f.insts[i].op)
    && Guards(f, g, gone)
  }

  lemma HealthyParts(f: Func)
    requires Healthy(f)
    ensures Valid(f) && AllReachable(f) && ChecksUnused(f)
  {
  }

  lemma HealthyWhole(f: Func)
    requires Valid(f) && AllReachable(f) && ChecksUnused(f)
    ensures Healthy(f)
  {
  }

  lemma KeepsRefl(f: Func)
    requires Healthy(f)
    ensures Keeps(f, f, {})
  {
    hide Healthy, Guarded;
  }

  lemma KeepsHealthy(f: Func, g: Func, gone: set<InstId>)
    requires Keeps(f, g, gone)
    ensures Healthy(g)
  {
  }

  lemma KeepsTrans(f: Func, g: Func, h: Func, a: set<InstId>, b: set<InstId>)
    requires Keeps(f, g, a) && Keeps(g, h, b)
    ensures Keeps(f, h, a + b)
  {
    hide Healthy, Guards, Guarded;
    GuardsTrans(f, g, h, a, b);
  }

  lemma GuardsTrans(f: Func, g: Func, h: Func, a: set<InstId>, b: set<InstId>)
    requires Guards(f, g, a) && Guards(g, h, b) && Checks(g) <= Checks(f)
    ensures Guards(f, h, a + b)
  {
    hide Guarded, Checks;
  }

  lemma GuardsLess(f: Func, g: Func, gone: set<InstId>)
    requires Guards(f, g, gone) && gone !! Checks(f)
    ensures Guards(f, g, {})
  {
    hide Guarded, Checks;
    assert gone * Checks(f) == {} == {} * Checks(f);
  }

  // ----- reachability depends on the edges only -----

  lemma {:induction false} SameEdgesReach(f: Func, g: Func, a: BlockId, b: BlockId, n: nat)
    requires forall x, y :: Edge(f, x, y) ==> Edge(g, x, y)
    requires ReachIn(f, a, b, n)
    ensures Reaches(g, a, b)
    decreases n
  {
    if a == b {
      ReachRefl(g, a);
    } else {
      var c :| Edge(f, c, b) && ReachIn(f, a, c, n - 1);
      SameEdgesReach(f, g, a, c, n - 1);
      ReachStep(g, a, c, b);
    }
  }

  lemma SameEdges(f: Func, g: Func)
    requires AllReachable(f) && f.entry == g.entry && f.blocks.Keys == g.blocks.Keys
    requires forall x, y :: Edge(f, x, y) ==> Edge(g, x, y)
    ensures AllReachable(g)
  {
    forall b | b in g.blocks ensures Reaches(g, g.entry, b) {
      assert Reaches(f, f.entry, b);
      var n: nat :| ReachIn(f, f.entry, b, n);
      SameEdgesReach(f, g, f.entry, b, n);
    }
  }

  // ----- erasing instructions -----

  lemma {:induction false} RemovedConcat(s: seq<InstId>, t: seq<InstId>, gone: set<InstId>)
    ensures Removed(s + t, gone) == Removed(s, gone) + Removed(t, gone)
  {
    if s == [] {
      assert s + t == t;
    } else {
      assert (s + t)[1..] == s[1..] + t;
      RemovedConcat(s[1..], t, gone);
    }
  }

  lemma {:induction false} RemovedNoDup(s: seq<InstId>, gone: set<InstId>)
    requires NoDup(s)
    ensures NoDup(Removed(s, gone))
  {
    if s != [] {
      RemovedNoDup(s[1..], gone);
      RemovedMembers(s[1..], gone, s[0]);
    }
  }

  /** What may be erased: no terminator, and nothing that holds a block fast but checks. */
  ghost predicate Harmless(f: Func, gone: set<InstId>)
  {
    forall i :: i in gone ==> i in f.insts && !IsTerminator(f.insts[i].op) && (SanitizerOnly(f.insts[i].op) || DeadKind(f.insts[i].op))
  }

  lemma MinusEndsWell(f: Func, gone: set<InstId>, b: BlockId)
    requires b in f.blocks && EndsWell(f, b) && Harmless(f, gone)
    ensures EndsWell(Minus(f, gone), b) && Term(Minus(f, gone), b) == Term(f, b)
  {
    var g, ks := Minus(f, gone), f.blocks[b];
    var n := |ks| - 1;
    assert ks == ks[..n] + [ks[n]];
    RemovedConcat(ks[..n], [ks[n]], gone);
    var init := Removed(ks[..n], gone);
    assert IsTerminator(f.insts[ks[n]].op) && ks[n] !in gone;
    assert Removed([ks[n]], gone) == [ks[n]];
    assert g.blocks[b] == init + [ks[n]];
    assert ks[n] in ks;
    forall k | 0 <= k < |init| ensures init[k] in g.insts && !IsTerminator(g.insts[init[k]].op) {
      RemovedMembers(ks[..n], gone, init[k]);
      var j :| 0 <= j < n && ks[..n][j] == init[k];
      assert ks[j] in ks;
    }
  }

  lemma MinusListed(f: Func, gone: set<InstId>, b: BlockId, i: InstId)
    requires Placed(f) && b in f.blocks
    ensures i in Minus(f, gone).blocks[b] <==> i in Minus(f, gone).parent && f.parent[i] == b
  {
    hide NoDup, Removed;
    RemovedMembers(f.blocks[b], gone, i);
  }

  lemma MinusPlaced(f: Func, gone: set<InstId>)
    requires Placed(f)
    ensures Placed(Minus(f, gone))
  {
    hide NoDup, Removed;
    var g := Minus(f, gone);
    forall b, i | b in g.blocks ensures i in g.blocks[b] <==> i in g.parent && f.parent[i] == b {
      MinusListed(f, gone, b, i);
    }
    forall b | b in g.blocks ensures NoDup(g.blocks[b]) {
      RemovedNoDup(f.blocks[b], gone);
    }
  }

  lemma MinusValid(f: Func, gone: set<InstId>)
    requires Valid(f) && Harmless(f, gone)
    ensures Valid(Minus(f, gone))
    ensures forall b :: b in f.blocks ==> Term(Minus(f, gone), b) == Term(f, b)
  {
    hide EndsWell, Harmless;
    MinusPlaced(f, gone);
    forall b | b in f.blocks ensures EndsWell(Minus(f, gone), b) && Term(Minus(f, gone), b) == Term(f, b) {
      assert EndsWell(f, b);
      MinusEndsWell(f, gone, b);
    }
  }

  lemma MinusHolds(f: Func, gone: set<InstId>, marks: set<InstId>, b: BlockId)
    requires Harmless(f, gone) && gone * Checks(f) <= marks && HeldFast(f, marks, b)
    ensures HeldFast(Minus(f, gone), marks, b)
  {
    hide Removed, SanitizerOnly, DeadKind, IsTerminator;
    var i :| i in f.blocks[b] && i in f.insts && Fast(f.insts[i].op, i in marks);
    RemovedMembers(f.blocks[b], gone, i);
    CheckKinds(f.insts[i].op);
  }

  lemma CheckKinds(op: Op)
    ensures IsCheck(op) ==> op.Call? || (op.Invoke? && IsTerminator(op))
  {
  }

  lemma MinusGuards(f: Func, gone: set<InstId>)
    requires Valid(f) && Harmless(f, gone)
    ensures Guards(f, Minus(f, gone), gone)
  {
    MinusValid(f, gone);
    var g := Minus(f, gone);
    hide Valid, Term, HeldFast, Harmless, Guarded, Removed, Checks;
    forall m: set<InstId> | gone * Checks(f) <= m && Guarded(f, m) ensures Guarded(g, m) {
      forall b | HeldFast(f, m, b) ensures HeldFast(g, m, b) {
        MinusHolds(f, gone, m, b);
      }
      GuardedSameEdges(f, g, m);
    }
  }

  lemma MinusChecks(f: Func, gone: set<InstId>)
    ensures Checks(Minus(f, gone)) == Checks(f) - gone
    ensures forall i :: i in Checks(f) && i !in gone ==> i in Minus(f, gone).insts && Minus(f, gone).insts[i].op == f.insts[i].op
    ensures ChecksUnused(f) ==> ChecksUnused(Minus(f, gone))
  {
    hide Removed, IsCheck;
  }

  lemma MinusReachable(f: Func, gone: set<InstId>)
    requires AllReachable(f) && forall b :: b in f.blocks ==> Term(Minus(f, gone), b) == Term(f, b)
    ensures AllReachable(Minus(f, gone))
  {
    hide AllReachable, Removed, Term;
    assert Minus(f, gone).blocks.Keys == f.blocks.Keys;
    SameEdges(f, Minus(f, gone));
  }

  /** A healthy function with the checks of f outside gone keeps them. */
  lemma KeepsBy(f: Func, g: Func, gone: set<InstId>)
    requires Healthy(g) && Checks(g) == Checks(f) - gone
    requires forall i :: i in Checks(f) && i !in gone ==> i in g.insts && g.insts[i].op == f.insts[i].op
    requires Guards(f, g, gone)
    ensures Keeps(f, g, gone)
  {
    hide Healthy, Guards;
  }

  /** Erasing harmless instructions keeps the function healthy. */
  lemma MinusKeeps(f: Func, gone: set<InstId>)
    requires Healthy(f) && Harmless(f, gone)
    ensures Keeps(f, Minus(f, gone), gone)
  {
    hide *;
    HealthyParts(f);
    MinusValid(f, gone);
    MinusGuards(f, gone);
    MinusChecks(f, gone);
    MinusReachable(f, gone);
    HealthyWhole(Minus(f, gone));
    KeepsBy(f, Minus(f, gone), gone);
  }

  lemma KeepsNone(f: Func, g: Func, gone: set<InstId>)
    requires Keeps(f, g, gone) && gone !! Checks(f)
    ensures Keeps(f, g, {})
  {
    hide Healthy, Guards;
    GuardsLess(f, g, gone);
  }

  /** Trivially dead instructions are harmless, and none of them is a check. */
  lemma DeadKeeps(f: Func, gone: set<InstId>)
    requires Healthy(f) && forall i :: i in gone ==> i in f.insts && DeadKind(f.insts[i].op)
    ensures Keeps(f, Minus(f, gone), {})
  {
    hide Healthy, Keeps, Minus;
    MinusKeeps(f, gone);
    KeepsNone(f, Minus(f, gone), gone);
  }

  /** So are the erasable instructions of a slice from which its own check is already gone. */
  lemma SliceKeeps(f: Func, cb: InstId, slice: set<InstId>, g: Func, gone: set<InstId>)
    requires OnlyCheck(f, cb, slice) && Keeps(f, g, {cb})
    requires forall i :: i in gone ==> Candidate(g, slice, i)
    ensures Keeps(g, Minus(g, gone), {})
  {
    forall i | i in gone ensures i !in Checks(g) && i in g.insts && !IsTerminator(g.insts[i].op) && SanitizerOnly(g.insts[i].op) {
      assert i in Checks(g) ==> i in Checks(f) && i != cb;
    }
    hide Minus, SanitizerOnly, IsTerminator, Checks, Candidate, OnlyCheck;
    MinusKeeps(g, gone);
    hide Keeps;
    KeepsNone(g, Minus(g, gone), gone);
  }

  // ----- bypassing a report block -----

  lemma {:induction false} DropLengths(incoming: seq<BlockId>, operands: seq<Operand>, gone: set<BlockId>)
    ensures |incoming| == |operands| ==> |DropBlocks(incoming, gone)| == |DropOperands(incoming, operands, gone)|
    ensures forall o :: o in DropOperands(incoming, operands, gone) ==> o in operands
  {
    if incoming != [] && operands != [] {
      DropLengths(incoming[1..], operands[1..], gone);
    }
  }

  /** DropIncoming leaves the kind of an instruction alone and adds no operand. */
  lemma DropFacts(i: Inst, gone: set<BlockId>)
    ensures var d := DropIncoming(i, gone);
            && IsTerminator(d.op) == IsTerminator(i.op) && IsCheck(d.op) == IsCheck(i.op)
            && SanitizerOnly(d.op) == SanitizerOnly(i.op) && DeadKind(d.op) == DeadKind(i.op)
            && (!i.op.Phi? ==> d == i)
            && (d.op.Phi? ==> i.op.Phi? && (|i.op.incoming| == |i.operands| ==> |d.op.incoming| == |d.operands|))
            && forall o :: o in d.operands ==> o in i.operands
  {
    if i.op.Phi? {
      DropLengths(i.op.incoming, i.operands, gone);
    }
  }

  lemma BypassedSuccessors(f: Func, r: BlockId, cb: InstId, b: BlockId, d: BlockId)
    requires Valid(f) && CanBypass(f, r, cb) && b in f.blocks && b != r && d in Successors(Term(Bypassed(f, r), b))
    ensures d in f.blocks && d != r
  {
    hide Valid, CanBypass, Bypassed, SafeSucc;
    BypassedTerm(f, r, b);
    TermOf(f, b);
    if Edge(f, b, r) {
      SafeIsNear(f, r, cb, b);
      if !Edge(f, b, d) {
        EdgeFrom(f, r, d);
        TermOf(f, r);
      }
    }
  }

  lemma BypassedEndsWell(f: Func, r: BlockId, cb: InstId, b: BlockId)
    requires Valid(f) && CanBypass(f, r, cb) && b in f.blocks && b != r
    ensures b in Bypassed(f, r).blocks && EndsWell(Bypassed(f, r), b)
  {
    hide CanBypass, Bypassed, SafeSucc, Edge;
    var g := Bypassed(f, r);
    BypassedShape(f, r);
    assert EndsWell(f, b);
    hide Valid;
    var ks := g.blocks[b];
    forall i | i in ks ensures i in g.insts && i in f.insts && IsTerminator(g.insts[i].op) == IsTerminator(f.insts[i].op) {
      BypassedInst(f, r, b, i);
      DropFacts(f.insts[i], {r});
    }
    forall k | 0 <= k < |ks| ensures IsTerminator(g.insts[ks[k]].op) <==> k == |ks| - 1 {
      assert ks[k] in ks;
    }
    forall d | d in Successors(g.insts[ks[|ks| - 1]].op) ensures d in g.blocks {
      assert ks[|ks| - 1] in ks;
      BypassedSuccessors(f, r, cb, b, d);
    }
  }

  lemma BypassedPlaced(f: Func, r: BlockId)
    requires Placed(f)
    ensures Placed(Bypassed(f, r))
  {
    hide DropIncoming, SafeSucc, Edge, NoDup, Term, Fallthrough, Preds;
    var g := Bypassed(f, r);
    assert g.blocks == f.blocks - {r};
    forall i | i in g.parent ensures g.parent[i] in g.blocks && i in g.blocks[g.parent[i]] {
    }
  }

  lemma BypassedOps(f: Func, r: BlockId, cb: InstId, i: InstId)
    requires Valid(f) && CanBypass(f, r, cb)
    ensures i in Bypassed(f, r).insts <==> i in f.insts && f.parent[i] != r
    ensures i in Bypassed(f, r).insts ==>
              var d := Bypassed(f, r).insts[i];
              && IsCheck(d.op) == IsCheck(f.insts[i].op) && (IsCheck(d.op) ==> d.op == f.insts[i].op)
              && (d.op.Phi? ==> |d.op.incoming| == |d.operands|)
              && (!SanitizerOnly(f.insts[i].op) ==> d == f.insts[i])
              && forall o :: o in d.operands ==> o in f.insts[i].operands
  {
    hide CanBypass, SafeSucc, Fallthrough;
    assert i in Bypassed(f, r).insts <==> i in f.insts && f.parent[i] != r;
    if i in f.insts && f.parent[i] != r {
      var b := f.parent[i];
      InstPlace(f, i);
      BypassedInst(f, r, b, i);
      DropFacts(f.insts[i], {r});
      TermOf(f, b);
      if Edge(f, b, r) {
        RedirectableTerm(f, r, cb, b);
      }
    }
  }

  lemma RedirectableTerm(f: Func, r: BlockId, cb: InstId, b: BlockId)
    requires CanBypass(f, r, cb) && Edge(f, b, r)
    ensures Term(f, b).Br? || Term(f, b).CondBr?
  {
    assert SafeSucc(Term(f, b), r, Fallthrough(f, r)).Some?;
  }

  lemma BypassValid(f: Func, r: BlockId, cb: InstId)
    requires Valid(f) && CanBypass(f, r, cb) && r != f.entry
    ensures Valid(Bypassed(f, r))
  {
    var g := Bypassed(f, r);
    BypassedPlaced(f, r);
    hide CanBypass, Bypassed, Placed, EndsWell;
    BypassedShape(f, r);
    forall i | i in g.insts && g.insts[i].op.Phi? ensures |g.insts[i].op.incoming| == |g.insts[i].operands| {
      BypassedOps(f, r, cb, i);
    }
    forall b | b in g.blocks ensures EndsWell(g, b) {
      BypassedEndsWell(f, r, cb, b);
    }
  }

  /** The instructions of another block after the bypass. */
  lemma BypassHolds(f: Func, r: BlockId, cb: InstId, marks: set<InstId>, b: BlockId)
    requires Valid(f) && CanBypass(f, r, cb) && b != r && HeldFast(f, marks, b)
    ensures HeldFast(Bypassed(f, r), marks, b)
  {
    BypassedShape(f, r);
    hide CanBypass, Bypassed, SanitizerOnly, DeadKind;
    var i :| i in f.blocks[b] && i in f.insts && Fast(f.insts[i].op, i in marks);
    ListedIsPlaced(f, b, i);
    hide Valid;
    BypassedOps(f, r, cb, i);
  }

  lemma BypassLoose(f: Func, r: BlockId, cb: InstId, marks: set<InstId>, b: BlockId)
    requires Valid(f) && CanBypass(f, r, cb) && Loose(Bypassed(f, r), marks, b)
    ensures b != r && Loose(f, marks, b)
  {
    var g := Bypassed(f, r);
    var c :| c in marks && c in g.insts && c in g.parent && PlainCheck(g.insts[c].op) && g.parent[c] == b;
    assert g.parent[c] == f.parent[c];
    hide Valid, CanBypass, Bypassed, HeldFast;
    BypassedOps(f, r, cb, c);
    if HeldFast(f, marks, b) {
      BypassHolds(f, r, cb, marks, b);
    }
  }

  /** A predecessor of a loose block is redirected to a block that is not loose. */
  lemma OtherSideIsFast(f: Func, marks: set<InstId>, p: BlockId, r: BlockId, safe: BlockId, fallthrough: Option<BlockId>)
    requires Shielded(f, marks) && Edge(f, p, r) && Loose(f, marks, r)
    requires SafeSucc(Term(f, p), r, fallthrough) == Some(safe)
    ensures !Loose(f, marks, safe)
  {
    hide Loose, Term;
    assert Parted(f, marks, p);
  }

  /** An edge to a loose block after the bypass was there before, and its terminator has not been replaced. */
  lemma BypassParted(f: Func, r: BlockId, cb: InstId, marks: set<InstId>, p: BlockId, b: BlockId)
    requires Valid(f) && CanBypass(f, r, cb) && Shielded(f, marks) && Loose(f, marks, r)
    requires Loose(f, marks, b) && Edge(Bypassed(f, r), p, b)
    ensures Edge(f, p, b) && Term(Bypassed(f, r), p) == Term(f, p)
  {
    hide Valid, CanBypass, Bypassed, Loose, Term;
    BypassedEdge(f, r, cb, p, b);
    BypassedTerm(f, r, p);
    if Edge(f, p, r) {
      OtherSideIsFast(f, marks, p, r, b, Fallthrough(f, r));
    }
  }

  lemma BypassGuards(f: Func, r: BlockId, cb: InstId)
    requires Valid(f) && CanBypass(f, r, cb) && r != f.entry && cb in Checks(f) && cb in f.parent && f.parent[cb] == r
    requires f.insts[cb].op.Call?
    ensures Guards(f, Bypassed(f, r), {cb})
  {
    hide Valid, CanBypass, Bypassed, HeldFast, Loose, Term, Edge, Parted;
    var g := Bypassed(f, r);
    BypassedShape(f, r);
    BypassOnly(f, r, cb);
    forall m: set<InstId> | {cb} * Checks(f) <= m && Guarded(f, m) ensures Guarded(g, m) {
      assert cb in {cb} * Checks(f);
      ReportIsLoose(f, m, r, cb);
      if HeldFast(f, m, f.entry) {
        BypassHolds(f, r, cb, m, f.entry);
      } else {
        BypassShields(f, r, cb, m);
      }
    }
  }

  lemma BypassShields(f: Func, r: BlockId, cb: InstId, marks: set<InstId>)
    requires Valid(f) && CanBypass(f, r, cb) && Shielded(f, marks) && Loose(f, marks, r)
    ensures Shielded(Bypassed(f, r), marks)
  {
    hide Valid, CanBypass, Bypassed, Loose, Term, Edge;
    var g := Bypassed(f, r);
    BypassedShape(f, r);
    forall b | Loose(g, marks, b) ensures Loose(f, marks, b) {
      BypassLoose(f, r, cb, marks, b);
    }
    forall p, b | Loose(g, marks, b) && Edge(g, p, b) ensures Parted(g, marks, p) {
      BypassParted(f, r, cb, marks, p, b);
    }
  }

  lemma BypassOnly(f: Func, r: BlockId, cb: InstId)
    requires CanBypass(f, r, cb)
    ensures SanitizerOnlyBlock(f, r, cb)
  {
  }

  lemma BypassReachable(f: Func, r: BlockId, cb: InstId)
    requires Valid(f) && CanBypass(f, r, cb) && r != f.entry && AllReachable(f)
    ensures AllReachable(Bypassed(f, r))
  {
    hide Valid, CanBypass, Bypassed, Reaches;
    BypassedShape(f, r);
    forall b | b in Bypassed(f, r).blocks ensures Reaches(Bypassed(f, r), Bypassed(f, r).entry, b) {
      BypassKeepsReachability(f, r, cb, b);
    }
  }

  lemma BypassUnused(f: Func, r: BlockId, cb: InstId)
    requires Valid(f) && CanBypass(f, r, cb) && ChecksUnused(f)
    ensures ChecksUnused(Bypassed(f, r))
  {
    hide Valid, CanBypass, Bypassed;
    var g := Bypassed(f, r);
    forall i, j | i in g.insts && j in g.insts && Use(j) in g.insts[i].operands ensures !IsCheck(g.insts[j].op) {
      BypassedOps(f, r, cb, i);
      BypassedOps(f, r, cb, j);
    }
  }

  lemma BypassChecks(f: Func, r: BlockId, cb: InstId)
    requires Valid(f) && CanBypass(f, r, cb) && cb in Checks(f) && cb in f.parent && f.parent[cb] == r
    ensures Checks(Bypassed(f, r)) == Checks(f) - {cb}
    ensures forall i :: i in Checks(f) && i != cb ==> i in Bypassed(f, r).insts && Bypassed(f, r).insts[i].op == f.insts[i].op
  {
    BypassOnly(f, r, cb);
    hide Valid, CanBypass, Bypassed, Placed, EndsWell;
    forall i ensures i in Checks(Bypassed(f, r)) <==> i in Checks(f) && i != cb
             ensures i in Checks(Bypassed(f, r)) ==> Bypassed(f, r).insts[i].op == f.insts[i].op
    {
      BypassedOps(f, r, cb, i);
      if i in f.insts && f.parent[i] == r {
        InstPlace(f, i);
      }
    }
  }

  /** A check that sits in a bypassable block is a plain call: the terminator of such a block is no invoke. */
  lemma BypassedIsCall(f: Func, r: BlockId, cb: InstId)
    requires Valid(f) && CanBypass(f, r, cb) && cb in Checks(f) && cb in f.parent && f.parent[cb] == r
    ensures f.insts[cb].op.Call?
  {
    InstPlace(f, cb);
    TermOf(f, r);
  }

  /** Bypassing a report block other than the entry block deletes the check cb and no other. */
  lemma BypassKeeps(f: Func, r: BlockId, cb: InstId)
    requires Healthy(f) && CanBypass(f, r, cb) && r != f.entry && cb in Checks(f) && cb in f.parent && f.parent[cb] == r
    ensures Keeps(f, Bypassed(f, r), {cb})
  {
    hide *;
    HealthyParts(f);
    BypassValid(f, r, cb);
    BypassReachable(f, r, cb);
    BypassUnused(f, r, cb);
    HealthyWhole(Bypassed(f, r));
    BypassChecks(f, r, cb);
    BypassedIsCall(f, r, cb);
    BypassGuards(f, r, cb);
    KeepsBy(f, Bypassed(f, r), {cb});
  }

  /** Bypassing the entry block deletes the entry block. */
  lemma EntryIsLost(f: Func, cb: InstId)
    ensures f.entry !in Bypassed(f, f.entry).blocks && !Healthy(Bypassed(f, f.entry))
  {
    BypassedShape(f, f.entry);
  }
}
