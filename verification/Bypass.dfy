/**
 Bypassing a report block: which blocks qualify, and the function that results
 (`bypassReportBlock`, lib/CheckSliceRemover.cpp:357-427).
 */
module Bypass {
  import opened IR

  /** isSanitizerOnlyInstruction: what may stand in a block that serves nothing but a check. */
  predicate SanitizerOnly(op: Op)
  {
    match op
    case Call(c) => c.check || c.msanRuntime || c.emptyAsm || c.noop
    case Invoke(c, _, _) => c.check || c.msanRuntime || c.emptyAsm
    case Br(_) => true
    case CondBr(_, _) => true
    case Unreachable => true
    case Load(simple) => simple
    case Pure => true
    case Phi(_) => true
    case _ => false
  }

  /** isSanitizerOnlyBlock: nothing but sanitizer instructions, and no check other than the target. */
  predicate SanitizerOnlyBlock(f: Func, b: BlockId, target: InstId)
  {
    && b in f.blocks
    && forall i :: i in f.blocks[b] ==>
         i in f.insts && SanitizerOnly(f.insts[i].op) && (IsCheck(f.insts[i].op) ==> i == target)
  }

  function Fallthrough(f: Func, r: BlockId): Option<BlockId>
  {
    match Term(f, r)
    case Br(d) => Some(d)
    case _ => None
  }

  /** The block a predecessor of the report block r goes to instead; None when it cannot be redirected. */
  function SafeSucc(term: Op, r: BlockId, fallthrough: Option<BlockId>): Option<BlockId>
  {
    match term
    case CondBr(t, e) =>
      if t != r && e != r then None
      else
        var other := if t == r then e else t;
        if fallthrough.Some? && other != fallthrough.value then None
        else if other == r then None
        else Some(other)
    case Br(_) =>
      if fallthrough.None? || fallthrough.value == r then None else fallthrough
    case _ => None
  }

  ghost predicate Redirectable(f: Func, r: BlockId)
  {
    forall b :: Edge(f, b, r) ==> SafeSucc(Term(f, b), r, Fallthrough(f, r)).Some?
  }

  /** When bypassReportBlock succeeds for the check cb in block r. */
  ghost predicate CanBypass(f: Func, r: BlockId, cb: InstId)
  {
    && SanitizerOnlyBlock(f, r, cb)
    && (Term(f, r).Unreachable? || Term(f, r).Br?)
    && Redirectable(f, r)
  }

  // ----- what the tests decide, in terms of the edges -----

  /** p has to branch to d once the report block r is gone: p and r lead to r and d and nowhere else. */
  ghost predicate DivertsTo(f: Func, r: BlockId, p: BlockId, d: BlockId)
  {
    && d != r
    && (forall b :: Edge(f, p, b) ==> b == r || b == d)
    && (forall b :: Edge(f, r, b) ==> b == d)
    && (Term(f, p).CondBr? ==> Edge(f, p, d))
    && (Term(f, p).Br? ==> Edge(f, r, d))
  }

  ghost predicate Diverts(f: Func, r: BlockId, p: BlockId)
  {
    (Term(f, p).Br? || Term(f, p).CondBr?) && exists d :: DivertsTo(f, r, p, d)
  }

  /** The test of one predecessor finds the only block it can branch to instead, whichever successor r is. */
  lemma DivertsToSafe(f: Func, r: BlockId, p: BlockId, d: BlockId)
    requires r in f.blocks && (Term(f, r).Br? || Term(f, r).Unreachable?) && Edge(f, p, r)
    ensures SafeSucc(Term(f, p), r, Fallthrough(f, r)) == Some(d) <==>
            (Term(f, p).Br? || Term(f, p).CondBr?) && DivertsTo(f, r, p, d)
  {
    hide Term, TermId;
    forall q, b | q in f.blocks ensures Edge(f, q, b) <==> b in Successors(Term(f, q)) {
    }
    SuccessorsAre(Term(f, p));
    SuccessorsAre(Term(f, r));
    var from, to := Term(f, p), Term(f, r);
    assert from.CondBr? ==> Edge(f, p, from.ifTrue) && Edge(f, p, from.ifFalse);
    assert to.Br? ==> Edge(f, r, to.dest);
  }

  lemma SuccessorsAre(op: Op)
    ensures op.Br? ==> forall b :: b in Successors(op) <==> b == op.dest
    ensures op.CondBr? ==> forall b :: b in Successors(op) <==> b == op.ifTrue || b == op.ifFalse
    ensures op.Unreachable? ==> forall b :: b !in Successors(op)
  {
  }

  lemma CanRedirect(f: Func, r: BlockId, p: BlockId)
    requires r in f.blocks && (Term(f, r).Br? || Term(f, r).Unreachable?) && Edge(f, p, r)
    ensures SafeSucc(Term(f, p), r, Fallthrough(f, r)).Some? <==> Diverts(f, r, p)
  {
    hide SafeSucc, DivertsTo, Fallthrough, Term;
    var safe := SafeSucc(Term(f, p), r, Fallthrough(f, r));
    if safe.Some? {
      DivertsToSafe(f, r, p, safe.value);
    }
    if Diverts(f, r, p) {
      var d :| DivertsTo(f, r, p, d);
      DivertsToSafe(f, r, p, d);
    }
  }

  /** What may stand in the report block of cb. */
  ghost predicate ServesOnly(f: Func, b: BlockId, cb: InstId)
  {
    && b in f.blocks
    && forall i :: i in f.blocks[b] ==> i in f.insts && SanitizerKind(f.insts[i].op) && (IsCheck(f.insts[i].op) ==> i == cb)
  }

  /** No writes, allocations, atomic or volatile accesses, no side effects, and calls only of the sanitizer's own. */
  ghost predicate SanitizerKind(op: Op)
  {
    && !op.Store? && !op.Atomic? && !op.Alloca? && !op.OtherInst? && !op.OtherTerm?
    && (op.Load? ==> op.simple)
    && (op.Call? ==> op.callee.check || op.callee.msanRuntime || op.callee.emptyAsm || op.callee.noop)
    && (op.Invoke? ==> op.invoked.check || op.invoked.msanRuntime || op.invoked.emptyAsm)
  }

  lemma SanitizerKindExact(op: Op)
    ensures SanitizerOnly(op) <==> SanitizerKind(op)
  {
  }

  lemma ServedBlock(f: Func, b: BlockId, cb: InstId)
    ensures ServesOnly(f, b, cb) ==> b in f.blocks
  {
  }

  /** isSanitizerOnlyBlock, in terms of what must not stand in the block. */
  lemma ServesOnlyExact(f: Func, b: BlockId, cb: InstId)
    ensures SanitizerOnlyBlock(f, b, cb) <==> ServesOnly(f, b, cb)
  {
    hide SanitizerKind, SanitizerOnly;
    forall op: Op ensures SanitizerOnly(op) <==> SanitizerKind(op) {
      SanitizerKindExact(op);
    }
  }

  /** When the report block r of cb can be bypassed: in terms of instructions and edges alone. */
  ghost predicate MayBypass(f: Func, r: BlockId, cb: InstId)
  {
    && ServesOnly(f, r, cb)
    && (Term(f, r).Unreachable? || Term(f, r).Br?)
    && forall p :: Edge(f, p, r) ==> Diverts(f, r, p)
  }

  lemma CanBypassExact(f: Func, r: BlockId, cb: InstId)
    ensures CanBypass(f, r, cb) <==> MayBypass(f, r, cb)
  {
    hide SafeSucc, DivertsTo, Diverts, Fallthrough, Term, ServesOnly, SanitizerOnlyBlock, Edge;
    ServesOnlyExact(f, r, cb);
    assert ServesOnly(f, r, cb) ==> r in f.blocks by { ServedBlock(f, r, cb); }
    if r in f.blocks && (Term(f, r).Unreachable? || Term(f, r).Br?) {
      forall p | Edge(f, p, r) ensures SafeSucc(Term(f, p), r, Fallthrough(f, r)).Some? <==> Diverts(f, r, p) {
        CanRedirect(f, r, p);
      }
    }
  }

  /** A PHI without its entries for the blocks gone. */
  function DropOperands(incoming: seq<BlockId>, operands: seq<Operand>, gone: set<BlockId>): seq<Operand>
  {
    if incoming == [] || operands == [] then []
    else (if incoming[0] in gone then [] else [operands[0]]) + DropOperands(incoming[1..], operands[1..], gone)
  }

  function DropBlocks(incoming: seq<BlockId>, gone: set<BlockId>): seq<BlockId>
  {
    if incoming == [] then []
    else (if incoming[0] in gone then [] else [incoming[0]]) + DropBlocks(incoming[1..], gone)
  }

  function DropIncoming(i: Inst, gone: set<BlockId>): Inst
  {
    if i.op.Phi? then Inst(Phi(DropBlocks(i.op.incoming, gone)), DropOperands(i.op.incoming, i.operands, gone)) else i
  }

  /** The state of the commit loop once the predecessors in done are redirected. */
  ghost function Redirected(f: Func, r: BlockId, done: set<BlockId>): Func
  {
    f.(insts := map i | i in f.insts ::
         if i in f.parent && f.parent[i] in done && IsTerminator(f.insts[i].op) && Edge(f, f.parent[i], r) then
           Inst(Br(SafeSucc(f.insts[i].op, r, Fallthrough(f, r)).GetOr(r)), [])
         else if i in f.parent && f.parent[i] == r then DropIncoming(f.insts[i], done)
         else f.insts[i])
  }

  /** Blocks are deleted, with their entries in the PHIs of the others. */
  function WithoutBlocks(f: Func, gone: set<BlockId>): Func
  {
    Func(f.entry,
         f.blocks - gone,
         map i | i in f.insts && i in f.parent && f.parent[i] !in gone :: DropIncoming(f.insts[i], gone),
         map i | i in f.parent && f.parent[i] !in gone :: f.parent[i])
  }

  /** DeleteDeadBlock. */
  function WithoutBlock(f: Func, r: BlockId): Func
  {
    WithoutBlocks(f, {r})
  }

  ghost function Preds(f: Func, r: BlockId): set<BlockId>
  {
    set p | p in f.blocks && Edge(f, p, r)
  }

  ghost function Bypassed(f: Func, r: BlockId): Func
  {
    WithoutBlock(Redirected(f, r, Preds(f, r)), r)
  }

  // ----- one pass of the commit loop -----

  /** removePredecessor: the PHIs of r lose their entries for p. */
  function DropPred(f: Func, r: BlockId, p: BlockId): Func
  {
    f.(insts := map i | i in f.insts ::
         if i in f.parent && f.parent[i] == r then DropIncoming(f.insts[i], {p}) else f.insts[i])
  }

  /** The terminator of p is replaced by a branch. */
  function SetTerm(f: Func, p: BlockId, dest: BlockId): Func
  {
    if p in f.blocks && |f.blocks[p]| > 0 then f.(insts := f.insts[TermId(f, p) := Inst(Br(dest), [])]) else f
  }

  // ----- the shape of the result -----

  lemma TermOf(f: Func, b: BlockId)
    requires Valid(f) && b in f.blocks
    ensures |f.blocks[b]| > 0
    ensures var t := TermId(f, b);
            t in f.insts && t in f.parent && Term(f, b) == f.insts[t].op && IsTerminator(Term(f, b)) && f.parent[t] == b
    ensures forall i :: i in f.blocks[b] && i in f.insts && i != TermId(f, b) ==> !IsTerminator(f.insts[i].op)
    ensures forall d :: d in Successors(Term(f, b)) ==> d in f.blocks
  {
    assert EndsWell(f, b);
    var ks := f.blocks[b];
    assert TermId(f, b) in ks;
    assert IsTerminator(f.insts[ks[|ks| - 1]].op);
  }

  /** Only the redirected predecessors of r get a new terminator, and no edge leads to r any more. */
  lemma BypassedShape(f: Func, r: BlockId)
    ensures Bypassed(f, r).blocks == f.blocks - {r} && Bypassed(f, r).entry == f.entry
  {
  }

  /** Only the redirected predecessors of r get a new terminator. */
  lemma BypassedTerm(f: Func, r: BlockId, b: BlockId)
    requires Valid(f) && b in f.blocks && b != r
    ensures Term(Bypassed(f, r), b) ==
            if Edge(f, b, r) then Br(SafeSucc(Term(f, b), r, Fallthrough(f, r)).GetOr(r)) else Term(f, b)
  {
    hide Valid, SafeSucc, Fallthrough;
    TermOf(f, b);
    BypassedShape(f, r);
    var t := TermId(f, b);
    var g := Redirected(f, r, Preds(f, r));
    assert t in g.insts && g.parent == f.parent;
    assert g.insts[t] == if Edge(f, b, r) then Inst(Br(SafeSucc(Term(f, b), r, Fallthrough(f, r)).GetOr(r)), []) else f.insts[t];
    var h := Bypassed(f, r);
    assert t in h.insts && h.insts[t] == DropIncoming(g.insts[t], {r}) == g.insts[t];
    assert b in h.blocks && h.blocks[b] == f.blocks[b];
  }

  /** What becomes of the instructions of the other blocks. */
  lemma BypassedInst(f: Func, r: BlockId, b: BlockId, i: InstId)
    requires Valid(f) && b in f.blocks && b != r && i in f.blocks[b]
    ensures i in f.insts && i in Bypassed(f, r).insts && f.parent[i] == b
    ensures !(IsTerminator(f.insts[i].op) && Edge(f, b, r)) ==> Bypassed(f, r).insts[i] == DropIncoming(f.insts[i], {r})
    ensures IsTerminator(f.insts[i].op) ==> i == TermId(f, b) && |f.blocks[b]| > 0
    ensures IsTerminator(f.insts[i].op) && Edge(f, b, r) ==>
              Bypassed(f, r).insts[i] == Inst(Br(SafeSucc(Term(f, b), r, Fallthrough(f, r)).GetOr(r)), [])
    ensures i in f.parent
  {
    hide Valid, SafeSucc, Fallthrough, Edge, Term;
    TermOf(f, b);
    ListedIsPlaced(f, b, i);
    BypassedShape(f, r);
    var g := Redirected(f, r, Preds(f, r));
    assert i in g.insts && g.parent == f.parent;
  }

  lemma ListedIsPlaced(f: Func, b: BlockId, i: InstId)
    requires Valid(f) && b in f.blocks && i in f.blocks[b]
    ensures i in f.insts && i in f.parent && f.parent[i] == b
  {
  }

  lemma SafeIsNear(f: Func, r: BlockId, cb: InstId, b: BlockId)
    requires Valid(f) && CanBypass(f, r, cb) && Edge(f, b, r)
    ensures b != r && b in f.blocks
    ensures var safe := SafeSucc(Term(f, b), r, Fallthrough(f, r));
            && safe.Some? && safe.value != r
            && (Edge(f, b, safe.value) || (Fallthrough(f, r) == safe && Edge(f, r, safe.value)))
            && (Fallthrough(f, r).Some? ==> safe == Fallthrough(f, r))
            && (forall c :: Edge(f, b, c) ==> c == r || c == safe.value)
  {
    hide Valid, SanitizerOnlyBlock;
    assert SafeSucc(Term(f, b), r, Fallthrough(f, r)).Some?;
  }

  lemma ReportEnds(f: Func, r: BlockId, cb: InstId)
    requires CanBypass(f, r, cb)
    ensures r in f.blocks && (Term(f, r).Unreachable? || Term(f, r).Br?)
    ensures forall p :: Edge(f, p, r) ==> Term(f, p).Br? || Term(f, p).CondBr?
  {
    forall p | Edge(f, p, r) ensures Term(f, p).Br? || Term(f, p).CondBr? {
      assert SafeSucc(Term(f, p), r, Fallthrough(f, r)).Some?;
    }
  }

  lemma BypassedEdge(f: Func, r: BlockId, cb: InstId, a: BlockId, b: BlockId)
    requires Valid(f) && CanBypass(f, r, cb)
    ensures Edge(Bypassed(f, r), a, b) <==>
            a != r && b != r && a in f.blocks &&
            if Edge(f, a, r) then Some(b) == SafeSucc(Term(f, a), r, Fallthrough(f, r)) else Edge(f, a, b)
    ensures Edge(f, a, r) ==> (Some(b) == SafeSucc(Term(f, a), r, Fallthrough(f, r)) <==> DivertsTo(f, r, a, b))
  {
    hide Valid, CanBypass, Bypassed, SafeSucc, DivertsTo, Fallthrough;
    BypassedShape(f, r);
    if Edge(f, a, r) {
      ReportEnds(f, r, cb);
      DivertsToSafe(f, r, a, b);
    }
    if a in f.blocks && a != r {
      BypassedTerm(f, r, a);
      if Edge(f, a, r) {
        SafeIsNear(f, r, cb, a);
      }
    }
  }

  lemma ReportSuccessor(f: Func, r: BlockId, cb: InstId, b: BlockId)
    requires CanBypass(f, r, cb)
    ensures Edge(f, r, b) ==> Fallthrough(f, r) == Some(b)
  {
  }

  lemma {:induction false} ReachBefore(f: Func, r: BlockId, cb: InstId, b: BlockId, n: nat)
    requires Valid(f) && CanBypass(f, r, cb) && r != f.entry && ReachIn(Bypassed(f, r), f.entry, b, n)
    ensures Reaches(f, f.entry, b) && b != r
    decreases n
  {
    hide Valid, CanBypass, Bypassed, SafeSucc, Edge, Reaches;
    if b == f.entry {
      ReachRefl(f, b);
    } else {
      var c :| Edge(Bypassed(f, r), c, b) && ReachIn(Bypassed(f, r), f.entry, c, n - 1);
      BypassedEdge(f, r, cb, c, b);
      ReachBefore(f, r, cb, c, n - 1);
      if Edge(f, c, r) {
        SafeIsNear(f, r, cb, c);
        ReachStep(f, f.entry, c, r);
        if !Edge(f, c, b) {
          ReachStep(f, f.entry, r, b);
        }
      }
      if Edge(f, c, b) {
        ReachStep(f, f.entry, c, b);
      }
    }
  }

  lemma {:induction false} ReachAfter(f: Func, r: BlockId, cb: InstId, b: BlockId, n: nat)
    requires Valid(f) && CanBypass(f, r, cb) && r != f.entry && ReachIn(f, f.entry, b, n) && b != r
    ensures Reaches(Bypassed(f, r), f.entry, b)
    decreases n
  {
    hide Valid, CanBypass, Bypassed, SafeSucc, Edge, Reaches;
    var g := Bypassed(f, r);
    if b == f.entry {
      ReachRefl(g, b);
    } else {
      var c :| Edge(f, c, b) && ReachIn(f, f.entry, c, n - 1);
      if c != r {
        ReachAfter(f, r, cb, c, n - 1);
        BypassedEdge(f, r, cb, c, b);
        if Edge(f, c, r) {
          SafeIsNear(f, r, cb, c);
        }
        assert c in f.blocks by { EdgeFrom(f, c, b); }
        ReachStep(g, f.entry, c, b);
      } else {
        ReportSuccessor(f, r, cb, b);
        var d :| Edge(f, d, r) && ReachIn(f, f.entry, d, n - 2);
        SafeIsNear(f, r, cb, d);
        ReachAfter(f, r, cb, d, n - 2);
        BypassedEdge(f, r, cb, d, b);
        ReachStep(g, f.entry, d, b);
      }
    }
  }

  lemma EdgeFrom(f: Func, a: BlockId, b: BlockId)
    requires Edge(f, a, b)
    ensures a in f.blocks
  {
  }

  /** The blocks reachable afterwards are exactly those reachable before, without the report block. */
  lemma BypassKeepsReachability(f: Func, r: BlockId, cb: InstId, b: BlockId)
    requires Valid(f) && CanBypass(f, r, cb) && r != f.entry
    ensures Reaches(Bypassed(f, r), f.entry, b) <==> Reaches(f, f.entry, b) && b != r
  {
    hide Valid, CanBypass, Bypassed, ReachIn;
    if Reaches(Bypassed(f, r), f.entry, b) {
      var n: nat :| ReachIn(Bypassed(f, r), f.entry, b, n);
      ReachBefore(f, r, cb, b, n);
    }
    if Reaches(f, f.entry, b) && b != r {
      var n: nat :| ReachIn(f, f.entry, b, n);
      ReachAfter(f, r, cb, b, n);
    }
  }

  // ----- the commit loop computes Bypassed -----

  lemma {:induction false} DropTwice(incoming: seq<BlockId>, operands: seq<Operand>, gone: set<BlockId>, p: BlockId)
    ensures DropBlocks(DropBlocks(incoming, gone), {p}) == DropBlocks(incoming, gone + {p})
    ensures DropOperands(DropBlocks(incoming, gone), DropOperands(incoming, operands, gone), {p}) ==
            DropOperands(incoming, operands, gone + {p})
    decreases |incoming|
  {
    if incoming != [] {
      DropTwice(incoming[1..], if operands == [] then [] else operands[1..], gone, p);
      if incoming[0] in gone {
        assert DropBlocks(incoming, gone) == DropBlocks(incoming[1..], gone);
        assert DropBlocks(incoming, gone + {p}) == DropBlocks(incoming[1..], gone + {p});
        if operands != [] {
          assert DropOperands(incoming, operands, gone) == DropOperands(incoming[1..], operands[1..], gone);
          assert DropOperands(incoming, operands, gone + {p}) == DropOperands(incoming[1..], operands[1..], gone + {p});
        }
      } else {
        assert DropBlocks(incoming, gone)[1..] == DropBlocks(incoming[1..], gone);
        if operands != [] {
          assert DropOperands(incoming, operands, gone)[1..] == DropOperands(incoming[1..], operands[1..], gone);
        }
      }
    }
  }

  lemma {:induction false} DropNothing(incoming: seq<BlockId>, operands: seq<Operand>)
    ensures DropBlocks(incoming, {}) == incoming
    ensures |incoming| == |operands| ==> DropOperands(incoming, operands, {}) == operands
  {
    if incoming != [] {
      DropNothing(incoming[1..], if operands == [] then [] else operands[1..]);
    }
  }

  lemma RedirectedNothing(f: Func, r: BlockId)
    requires Valid(f)
    ensures Redirected(f, r, {}) == f
  {
    forall i | i in f.insts ensures DropIncoming(f.insts[i], {}) == f.insts[i] {
      if f.insts[i].op.Phi? {
        DropNothing(f.insts[i].op.incoming, f.insts[i].operands);
      }
    }
    assert Redirected(f, r, {}).insts == f.insts;
  }

  lemma RedirectedTerm(f: Func, r: BlockId, cb: InstId, done: set<BlockId>, b: BlockId)
    requires Valid(f) && CanBypass(f, r, cb) && done <= Preds(f, r) && b in f.blocks
    ensures Term(Redirected(f, r, done), b) ==
            if b in done then Br(SafeSucc(Term(f, b), r, Fallthrough(f, r)).GetOr(r)) else Term(f, b)
  {
    hide Valid, CanBypass, SafeSucc, Fallthrough;
    TermOf(f, b);
    var t := TermId(f, b);
    var g := Redirected(f, r, done);
    assert t in g.insts && t in f.parent && f.parent[t] == b;
    if b in done {
      SafeIsNear(f, r, cb, b);
    }
  }

  function InstAt(f: Func, i: InstId): Inst
  {
    if i in f.insts then f.insts[i] else Inst(Unreachable, [])
  }

  lemma DropInstTwice(i: Inst, gone: set<BlockId>, p: BlockId)
    ensures DropIncoming(DropIncoming(i, gone), {p}) == DropIncoming(i, gone + {p})
  {
    if i.op.Phi? {
      DropTwice(i.op.incoming, i.operands, gone, p);
    }
  }

  lemma CommitInst(f: Func, r: BlockId, done: set<BlockId>, p: BlockId, safe: BlockId, t: InstId, i: InstId)
    requires Edge(f, p, r) && p != r && r !in done && p !in done && i in f.insts && i in f.parent
    requires f.parent[i] == p ==> (IsTerminator(f.insts[i].op) <==> i == t)
    requires t in f.parent && f.parent[t] == p && t in f.insts && Term(f, p) == f.insts[t].op
    requires SafeSucc(Term(f, p), r, Fallthrough(f, r)) == Some(safe)
    ensures InstAt(Redirected(f, r, done + {p}), i) ==
            if i == t then Inst(Br(safe), []) else InstAt(DropPred(Redirected(f, r, done), r, p), i)
  {
    hide SafeSucc, Fallthrough, Term, Edge, DropIncoming;
    DropInstTwice(f.insts[i], done, p);
  }

  /** One pass of the commit loop. */
  lemma CommitStep(f: Func, r: BlockId, cb: InstId, done: set<BlockId>, p: BlockId)
    requires Valid(f) && CanBypass(f, r, cb) && done <= Preds(f, r) && Edge(f, p, r) && p !in done
    ensures var now := Redirected(f, r, done);
            && TermId(f, p) in now.insts && p in now.blocks && |now.blocks[p]| > 0 && TermId(now, p) == TermId(f, p)
            && SafeSucc(Term(now, p), r, Fallthrough(f, r)).Some?
            && Redirected(f, r, done + {p}) ==
               SetTerm(DropPred(now, r, p), p, SafeSucc(Term(now, p), r, Fallthrough(f, r)).value)
  {
    hide Valid, CanBypass, SafeSucc, Fallthrough, Edge;
    SafeIsNear(f, r, cb, p);
    TermOf(f, p);
    RedirectedTerm(f, r, cb, done, p);
    var now := Redirected(f, r, done);
    var safe := SafeSucc(Term(f, p), r, Fallthrough(f, r)).value;
    var g, h := Redirected(f, r, done + {p}), SetTerm(DropPred(now, r, p), p, safe);
    forall i | i in f.insts ensures g.insts[i] == h.insts[i] {
      InstPlace(f, i);
      TermOf(f, f.parent[i]);
      if r in done {
        SafeIsNear(f, r, cb, r);
      }
      CommitInst(f, r, done, p, safe, TermId(f, p), i);
    }
    assert g.insts == h.insts;
  }

  lemma InstPlace(f: Func, i: InstId)
    requires Valid(f) && i in f.insts
    ensures i in f.parent && f.parent[i] in f.blocks && i in f.blocks[f.parent[i]]
  {
  }

  /** After the commit loop nothing leads to the report block. */
  lemma CommitDone(f: Func, r: BlockId, cb: InstId)
    requires Valid(f) && CanBypass(f, r, cb)
    ensures forall p :: !Edge(Redirected(f, r, Preds(f, r)), p, r)
  {
    hide Valid, CanBypass, SafeSucc, Fallthrough;
    forall p ensures !Edge(Redirected(f, r, Preds(f, r)), p, r) {
      if p in f.blocks {
        RedirectedTerm(f, r, cb, Preds(f, r), p);
        if Edge(f, p, r) {
          SafeIsNear(f, r, cb, p);
        }
      }
    }
  }
}
