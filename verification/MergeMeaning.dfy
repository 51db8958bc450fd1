/**
 Merging a block into its only predecessor preserves the meaning of a function
 in SSA form: first its PHIs are folded, then it is appended.
 */
module MergeMeaning {
  import opened IR
  import opened Bypass
  import opened SliceSpec
  import opened Merge
  import Health
  import opened Semantics
  import opened BypassMeaning
  import opened ErasureMeaning

  // ----- dominance -----

  /** x is reached from the entry block over at most n edges without passing d. */
  ghost predicate Around(f: Func, d: BlockId, x: BlockId, n: nat)
    decreases n
  {
    x != d && (x == f.entry || (n > 0 && exists c :: Edge(f, c, x) && Around(f, d, c, n - 1)))
  }

  ghost predicate Dominates(f: Func, d: BlockId, x: BlockId)
  {
    forall n: nat :: !Around(f, d, x, n)
  }

  lemma DominatesItself(f: Func, d: BlockId)
    ensures Dominates(f, d, d)
  {
  }

  lemma DominatesBefore(f: Func, d: BlockId, c: BlockId, x: BlockId)
    requires Dominates(f, d, x) && Edge(f, c, x) && x != d
    ensures Dominates(f, d, c)
  {
    forall n: nat ensures !Around(f, d, c, n) {
      assert !Around(f, d, x, n + 1);
    }
  }

  lemma NotTheEntry(f: Func, d: BlockId)
    ensures Dominates(f, d, f.entry) <==> d == f.entry
  {
    assert d != f.entry ==> Around(f, d, f.entry, 0);
  }

  lemma OnlyPredDominates(f: Func, p: BlockId, b: BlockId)
    requires b != f.entry && forall a :: Edge(f, a, b) ==> a == p
    ensures Dominates(f, p, b)
  {
    forall n: nat ensures !Around(f, p, b, n) {
    }
  }

  lemma {:induction false} NoWayAround(f: Func, a: BlockId, b: BlockId, c: BlockId, n: nat)
    requires Dominates(f, a, b) && Dominates(f, b, c)
    ensures !Around(f, a, c, n)
    decreases n
  {
    hide Dominates;
    if Around(f, a, c, n) {
      if c == b {
        NeverAround(f, a, b, n);
      } else if c == f.entry {
        NotTheEntry(f, b);
      } else {
        var x :| Edge(f, x, c) && Around(f, a, x, n - 1);
        DominatesBefore(f, b, x, c);
        NoWayAround(f, a, b, x, n - 1);
      }
    }
  }

  lemma NeverAround(f: Func, a: BlockId, b: BlockId, n: nat)
    requires Dominates(f, a, b)
    ensures !Around(f, a, b, n)
  {
  }

  lemma DominatesTrans(f: Func, a: BlockId, b: BlockId, c: BlockId)
    requires Dominates(f, a, b) && Dominates(f, b, c)
    ensures Dominates(f, a, c)
  {
    forall n: nat ensures !Around(f, a, c, n) {
      NoWayAround(f, a, b, c, n);
    }
  }

  lemma {:induction false} PassesDominator(f: Func, d: BlockId, x: BlockId, n: nat) returns (m: nat)
    requires Dominates(f, d, x) && d != x && ReachIn(f, f.entry, x, n)
    ensures m < n && ReachIn(f, f.entry, d, m)
    decreases n
  {
    hide Dominates;
    NotTheEntry(f, d);
    var c :| Edge(f, c, x) && ReachIn(f, f.entry, c, n - 1);
    DominatesBefore(f, d, c, x);
    if c == d {
      m := n - 1;
    } else {
      m := PassesDominator(f, d, c, n - 1);
    }
  }

  lemma {:induction false} NoPathToEither(f: Func, a: BlockId, b: BlockId, n: nat)
    requires Dominates(f, a, b) && Dominates(f, b, a) && a != b
    ensures !ReachIn(f, f.entry, a, n)
    decreases n
  {
    hide Dominates;
    if ReachIn(f, f.entry, a, n) {
      var m := PassesDominator(f, b, a, n);
      NoPathToEither(f, b, a, m);
    }
  }

  lemma DominatesAnti(f: Func, a: BlockId, b: BlockId)
    requires Dominates(f, a, b) && Dominates(f, b, a) && Reaches(f, f.entry, a)
    ensures a == b
  {
    var n: nat :| ReachIn(f, f.entry, a, n);
    if a != b {
      NoPathToEither(f, a, b, n);
    }
  }

  // ----- SSA form -----

  ghost function Home(f: Func, i: InstId): BlockId
  {
    if i in f.parent then f.parent[i] else f.entry
  }

  /** The k-th operand of the PHI y is j, for the edge from a. */
  ghost predicate PhiUses(f: Func, y: InstId, k: int, a: BlockId, j: Operand)
  {
    && IsPhi(f, y) && 0 <= k < |f.insts[y].op.incoming| && k < |f.insts[y].operands|
    && f.insts[y].op.incoming[k] == a && f.insts[y].operands[k] == j
  }

  /** PHIs have entries for exactly the predecessors of their block, and equal entries for equal predecessors. */
  ghost predicate PhisFit(f: Func)
  {
    && (forall y, a :: IsPhi(f, y) ==> (Edge(f, a, Home(f, y)) <==> a in f.insts[y].op.incoming))
    && (forall y, k, l, a, o, o' :: PhiUses(f, y, k, a, o) && PhiUses(f, y, l, a, o') ==> o == o')
  }

  /** A value is used only where the block that defines it dominates; a PHI uses it at the end of the incoming block. */
  ghost predicate SSA(f: Func)
  {
    && (forall x, j :: x in f.insts && !IsPhi(f, x) && Operand.Use(j) in f.insts[x].operands && j in f.insts ==>
          Dominates(f, Home(f, j), Home(f, x)))
    && (forall y, k, a, j :: PhiUses(f, y, k, a, Operand.Use(j)) && j in f.insts ==> Dominates(f, Home(f, j), a))
  }

  /** What MergeBlockIntoPredecessor relies on. */
  ghost predicate Proper(f: Func)
  {
    Valid(f) && AllReachable(f) && SSA(f) && PhisFit(f)
  }

  // ----- folding one PHI -----

  ghost predicate Foldable(f: Func, p: BlockId, b: BlockId, i: InstId)
  {
    && Proper(f) && b in f.blocks && p in f.blocks && p != b && b != f.entry
    && Edge(f, p, b) && (forall a :: Edge(f, a, b) ==> a == p)
    && i in f.blocks[b] && IsPhi(f, i)
  }

  lemma FoldablePhi(f: Func, p: BlockId, b: BlockId, i: InstId)
    requires Foldable(f, p, b, i)
    ensures i in f.insts && i in f.parent && f.parent[i] == b && Home(f, i) == b
    ensures var d := f.insts[i];
            && d.op.Phi? && |d.op.incoming| == |d.operands| > 0
            && (forall k :: 0 <= k < |d.op.incoming| ==> d.op.incoming[k] == p)
            && PhiUses(f, i, 0, p, d.operands[0])
  {
    ListedIsPlaced(f, b, i);
    var d := f.insts[i];
    assert p in d.op.incoming;
    forall k | 0 <= k < |d.op.incoming| ensures d.op.incoming[k] == p {
      assert d.op.incoming[k] in d.op.incoming;
    }
  }

  /** The definition behind the only operand of a PHI of b does not lie below b. */
  lemma OperandAbove(f: Func, p: BlockId, b: BlockId, i: InstId, j: InstId)
    requires Foldable(f, p, b, i) && f.insts[i].operands != [] && f.insts[i].operands[0] == Operand.Use(j) && j in f.insts
    ensures !Dominates(f, b, Home(f, j)) && Dominates(f, Home(f, j), b) && i != j && Home(f, j) != b
  {
    hide Dominates, Valid, Reaches;
    FoldablePhi(f, p, b, i);
    assert Dominates(f, Home(f, j), p);
    OnlyPredDominates(f, p, b);
    DominatesTrans(f, Home(f, j), p, b);
    DominatesItself(f, b);
    if Dominates(f, b, Home(f, j)) {
      DominatesAnti(f, b, Home(f, j));
      DominatesAnti(f, b, p);
    }
  }

  /** The value put in the place of a PHI is the one that comes in over the only edge. */
  lemma FoldIsIncoming(f: Func, p: BlockId, b: BlockId, i: InstId)
    requires Foldable(f, p, b, i)
    ensures i in f.insts && f.insts[i].op.Phi?
    ensures FoldValue(f, i) == Incoming(f.insts[i].op.incoming, f.insts[i].operands, p)
    ensures FoldValue(f, i) == f.insts[i].operands[0] != Operand.Use(i)
  {
    FoldablePhi(f, p, b, i);
    if f.insts[i].operands[0] == Operand.Use(i) {
      OperandAbove(f, p, b, i, i);
    }
  }

  /** i has the value that replaces it. */
  ghost predicate Settled(f: Func, i: InstId, env: Env)
  {
    Eval(Operand.Use(i), env) == Eval(FoldValue(f, i), env)
  }

  /** The run has a right value for i wherever i may be used. */
  ghost predicate Steady<W>(f: Func, b: BlockId, i: InstId, c: Config<W>)
  {
    c.At? ==> c.block in f.blocks && (Dominates(f, b, c.block) ==> Settled(f, i, c.env))
  }

  lemma SettledSet(f: Func, p: BlockId, b: BlockId, i: InstId, env: Env, x: InstId, val: int)
    requires Foldable(f, p, b, i) && x in f.insts && !IsPhi(f, x) && Dominates(f, b, Home(f, x)) && Settled(f, i, env)
    ensures Settled(f, i, env[x := val])
  {
    hide Proper, Dominates;
    FoldIsIncoming(f, p, b, i);
    var v := FoldValue(f, i);
    if v == Operand.Use(x) {
      OperandAbove(f, p, b, i, x);
    }
  }

  lemma EnterOther(f: Func, env: Env, from: BlockId, to: BlockId, o: Operand)
    requires o.Use? && to in f.blocks ==> !(o.id in f.blocks[to] && IsPhi(f, o.id))
    ensures Eval(o, Enter(f, env, from, to)) == Eval(o, env)
  {
  }

  lemma EnterPhi(f: Func, env: Env, from: BlockId, to: BlockId, i: InstId)
    requires to in f.blocks && i in f.blocks[to] && IsPhi(f, i)
    ensures Eval(Operand.Use(i), Enter(f, env, from, to)) == Eval(Incoming(f.insts[i].op.incoming, f.insts[i].operands, from), env)
  {
  }

  lemma HomeOf(f: Func, b: BlockId, i: InstId)
    requires Valid(f) && b in f.blocks && i in f.blocks[b]
    ensures i in f.insts && Home(f, i) == b
  {
    ListedIsPlaced(f, b, i);
  }

  /** Entering a block of those that b dominates. */
  lemma SettledEnter(f: Func, p: BlockId, b: BlockId, i: InstId, env: Env, a: BlockId, d: BlockId)
    requires Foldable(f, p, b, i) && Edge(f, a, d) && d in f.blocks && Dominates(f, b, d)
    requires Dominates(f, b, a) ==> Settled(f, i, env)
    ensures Settled(f, i, Enter(f, env, a, d))
  {
    hide Valid, AllReachable, SSA, PhisFit, Dominates, Enter, Incoming;
    FoldIsIncoming(f, p, b, i);
    FoldablePhi(f, p, b, i);
    var v := FoldValue(f, i);
    if v.Use? && v.id in f.blocks[d] {
      HomeOf(f, d, v.id);
      OperandAbove(f, p, b, i, v.id);
      assert false;
    }
    EnterOther(f, env, a, d, v);
    if d == b {
      EnterPhi(f, env, a, d, i);
    } else {
      DominatesBefore(f, b, a, d);
      if i in f.blocks[d] {
        HomeOf(f, d, i);
        assert false;
      }
      EnterOther(f, env, a, d, Operand.Use(i));
    }
  }

  lemma SteadyJump<W>(f: Func, p: BlockId, b: BlockId, i: InstId, env: Env, w: W, a: BlockId, d: BlockId)
    requires Foldable(f, p, b, i) && Edge(f, a, d) && d in f.blocks
    requires Dominates(f, b, a) ==> Settled(f, i, env)
    ensures Steady(f, b, i, Goto(f, env, w, a, d))
  {
    hide *;
    if Dominates(f, b, d) {
      SettledEnter(f, p, b, i, env, a, d);
    }
    SteadyAt(f, b, i, Enter(f, env, a, d), w, a, env, d);
  }

  lemma SteadyAt<W>(f: Func, b: BlockId, i: InstId, now: Env, w: W, a: BlockId, env: Env, d: BlockId)
    requires d in f.blocks && now == Enter(f, env, a, d) && (Dominates(f, b, d) ==> Settled(f, i, now))
    ensures Steady(f, b, i, Goto(f, env, w, a, d))
  {
    hide Dominates, Enter, Settled;
  }

  lemma TermEdge(f: Func, b: BlockId, pc: nat, d: BlockId)
    requires Valid(f) && b in f.blocks && pc < |f.blocks[b]| && f.blocks[b][pc] in f.insts
    requires IsTerminator(f.insts[f.blocks[b][pc]].op) && d in Successors(f.insts[f.blocks[b][pc]].op)
    ensures Edge(f, b, d) && d in f.blocks
  {
    LastIsTerm(f, b, pc);
    TermOf(f, b);
  }

  /** One step of a function keeps the run steady. */
  lemma SteadyStep<W>(f: Func, p: BlockId, b: BlockId, i: InstId, m: Machine<W>, c: Config<W>)
    requires Foldable(f, p, b, i) && Steady(f, b, i, c)
    ensures Steady(f, b, i, Step(f, m, c).0)
  {
    hide Valid, AllReachable, SSA, PhisFit, Dominates, Settled, Goto, Args, Eval;
    if c.At? && c.block in f.blocks && c.pc < |f.blocks[c.block]| {
      var x := f.blocks[c.block][c.pc];
      assert x in f.blocks[c.block];
      HomeOf(f, c.block, x);
      SteadyInst(f, p, b, i, m, c.block, c.pc, c.env, c.world, x);
    }
  }

  lemma SteadyInst<W>(f: Func, p: BlockId, b: BlockId, i: InstId, m: Machine<W>, a: BlockId, pc: nat, env: Env, w: W, x: InstId)
    requires Foldable(f, p, b, i) && a in f.blocks && pc < |f.blocks[a]| && x == f.blocks[a][pc] && x in f.insts && Home(f, x) == a
    requires Dominates(f, b, a) ==> Settled(f, i, env)
    ensures Steady(f, b, i, StepInst(f, m, a, pc, env, w, x, f.insts[x]).0)
  {
    hide Valid, AllReachable, SSA, PhisFit, Dominates, Settled, Goto, Args, Eval;
    var inst := f.insts[x];
    var o := m.exec(x, Args(inst.operands, env), w);
    if Dominates(f, b, a) && !inst.op.Phi? {
      SettledSet(f, p, b, i, env, x, o.value);
    }
    SuccessorsOf(inst.op, o.go);
    if IsTerminator(inst.op) && !inst.op.Unreachable? {
      var d := Target(inst, env, o);
      if d in Successors(inst.op) {
        TermEdge(f, a, pc, d);
        SteadyJump(f, p, b, i, if Executed(inst.op) then env[x := o.value] else env, if Executed(inst.op) then o.world else w, a, d);
      }
    }
  }

  predicate Executed(op: Op)
  {
    !op.Phi? && !op.Unreachable? && !op.Br? && !op.CondBr?
  }

  /** The block that a terminator goes to. */
  function Target<W>(inst: Inst, env: Env, o: Outcome<W>): BlockId
  {
    match inst.op
    case Br(d) => d
    case CondBr(t, e) => if |inst.operands| > 0 && Eval(inst.operands[0], env) != 0 then t else e
    case _ => if 0 <= o.go < |Successors(inst.op)| then Successors(inst.op)[o.go] else 0
  }

  lemma SuccessorsOf(op: Op, go: int)
    ensures op.Br? ==> op.dest in Successors(op)
    ensures op.CondBr? ==> op.ifTrue in Successors(op) && op.ifFalse in Successors(op)
    ensures 0 <= go < |Successors(op)| ==> Successors(op)[go] in Successors(op)
  {
  }

  // ----- the function with the uses replaced -----

  lemma {:induction false} IncomingReplaced(ins: seq<BlockId>, ops: seq<Operand>, i: InstId, v: Operand, from: BlockId)
    ensures Incoming(ins, Substituted(ops, i, v), from) ==
            if Incoming(ins, ops, from) == Operand.Use(i) then v else Incoming(ins, ops, from)
  {
    if ins != [] && ops != [] {
      assert Substituted(ops, i, v)[1..] == Substituted(ops[1..], i, v);
      IncomingReplaced(ins[1..], ops[1..], i, v, from);
    }
  }

  lemma {:induction false} IncomingAt(ins: seq<BlockId>, ops: seq<Operand>, from: BlockId) returns (k: nat)
    requires Incoming(ins, ops, from).Use?
    ensures k < |ins| && k < |ops| && ins[k] == from && ops[k] == Incoming(ins, ops, from)
  {
    if ins[0] == from {
      k := 0;
    } else {
      k := IncomingAt(ins[1..], ops[1..], from);
      k := k + 1;
    }
  }

  lemma ArgsReplaced(f: Func, i: InstId, ops: seq<Operand>, env: Env)
    requires Operand.Use(i) in ops ==> Settled(f, i, env)
    ensures Args(Substituted(ops, i, FoldValue(f, i)), env) == Args(ops, env)
  {
    hide FoldValue;
    forall k | 0 <= k < |ops|
      ensures Eval(Substituted(ops, i, FoldValue(f, i))[k], env) == Eval(ops[k], env)
    {
      assert ops[k] in ops;
    }
  }

  lemma EnterReplaced(f: Func, p: BlockId, b: BlockId, i: InstId, env: Env, a: BlockId, d: BlockId)
    requires Foldable(f, p, b, i) && Edge(f, a, d) && d in f.blocks
    requires Dominates(f, b, a) ==> Settled(f, i, env)
    ensures Enter(ReplaceUses(f, i, FoldValue(f, i)), env, a, d) == Enter(f, env, a, d)
  {
    hide Valid, AllReachable, Dominates, FoldValue, Edge, Incoming, Substituted, PhisFit;
    var h := ReplaceUses(f, i, FoldValue(f, i));
    FoldablePhi(f, p, b, i);
    forall y | y in f.blocks[d]
      ensures IsPhi(h, y) <==> IsPhi(f, y)
      ensures IsPhi(f, y) ==> Eval(Incoming(h.insts[y].op.incoming, h.insts[y].operands, a), env)
                              == Eval(Incoming(f.insts[y].op.incoming, f.insts[y].operands, a), env)
    {
      if IsPhi(f, y) {
        var ins, ops := f.insts[y].op.incoming, f.insts[y].operands;
        IncomingReplaced(ins, ops, i, FoldValue(f, i), a);
        if Incoming(ins, ops, a) == Operand.Use(i) {
          var k := IncomingAt(ins, ops, a);
          assert PhiUses(f, y, k, a, Operand.Use(i));
        }
      }
    }
  }

  lemma GotoReplaced<W>(f: Func, p: BlockId, b: BlockId, i: InstId, env: Env, w: W, a: BlockId, d: BlockId)
    requires Foldable(f, p, b, i) && Edge(f, a, d) && d in f.blocks
    requires Dominates(f, b, a) ==> Settled(f, i, env)
    ensures Goto(ReplaceUses(f, i, FoldValue(f, i)), env, w, a, d) == Goto(f, env, w, a, d)
  {
    hide Foldable, Dominates, Settled, Enter, ReplaceUses, FoldValue, Edge;
    EnterReplaced(f, p, b, i, env, a, d);
  }

  lemma InstReplaced<W>(f: Func, p: BlockId, b: BlockId, i: InstId, m: Machine<W>, a: BlockId, pc: nat, env: Env, w: W, x: InstId)
    requires Foldable(f, p, b, i) && a in f.blocks && pc < |f.blocks[a]| && x == f.blocks[a][pc] && x in f.insts && Home(f, x) == a
    requires Dominates(f, b, a) ==> Settled(f, i, env)
    ensures var h := ReplaceUses(f, i, FoldValue(f, i));
            x in h.insts && StepInst(h, m, a, pc, env, w, x, h.insts[x]) == StepInst(f, m, a, pc, env, w, x, f.insts[x])
  {
    hide Valid, AllReachable, Dominates, Settled, Goto, PhisFit, FoldValue;
    var h := ReplaceUses(f, i, FoldValue(f, i));
    var inst := f.insts[x];
    FoldablePhi(f, p, b, i);
    if !IsPhi(f, x) {
      assert Operand.Use(i) in inst.operands ==> Dominates(f, b, a);
      ArgsReplaced(f, i, inst.operands, env);
      FirstArg(inst.operands, h.insts[x].operands, env);
    }
    var o := m.exec(x, Args(inst.operands, env), w);
    if Dominates(f, b, a) && !inst.op.Phi? {
      SettledSet(f, p, b, i, env, x, o.value);
    }
    SuccessorsOf(inst.op, o.go);
    if IsTerminator(inst.op) && !inst.op.Unreachable? {
      var d := Target(inst, env, o);
      if d in Successors(inst.op) {
        TermEdge(f, a, pc, d);
        GotoReplaced(f, p, b, i, if Executed(inst.op) then env[x := o.value] else env, if Executed(inst.op) then o.world else w, a, d);
      }
    }
    hide Foldable, Args, Eval, SSA;
  }

  lemma FirstArg(ops: seq<Operand>, ops': seq<Operand>, env: Env)
    requires Args(ops, env) == Args(ops', env)
    ensures |ops| == |ops'| && (|ops| > 0 ==> Eval(ops[0], env) == Eval(ops'[0], env))
  {
    assert |Args(ops, env)| == |ops| && |Args(ops', env)| == |ops'|;
    if |ops| > 0 {
      assert Args(ops, env)[0] == Eval(ops[0], env) && Args(ops', env)[0] == Eval(ops'[0], env);
    }
  }

  /** On a steady run the function with the uses of i replaced does the same. */
  lemma StepReplaced<W>(f: Func, p: BlockId, b: BlockId, i: InstId, m: Machine<W>, c: Config<W>)
    requires Foldable(f, p, b, i) && Steady(f, b, i, c)
    ensures Step(ReplaceUses(f, i, FoldValue(f, i)), m, c) == Step(f, m, c)
  {
    hide Valid, AllReachable, SSA, PhisFit, Dominates, Settled, StepInst, FoldValue, Substituted;
    if c.At? && c.block in f.blocks && c.pc < |f.blocks[c.block]| {
      var x := f.blocks[c.block][c.pc];
      assert x in f.blocks[c.block];
      HomeOf(f, c.block, x);
      InstReplaced(f, p, b, i, m, c.block, c.pc, c.env, c.world, x);
    }
  }

  lemma SteadyAtEntry<W>(f: Func, p: BlockId, b: BlockId, i: InstId, env: Env, w: W)
    requires Foldable(f, p, b, i)
    ensures Steady(f, b, i, At(f.entry, 0, env, w))
  {
    hide Dominates;
    NotTheEntry(f, b);
  }

  /** So the whole runs are the same. */
  lemma {:induction false} RunReplaced<W>(f: Func, p: BlockId, b: BlockId, i: InstId, m: Machine<W>, env: Env, w: W, n: nat)
    requires Foldable(f, p, b, i)
    ensures Steps(ReplaceUses(f, i, FoldValue(f, i)), m, At(f.entry, 0, env, w), n) == Steps(f, m, At(f.entry, 0, env, w), n)
    ensures Steady(f, b, i, Steps(f, m, At(f.entry, 0, env, w), n).0)
  {
    hide Foldable, Steady, Step, ReplaceUses, FoldValue;
    if n == 0 {
      SteadyAtEntry(f, p, b, i, env, w);
    } else {
      RunReplaced(f, p, b, i, m, env, w, n - 1);
      var c := Steps(f, m, At(f.entry, 0, env, w), n - 1).0;
      StepReplaced(f, p, b, i, m, c);
      SteadyStep(f, p, b, i, m, c);
    }
  }

  // ----- the PHI goes -----

  /** The machine with nothing to say about i. */
  function Muted<W>(m: Machine<W>, i: InstId): Machine<W>
  {
    Machine((x, args, w) => if x == i then Outcome(0, w, [], 0) else m.exec(x, args, w))
  }

  /** PHIs are not executed, so what the machine says about them does not matter. */
  lemma {:induction false} MutedRun<W>(f: Func, m: Machine<W>, i: InstId, c: Config<W>, n: nat)
    requires i in f.insts ==> f.insts[i].op.Phi?
    ensures Steps(f, Muted(m, i), c, n) == Steps(f, m, c, n)
  {
    if n > 0 {
      MutedRun(f, m, i, c, n - 1);
    }
  }

  lemma FoldMayErase<W(!new)>(f: Func, p: BlockId, b: BlockId, i: InstId, cb: InstId, m: Machine<W>)
    requires Foldable(f, p, b, i)
    ensures MayErase(ReplaceUses(f, i, FoldValue(f, i)), {i}, cb, Muted(m, i))
    ensures var h := ReplaceUses(f, i, FoldValue(f, i)); h.entry == f.entry && f.entry in h.blocks && i in h.insts && h.insts[i].op.Phi?
  {
    hide Valid, AllReachable, SSA, PhisFit;
    FoldIsIncoming(f, p, b, i);
    var v := FoldValue(f, i);
    hide FoldValue;
    var h := ReplaceUses(f, i, v);
    ReplaceValid(f, i, v);
    EntryThere(f);
    forall j | j in h.insts ensures Operand.Use(i) !in h.insts[j].operands {
    }
  }

  lemma EntryThere(f: Func)
    requires Valid(f)
    ensures f.entry in f.blocks
  {
  }

  lemma SameRunsFinish<W>(f: Func, g: Func, m: Machine<W>, m': Machine<W>, c: Config<W>, cb: InstId, w: W, t: seq<Event>)
    requires forall n: nat :: Steps(f, m, c, n) == Steps(g, m', c, n)
    ensures Finishes(f, m, c, cb, w, t) <==> Finishes(g, m', c, cb, w, t)
  {
    hide Steps;
  }

  lemma FoldedLacks(f: Func, i: InstId)
    ensures i !in FoldPhi(f, i).insts && FoldPhi(f, i).entry == f.entry
  {
  }

  /** Folding a PHI cannot be noticed. */
  lemma FoldUnnoticed<W(!new)>(f: Func, p: BlockId, b: BlockId, i: InstId, cb: InstId, m: Machine<W>, env: Env, w0: W,
                               w: W, t: seq<Event>)
    requires Foldable(f, p, b, i)
    ensures Finishes(f, m, At(f.entry, 0, env, w0), cb, w, t) <==> Finishes(FoldPhi(f, i), m, At(f.entry, 0, env, w0), cb, w, t)
  {
    hide Foldable, Finishes, MayErase, ReplaceUses, FoldValue, Minus, Steps, Muted;
    var h, c := ReplaceUses(f, i, FoldValue(f, i)), At(f.entry, 0, env, w0);
    forall n: nat ensures Steps(h, m, c, n) == Steps(f, m, c, n) {
      RunReplaced(f, p, b, i, m, env, w0, n);
    }
    SameRunsFinish(h, f, m, m, c, cb, w, t);
    FoldMayErase(f, p, b, i, cb, m);
    forall n: nat ensures Steps(h, Muted(m, i), c, n) == Steps(h, m, c, n) {
      MutedRun(h, m, i, c, n);
    }
    SameRunsFinish(h, h, Muted(m, i), m, c, cb, w, t);
    ErasureUnnoticed(h, {i}, cb, Muted(m, i), f.entry, env, w0, w, t);
    var g := FoldPhi(f, i);
    FoldedLacks(f, i);
    forall n: nat ensures Steps(g, Muted(m, i), c, n) == Steps(g, m, c, n) {
      MutedRun(g, m, i, c, n);
    }
    SameRunsFinish(g, g, Muted(m, i), m, c, cb, w, t);
  }

  // ----- folding keeps a function in SSA form -----

  lemma {:induction false} AroundSame(f: Func, g: Func, d: BlockId, x: BlockId, n: nat)
    requires f.entry == g.entry && forall a, b :: Edge(f, a, b) <==> Edge(g, a, b)
    ensures Around(f, d, x, n) <==> Around(g, d, x, n)
    decreases n
  {
    hide Edge;
    if n > 0 {
      var k: nat := n - 1;
      forall c ensures Around(f, d, c, k) <==> Around(g, d, c, k) {
        AroundSame(f, g, d, c, k);
      }
    }
  }

  lemma DominatesSame(f: Func, g: Func)
    requires f.entry == g.entry && forall a, b :: Edge(f, a, b) <==> Edge(g, a, b)
    ensures forall d, x :: Dominates(f, d, x) <==> Dominates(g, d, x)
  {
    hide Edge, Around;
    forall d, x, n: nat ensures Around(f, d, x, n) <==> Around(g, d, x, n) {
      AroundSame(f, g, d, x, n);
    }
  }

  /** What folding makes of the other instructions. */
  lemma FoldedInst(f: Func, i: InstId, x: InstId)
    ensures x in FoldPhi(f, i).insts <==> x in f.insts && x != i
    ensures x in FoldPhi(f, i).insts ==>
              FoldPhi(f, i).insts[x] == Inst(f.insts[x].op, Substituted(f.insts[x].operands, i, FoldValue(f, i)))
    ensures x != i ==> Home(FoldPhi(f, i), x) == Home(f, x)
    ensures FoldPhi(f, i).entry == f.entry
  {
    hide FoldValue;
  }

  lemma FoldedUse(f: Func, i: InstId, ops: seq<Operand>, k: nat)
    requires k < |ops|
    ensures var o := Substituted(ops, i, FoldValue(f, i))[k];
            o == if ops[k] == Operand.Use(i) then FoldValue(f, i) else ops[k]
  {
  }

  lemma FoldedSSA(f: Func, p: BlockId, b: BlockId, i: InstId)
    requires Foldable(f, p, b, i) && forall d, x :: Dominates(f, d, x) <==> Dominates(FoldPhi(f, i), d, x)
    ensures SSA(FoldPhi(f, i))
  {
    hide Valid, AllReachable, PhisFit, Dominates, FoldPhi, FoldValue, Substituted, Edge;
    var g := FoldPhi(f, i);
    FoldablePhi(f, p, b, i);
    forall j | FoldValue(f, i) == Operand.Use(j) && j in f.insts ensures Dominates(f, Home(f, j), b) && j != i {
      FoldIsIncoming(f, p, b, i);
      OperandAbove(f, p, b, i, j);
    }
    forall x, j | x in g.insts && !IsPhi(g, x) && Operand.Use(j) in g.insts[x].operands && j in g.insts
      ensures Dominates(g, Home(g, j), Home(g, x))
    {
      FoldedInst(f, i, x);
      FoldedInst(f, i, j);
      var k :| 0 <= k < |g.insts[x].operands| && g.insts[x].operands[k] == Operand.Use(j);
      SubstitutedSize(f.insts[x].operands, i, FoldValue(f, i));
      FoldedUse(f, i, f.insts[x].operands, k);
      assert f.insts[x].operands[k] in f.insts[x].operands;
      if f.insts[x].operands[k] == Operand.Use(i) {
        DominatesTrans(f, Home(f, j), b, Home(f, x));
      }
    }
    forall y, k, a, j | PhiUses(g, y, k, a, Operand.Use(j)) && j in g.insts ensures Dominates(g, Home(g, j), a) {
      FoldedInst(f, i, y);
      FoldedInst(f, i, j);
      SubstitutedSize(f.insts[y].operands, i, FoldValue(f, i));
      FoldedUse(f, i, f.insts[y].operands, k);
      if f.insts[y].operands[k] == Operand.Use(i) {
        assert PhiUses(f, y, k, a, Operand.Use(i));
        DominatesTrans(f, Home(f, j), b, a);
      } else {
        assert PhiUses(f, y, k, a, Operand.Use(j));
      }
    }
  }

  lemma SubstitutedSize(ops: seq<Operand>, i: InstId, v: Operand)
    ensures |Substituted(ops, i, v)| == |ops|
  {
  }

  lemma FoldedFits(f: Func, p: BlockId, b: BlockId, i: InstId)
    requires Foldable(f, p, b, i) && forall a, c :: Edge(f, a, c) <==> Edge(FoldPhi(f, i), a, c)
    ensures PhisFit(FoldPhi(f, i))
  {
    hide Valid, AllReachable, SSA, FoldPhi, FoldValue, Substituted, Edge;
    var g := FoldPhi(f, i);
    forall y, a | IsPhi(g, y) ensures Edge(g, a, Home(g, y)) <==> a in g.insts[y].op.incoming {
      FoldedInst(f, i, y);
      assert IsPhi(f, y);
    }
    forall y, k, l, a, o, o' | PhiUses(g, y, k, a, o) && PhiUses(g, y, l, a, o') ensures o == o' {
      FoldedInst(f, i, y);
      var ops := f.insts[y].operands;
      SubstitutedSize(ops, i, FoldValue(f, i));
      FoldedUse(f, i, ops, k);
      FoldedUse(f, i, ops, l);
      assert PhiUses(f, y, k, a, ops[k]) && PhiUses(f, y, l, a, ops[l]);
    }
  }

  lemma FoldedEdges(f: Func, i: InstId)
    requires Valid(f) && i in f.insts && f.insts[i].op.Phi?
    ensures Valid(FoldPhi(f, i))
    ensures forall a, c :: Edge(f, a, c) <==> Edge(FoldPhi(f, i), a, c)
  {
    hide Valid, Term, FoldPhi, FoldValue;
    FoldTerms(f, i);
    FoldedValid(f, i);
  }

  lemma FoldedValid(f: Func, i: InstId)
    requires Valid(f) && i in f.insts && f.insts[i].op.Phi?
    ensures Valid(FoldPhi(f, i))
  {
    hide Valid, Term, ReplaceUses, Minus, Health.Harmless, FoldValue;
    var v := FoldValue(f, i);
    ReplaceValid(f, i, v);
    FoldHarmless(f, i, v);
    Health.MinusValid(ReplaceUses(f, i, v), {i});
  }

  lemma ProperFolded(f: Func, p: BlockId, b: BlockId, i: InstId)
    requires Foldable(f, p, b, i)
    ensures Proper(FoldPhi(f, i)) && FoldPhi(f, i).blocks.Keys == f.blocks.Keys && FoldPhi(f, i).entry == f.entry
    ensures forall a, c :: Edge(f, a, c) <==> Edge(FoldPhi(f, i), a, c)
    ensures forall x :: x in FoldPhi(f, i).blocks[b] <==> x in f.blocks[b] && x != i
  {
    hide Valid, AllReachable, SSA, PhisFit, FoldPhi, Dominates, Edge, Term;
    FoldablePhi(f, p, b, i);
    FoldedEdges(f, i);
    FoldTerms(f, i);
    DominatesSame(f, FoldPhi(f, i));
    FoldedSSA(f, p, b, i);
    FoldedFits(f, p, b, i);
    Health.SameEdges(f, FoldPhi(f, i));
    forall x ensures x in FoldPhi(f, i).blocks[b] <==> x in f.blocks[b] && x != i {
      FoldedList(f, i, b, x);
    }
  }

  lemma FoldedList(f: Func, i: InstId, b: BlockId, x: InstId)
    requires b in f.blocks
    ensures b in FoldPhi(f, i).blocks && (x in FoldPhi(f, i).blocks[b] <==> x in f.blocks[b] && x != i)
  {
    RemovedMembers(f.blocks[b], {i}, x);
  }

  // ----- appending the block -----

  ghost predicate Joinable(f: Func, p: BlockId, b: BlockId)
  {
    Valid(f) && PhisFit(f) && Spliceable(f, p, b) && NoPhis(f, b)
  }

  /** Where a position of f is once b has been appended to p. */
  function Moved<W>(f: Func, p: BlockId, b: BlockId, c: Config<W>): Config<W>
  {
    if c.At? && c.block == b && p in f.blocks && f.blocks[p] != [] then At(p, |f.blocks[p]| - 1 + c.pc, c.env, c.world) else c
  }

  /** The branch from p to b, which is gone afterwards. */
  ghost predicate AtJoint<W>(f: Func, p: BlockId, c: Config<W>)
  {
    c.At? && c.block == p && p in f.blocks && c.pc == |f.blocks[p]| - 1
  }

  lemma {:induction false} IncomingRenamed(ins: seq<BlockId>, ops: seq<Operand>, b: BlockId, p: BlockId, from: BlockId)
    requires from != p && (from == b ==> p !in ins)
    ensures Incoming(seq(|ins|, k requires 0 <= k < |ins| => if ins[k] == b then p else ins[k]), ops, if from == b then p else from)
            == Incoming(ins, ops, from)
  {
    if ins != [] && ops != [] {
      var renamed := seq(|ins|, k requires 0 <= k < |ins| => if ins[k] == b then p else ins[k]);
      var rest := ins[1..];
      assert renamed[1..] == seq(|rest|, k requires 0 <= k < |rest| => if rest[k] == b then p else rest[k]);
      IncomingRenamed(rest, ops[1..], b, p, from);
    }
  }

  lemma JoinableFacts(f: Func, p: BlockId, b: BlockId)
    requires Joinable(f, p, b)
    ensures p in f.blocks && b in f.blocks && p != b && b != f.entry && |f.blocks[p]| > 0 && |f.blocks[b]| > 0
    ensures forall a :: Edge(f, a, b) ==> a == p
    ensures forall d :: Edge(f, p, d) ==> d == b
    ensures f.entry in f.blocks
  {
    TermOf(f, p);
    TermOf(f, b);
  }

  lemma SplicedLists(f: Func, p: BlockId, b: BlockId)
    requires p in f.blocks && b in f.blocks && p != b && |f.blocks[p]| > 0
    ensures var g, m := Spliced(f, p, b), |f.blocks[p]| - 1;
            && p in g.blocks && g.blocks[p] == f.blocks[p][..m] + f.blocks[b]
            && forall a :: a in f.blocks && a != p && a != b ==> a in g.blocks && g.blocks[a] == f.blocks[a]
  {
  }

  /** A position that is not the branch at the end of p holds the same instruction after the move. */
  lemma MovedId<W>(f: Func, p: BlockId, b: BlockId, c: Config<W>)
    requires p in f.blocks && b in f.blocks && p != b && |f.blocks[p]| > 0
    requires c.At? && c.block in f.blocks && c.pc < |f.blocks[c.block]| && !AtJoint(f, p, c)
    ensures var g, d := Spliced(f, p, b), Moved(f, p, b, c);
            d.At? && d.block in g.blocks && d.pc < |g.blocks[d.block]| && g.blocks[d.block][d.pc] == f.blocks[c.block][c.pc]
  {
    SplicedLists(f, p, b);
    hide Spliced;
  }

  /** The instruction itself is the same, but for the names in PHIs. */
  lemma MovedInst<W>(f: Func, p: BlockId, b: BlockId, c: Config<W>)
    requires Joinable(f, p, b) && c.At? && c.block in f.blocks && c.pc < |f.blocks[c.block]| && !AtJoint(f, p, c)
    ensures var x := f.blocks[c.block][c.pc];
            x in f.insts && x in Spliced(f, p, b).insts && Spliced(f, p, b).insts[x] == RenameIncoming(f.insts[x], b, p)
  {
    hide Valid, Spliced, NoDup, Term, Edge, PhisFit, NoPhis;
    JoinableFacts(f, p, b);
    var x := f.blocks[c.block][c.pc];
    assert x in f.blocks[c.block];
    HomeOf(f, c.block, x);
    ListedElsewhere(f, p, b, c.block);
    hide TermId;
    SplicedInst(f, p, b, x);
  }

  /** On entering d from a, and from a' in g, the same PHIs read the same operands. */
  ghost predicate EntersAlike(f: Func, g: Func, a: BlockId, a': BlockId, d: BlockId, y: InstId)
    requires d in f.blocks && d in g.blocks
  {
    && (y in g.blocks[d] && IsPhi(g, y) <==> y in f.blocks[d] && IsPhi(f, y))
    && (y in f.blocks[d] && IsPhi(f, y) && IsPhi(g, y) ==>
        Incoming(g.insts[y].op.incoming, g.insts[y].operands, a') == Incoming(f.insts[y].op.incoming, f.insts[y].operands, a))
  }

  lemma EnterAlike(f: Func, g: Func, env: Env, a: BlockId, a': BlockId, d: BlockId)
    requires d in f.blocks && d in g.blocks && forall y :: EntersAlike(f, g, a, a', d, y)
    ensures Enter(g, env, a', d) == Enter(f, env, a, d)
  {
    hide Incoming, Eval;
    assert forall y :: y in g.blocks[d] && IsPhi(g, y) ==> EntersAlike(f, g, a, a', d, y);
    assert forall y :: y in f.blocks[d] && IsPhi(f, y) ==> EntersAlike(f, g, a, a', d, y);
  }

  /** PHIs read the same values on an edge, wherever its block has gone. */
  lemma EnterMoved(f: Func, p: BlockId, b: BlockId, env: Env, a: BlockId, d: BlockId)
    requires Joinable(f, p, b) && Edge(f, a, d) && a != p && d in f.blocks
    ensures d != b && d in Spliced(f, p, b).blocks
    ensures Enter(Spliced(f, p, b), env, if a == b then p else a, d) == Enter(f, env, a, d)
  {
    hide *;
    JoinableFacts(f, p, b);
    SplicedLists(f, p, b);
    var a' := if a == b then p else a;
    forall y ensures EntersAlike(f, Spliced(f, p, b), a, a', d, y) {
      MovedPhi(f, p, b, a, d, y);
    }
    EnterAlike(f, Spliced(f, p, b), env, a, a', d);
  }

  lemma MovedPhi(f: Func, p: BlockId, b: BlockId, a: BlockId, d: BlockId, y: InstId)
    requires Joinable(f, p, b) && Edge(f, a, d) && a != p && d in f.blocks && d != b && d in Spliced(f, p, b).blocks
    ensures EntersAlike(f, Spliced(f, p, b), a, if a == b then p else a, d, y)
  {
    hide EndsWell, PhisBalanced, NoDup, Term, Edge, PhisFit, Incoming;
    JoinableFacts(f, p, b);
    TermIsNoPhi(f, p);
    SplicedLists(f, p, b);
    Joined(f, p, b);
    hide Valid, Spliceable, Spliced;
    SplicedInst(f, p, b, y);
    if y in f.insts {
      RenameFacts(f.insts[y], b, p);
    }
    if y in f.blocks[d] && IsPhi(f, y) {
      RenamedEntry(f, p, b, a, d, y);
    }
  }

  lemma TermIsNoPhi(f: Func, p: BlockId)
    requires Valid(f) && p in f.blocks
    ensures |f.blocks[p]| > 0 && !IsPhi(f, TermId(f, p))
  {
    TermOf(f, p);
  }

  lemma EntryIsEdge(f: Func, y: InstId, a: BlockId)
    requires PhisFit(f) && IsPhi(f, y)
    ensures a in f.insts[y].op.incoming <==> Edge(f, a, Home(f, y))
  {
    hide Edge;
  }

  lemma RenamedEntry(f: Func, p: BlockId, b: BlockId, a: BlockId, d: BlockId, y: InstId)
    requires Joinable(f, p, b) && Edge(f, a, d) && a != p && d in f.blocks && d != b && y in f.blocks[d] && IsPhi(f, y)
    ensures var r := RenameIncoming(f.insts[y], b, p);
            r.op.Phi? && Incoming(r.op.incoming, r.operands, if a == b then p else a)
            == Incoming(f.insts[y].op.incoming, f.insts[y].operands, a)
  {
    hide Edge, Term, Incoming;
    JoinableFacts(f, p, b);
    HomeOf(f, d, y);
    EntryIsEdge(f, y, p);
    IncomingRenamed(f.insts[y].op.incoming, f.insts[y].operands, b, p, a);
  }

  lemma GotoMoved<W>(f: Func, p: BlockId, b: BlockId, env: Env, w: W, a: BlockId, d: BlockId)
    requires Joinable(f, p, b) && Edge(f, a, d) && a != p && d in f.blocks
    ensures Goto(Spliced(f, p, b), env, w, if a == b then p else a, d) == Moved(f, p, b, Goto(f, env, w, a, d))
    ensures Running(f, Goto(f, env, w, a, d))
  {
    hide Joinable, Edge, Enter, Spliced;
    EnterMoved(f, p, b, env, a, d);
    BlockNotEmpty(f, p, b, d);
  }

  lemma BlockNotEmpty(f: Func, p: BlockId, b: BlockId, d: BlockId)
    requires Joinable(f, p, b) && d in f.blocks
    ensures |f.blocks[d]| > 0
  {
    TermOf(f, d);
  }

  /** The branch from p to b: afterwards there is nothing to do. */
  lemma StepJoint<W>(f: Func, p: BlockId, b: BlockId, m: Machine<W>, c: Config<W>)
    requires Joinable(f, p, b) && AtJoint(f, p, c)
    ensures Running(f, Step(f, m, c).0) && Step(f, m, c).1 == []
    ensures Moved(f, p, b, Step(f, m, c).0) == Moved(f, p, b, c)
    ensures !AtJoint(f, p, Step(f, m, c).0)
  {
    hide PhisFit, EndsWell, Placed, Term;
    JoinableFacts(f, p, b);
    TermOf(f, p);
    hide Valid;
    var t := f.insts[TermId(f, p)];
    assert Term(f, p) == t.op && f.blocks[p][c.pc] == TermId(f, p);
    SuccessorsOf(t.op, 0);
    assert Enter(f, c.env, p, b) == c.env;
  }

  /** Any other instruction is executed by both functions alike. */
  lemma StepMoved<W>(f: Func, p: BlockId, b: BlockId, m: Machine<W>, c: Config<W>)
    requires Joinable(f, p, b) && Running(f, c) && !AtJoint(f, p, c)
    ensures Running(f, Step(f, m, c).0)
    ensures Step(Spliced(f, p, b), m, Moved(f, p, b, c)) == (Moved(f, p, b, Step(f, m, c).0), Step(f, m, c).1)
  {
    hide Joinable, Spliced, StepInst;
    if c.At? {
      JoinableFacts(f, p, b);
      MovedId(f, p, b, c);
      MovedInst(f, p, b, c);
      InstMoved(f, p, b, m, c);
    }
  }

  lemma InstMoved<W>(f: Func, p: BlockId, b: BlockId, m: Machine<W>, c: Config<W>)
    requires Joinable(f, p, b) && Running(f, c) && c.At? && !AtJoint(f, p, c) && f.blocks[c.block][c.pc] in f.insts
    ensures var x, d := f.blocks[c.block][c.pc], Moved(f, p, b, c);
            var s := StepInst(f, m, c.block, c.pc, c.env, c.world, x, f.insts[x]);
            && Running(f, s.0) && d.At?
            && StepInst(Spliced(f, p, b), m, d.block, d.pc, d.env, d.world, x, RenameIncoming(f.insts[x], b, p))
               == (Moved(f, p, b, s.0), s.1)
  {
    hide Joinable, Spliced, Goto, Args, Eval;
    var a, x := c.block, f.blocks[c.block][c.pc];
    var inst := f.insts[x];
    JoinableFacts(f, p, b);
    LastInBlock(f, p, b, a, c.pc);
    RenameFacts(inst, b, p);
    var o := m.exec(x, Args(inst.operands, c.env), c.world);
    SuccessorsOf(inst.op, o.go);
    if IsTerminator(inst.op) && !inst.op.Unreachable? {
      var d := Target(inst, c.env, o);
      if d in Successors(inst.op) {
        EdgeInBlock(f, p, b, a, c.pc, d);
        GotoMoved(f, p, b, if Executed(inst.op) then c.env[x := o.value] else c.env,
                  if Executed(inst.op) then o.world else c.world, a, d);
      }
    }
  }

  lemma LastInBlock(f: Func, p: BlockId, b: BlockId, a: BlockId, pc: nat)
    requires Joinable(f, p, b) && a in f.blocks && pc < |f.blocks[a]|
    ensures f.blocks[a][pc] in f.insts && (IsTerminator(f.insts[f.blocks[a][pc]].op) <==> pc == |f.blocks[a]| - 1)
  {
    LastIsTerm(f, a, pc);
  }

  lemma EdgeInBlock(f: Func, p: BlockId, b: BlockId, a: BlockId, pc: nat, d: BlockId)
    requires Joinable(f, p, b) && a in f.blocks && pc < |f.blocks[a]| && f.blocks[a][pc] in f.insts
    requires IsTerminator(f.insts[f.blocks[a][pc]].op) && d in Successors(f.insts[f.blocks[a][pc]].op)
    ensures Edge(f, a, d) && d in f.blocks
  {
    TermEdge(f, a, pc, d);
  }

  /** Every run before the merge is matched by a run after it with the same trace. */
  lemma {:induction false} SpliceForward<W>(f: Func, p: BlockId, b: BlockId, m: Machine<W>, c: Config<W>, n: nat) returns (k: nat)
    requires Joinable(f, p, b) && Running(f, c)
    ensures k <= n && Running(f, Steps(f, m, c, n).0)
    ensures Steps(Spliced(f, p, b), m, Moved(f, p, b, c), k) == (Moved(f, p, b, Steps(f, m, c, n).0), Steps(f, m, c, n).1)
  {
    hide Joinable, Step, Moved, AtJoint, Running, Spliced;
    if n == 0 {
      k := 0;
    } else {
      k := SpliceForward(f, p, b, m, c, n - 1);
      var (d, e) := Steps(f, m, c, n - 1);
      if AtJoint(f, p, d) {
        StepJoint(f, p, b, m, d);
        assert e + [] == e;
      } else {
        StepMoved(f, p, b, m, d);
        k := k + 1;
      }
    }
  }

  /** Conversely, every run after the merge comes from a run before it. */
  lemma {:induction false} SpliceBackward<W>(f: Func, p: BlockId, b: BlockId, m: Machine<W>, c: Config<W>, k: nat) returns (n: nat)
    requires Joinable(f, p, b) && Running(f, c)
    ensures k <= n && Running(f, Steps(f, m, c, n).0)
    ensures Steps(Spliced(f, p, b), m, Moved(f, p, b, c), k) == (Moved(f, p, b, Steps(f, m, c, n).0), Steps(f, m, c, n).1)
  {
    hide Joinable, Step, Moved, AtJoint, Running, Spliced;
    if k == 0 {
      n := 0;
    } else {
      n := SpliceBackward(f, p, b, m, c, k - 1);
      var (d, e) := Steps(f, m, c, n);
      if AtJoint(f, p, d) {
        StepJoint(f, p, b, m, d);
        assert e + [] == e;
        n := n + 1;
      }
      StepMoved(f, p, b, m, Steps(f, m, c, n).0);
      n := n + 1;
    }
  }

  /** Appending a block without PHIs to its only predecessor cannot be noticed. */
  lemma SpliceUnnoticed<W>(f: Func, p: BlockId, b: BlockId, cb: InstId, m: Machine<W>, env: Env, w0: W, w: W, t: seq<Event>)
    requires Joinable(f, p, b)
    ensures Finishes(f, m, At(f.entry, 0, env, w0), cb, w, t)
      <==> Finishes(Spliced(f, p, b), m, At(f.entry, 0, env, w0), cb, w, t)
  {
    hide Joinable, Spliced, Steps;
    var c := At(f.entry, 0, env, w0);
    JoinableFacts(f, p, b);
    BlockNotEmpty(f, p, b, f.entry);
    if Finishes(f, m, c, cb, w, t) {
      var n: nat :| Steps(f, m, c, n).0 == Stopped(w) && EraseReports(Steps(f, m, c, n).1, cb) == t;
      var k := SpliceForward(f, p, b, m, c, n);
      assert Steps(Spliced(f, p, b), m, c, k).0 == Stopped(w);
    }
    if Finishes(Spliced(f, p, b), m, c, cb, w, t) {
      var g := Spliced(f, p, b);
      var k: nat :| Steps(g, m, c, k).0 == Stopped(w) && EraseReports(Steps(g, m, c, k).1, cb) == t;
      var n := SpliceBackward(f, p, b, m, c, k);
      assert Steps(f, m, c, n).0 == Stopped(w);
    }
  }

  // ----- appending keeps a function in SSA form -----

  /** The block that x belongs to once b has been appended to p. */
  function Into(p: BlockId, b: BlockId, x: BlockId): BlockId
  {
    if x == b then p else x
  }

  lemma SplicedEdgeOf(f: Func, p: BlockId, b: BlockId, x: BlockId, y: BlockId)
    requires Joinable(f, p, b) && Edge(Spliced(f, p, b), x, y)
    ensures x != b && y != b && Edge(f, if x == p then b else x, y)
  {
    SplicedEdge(f, p, b, x, y);
  }

  lemma JointEdge(f: Func, p: BlockId, b: BlockId)
    requires Joinable(f, p, b)
    ensures Edge(f, p, b)
  {
    TermOf(f, p);
    SuccessorsOf(Term(f, p), 0);
  }

  /** A way around d after the merge is a way around d before it. */
  lemma {:induction false} AroundLifted(f: Func, p: BlockId, b: BlockId, d: BlockId, y: BlockId, n: nat) returns (m: nat)
    requires Joinable(f, p, b) && Around(Spliced(f, p, b), Into(p, b, d), y, n) && y != b
    ensures y != d && Around(f, d, y, m)
    decreases n
  {
    hide Joinable, Edge, Spliced;
    JoinableFacts(f, p, b);
    var g := Spliced(f, p, b);
    assert g.entry == f.entry by { SplicedEntry(f, p, b); }
    if y == f.entry {
      m := 0;
    } else {
      var c :| Edge(g, c, y) && Around(g, Into(p, b, d), c, n - 1);
      SplicedEdgeOf(f, p, b, c, y);
      m := AroundLifted(f, p, b, d, c, n - 1);
      if c == p {
        JointEdge(f, p, b);
        assert d != b && Around(f, d, b, m + 1);
        m := m + 2;
      } else {
        m := m + 1;
      }
    }
  }

  lemma SplicedEntry(f: Func, p: BlockId, b: BlockId)
    ensures Spliced(f, p, b).entry == f.entry
  {
  }

  lemma DominatesSpliced(f: Func, p: BlockId, b: BlockId, d: BlockId, x: BlockId)
    requires Joinable(f, p, b) && Dominates(f, d, x)
    ensures Dominates(Spliced(f, p, b), Into(p, b, d), Into(p, b, x))
  {
    hide Joinable, Edge, Spliced, Around;
    forall n: nat ensures !Around(Spliced(f, p, b), Into(p, b, d), Into(p, b, x), n) {
      if Around(Spliced(f, p, b), Into(p, b, d), Into(p, b, x), n) {
        var m := AroundBefore(f, p, b, d, x, n);
      }
    }
  }

  lemma AroundBefore(f: Func, p: BlockId, b: BlockId, d: BlockId, x: BlockId, n: nat) returns (m: nat)
    requires Joinable(f, p, b) && Around(Spliced(f, p, b), Into(p, b, d), Into(p, b, x), n)
    ensures Around(f, d, x, m)
  {
    hide Joinable, Edge, Spliced;
    JoinableFacts(f, p, b);
    m := AroundLifted(f, p, b, d, Into(p, b, x), n);
    if x == b {
      JointEdge(f, p, b);
      m := m + 1;
    }
  }

  lemma SplicedUse(f: Func, p: BlockId, b: BlockId, x: InstId)
    requires Joinable(f, p, b) && x in Spliced(f, p, b).insts
    ensures var g := Spliced(f, p, b);
            && x in f.insts && IsPhi(g, x) == IsPhi(f, x) && g.insts[x] == RenameIncoming(f.insts[x], b, p)
            && g.insts[x].operands == f.insts[x].operands && Home(g, x) == Into(p, b, Home(f, x))
            && (IsPhi(f, x) ==> Home(f, x) != b)
  {
    hide PhisFit, Edge, Term, EndsWell, NoDup;
    JoinableFacts(f, p, b);
    SplicedInst(f, p, b, x);
    RenameFacts(f.insts[x], b, p);
    InstPlace(f, x);
    SplicedShape(f, p, b);
    hide Spliced;
  }

  lemma SplicedSSA(f: Func, p: BlockId, b: BlockId)
    requires Joinable(f, p, b) && SSA(f)
    ensures SSA(Spliced(f, p, b))
  {
    hide Joinable, Dominates, Spliced, RenameIncoming, Home;
    var g := Spliced(f, p, b);
    forall x, j | x in g.insts && !IsPhi(g, x) && Operand.Use(j) in g.insts[x].operands && j in g.insts
      ensures Dominates(g, Home(g, j), Home(g, x))
    {
      SplicedUse(f, p, b, x);
      SplicedUse(f, p, b, j);
      DominatesSpliced(f, p, b, Home(f, j), Home(f, x));
    }
    forall y, k, a, j | PhiUses(g, y, k, a, Operand.Use(j)) && j in g.insts ensures Dominates(g, Home(g, j), a) {
      SplicedUse(f, p, b, y);
      SplicedUse(f, p, b, j);
      var c := RenamedUse(f, p, b, y, k, a, Operand.Use(j));
      DominatesSpliced(f, p, b, Home(f, j), c);
    }
  }

  /** The entry of a PHI that has been renamed to a. */
  lemma RenamedUse(f: Func, p: BlockId, b: BlockId, y: InstId, k: int, a: BlockId, o: Operand) returns (c: BlockId)
    requires Joinable(f, p, b) && PhiUses(Spliced(f, p, b), y, k, a, o)
    ensures PhiUses(f, y, k, c, o) && Into(p, b, c) == a && c == if a == p then b else a
  {
    hide Joinable, Spliced, Edge, Home;
    SplicedUse(f, p, b, y);
    c := f.insts[y].op.incoming[k];
    NoEntryForP(f, p, b, y);
    NotListed(f.insts[y].op.incoming, p, k);
  }

  lemma NotListed(ins: seq<BlockId>, p: BlockId, k: int)
    requires p !in ins && 0 <= k < |ins|
    ensures ins[k] != p
  {
  }

  /** p goes to b alone, and b has no PHIs; so no PHI has an entry for p. */
  lemma NoEntryForP(f: Func, p: BlockId, b: BlockId, y: InstId)
    requires Joinable(f, p, b) && IsPhi(f, y) && Home(f, y) != b
    ensures p !in f.insts[y].op.incoming
  {
    hide Edge, Term;
    JoinableFacts(f, p, b);
    EntryIsEdge(f, y, p);
  }

  lemma RenamedEntries(ins: seq<BlockId>, b: BlockId, p: BlockId, a: BlockId)
    requires p !in ins && p != b
    ensures a in seq(|ins|, k requires 0 <= k < |ins| => if ins[k] == b then p else ins[k]) <==>
            a != b && (if a == p then b else a) in ins
  {
    var renamed := seq(|ins|, k requires 0 <= k < |ins| => if ins[k] == b then p else ins[k]);
    var c := if a == p then b else a;
    if a in renamed {
      var k :| 0 <= k < |renamed| && renamed[k] == a;
      assert ins[k] in ins && ins[k] == c;
    }
    if a != b && c in ins {
      var k :| 0 <= k < |ins| && ins[k] == c;
      assert renamed[k] == a;
    }
  }

  lemma SplicedFits(f: Func, p: BlockId, b: BlockId)
    requires Joinable(f, p, b)
    ensures PhisFit(Spliced(f, p, b))
  {
    hide Joinable, Spliced, Edge, Home;
    var g := Spliced(f, p, b);
    forall y, a | IsPhi(g, y) ensures Edge(g, a, Home(g, y)) <==> a in g.insts[y].op.incoming {
      SplicedUse(f, p, b, y);
      NoEntryForP(f, p, b, y);
      JoinableFacts(f, p, b);
      RenamedEntries(f.insts[y].op.incoming, b, p, a);
      SplicedEdgeExact(f, p, b, a, Home(f, y));
      FitsAt(f, p, b, y, if a == p then b else a);
      FitsAt(f, p, b, y, p);
    }
    forall y, k, l, a, o, o' | PhiUses(g, y, k, a, o) && PhiUses(g, y, l, a, o') ensures o == o' {
      var c := RenamedUse(f, p, b, y, k, a, o);
      var d := RenamedUse(f, p, b, y, l, a, o');
      JoinableUnique(f, p, b, y, k, l, c, o, o');
    }
  }

  lemma SplicedEdgeExact(f: Func, p: BlockId, b: BlockId, x: BlockId, y: BlockId)
    requires Joinable(f, p, b)
    ensures Edge(Spliced(f, p, b), x, y) <==> x != b && Edge(f, if x == p then b else x, y)
  {
    SplicedEdge(f, p, b, x, y);
  }

  lemma FitsAt(f: Func, p: BlockId, b: BlockId, y: InstId, a: BlockId)
    requires Joinable(f, p, b) && IsPhi(f, y)
    ensures a in f.insts[y].op.incoming <==> Edge(f, a, Home(f, y))
  {
    EntryIsEdge(f, y, a);
  }

  lemma JoinableUnique(f: Func, p: BlockId, b: BlockId, y: InstId, k: int, l: int, c: BlockId, o: Operand, o': Operand)
    requires Joinable(f, p, b) && PhiUses(f, y, k, c, o) && PhiUses(f, y, l, c, o')
    ensures o == o'
  {
    hide Edge, Term, Valid, Home;
  }

  lemma ProperSpliced(f: Func, p: BlockId, b: BlockId)
    requires Proper(f) && Joinable(f, p, b)
    ensures Proper(Spliced(f, p, b)) && Spliced(f, p, b).entry == f.entry
  {
    hide Spliced, Valid, AllReachable, SSA, PhisFit, Spliceable, NoPhis;
    JoinableFacts(f, p, b);
    SplicedValid(f, p, b);
    SplicedReachable(f, p, b);
    SplicedSSA(f, p, b);
    SplicedFits(f, p, b);
    SplicedEntry(f, p, b);
  }

  // ----- merges -----

  lemma PhiIsFoldable(f: Func, p: BlockId, b: BlockId, i: InstId)
    requires Proper(f) && Spliceable(f, p, b) && PhiIn(f, b, i)
    ensures Foldable(f, p, b, i)
  {
    hide Valid, SSA, PhisFit, AllReachable;
    SpliceEdge(f, p, b);
  }

  lemma SpliceEdge(f: Func, p: BlockId, b: BlockId)
    requires Spliceable(f, p, b)
    ensures Edge(f, p, b)
  {
    SuccessorsOf(Term(f, p), 0);
  }

  /** All PHIs of a block can be folded, in any order. */
  lemma {:induction false} FoldsUnnoticed<W(!new)>(f: Func, p: BlockId, b: BlockId, phis: seq<InstId>, cb: InstId, m: Machine<W>,
                                                   env: Env, w0: W, w: W, t: seq<Event>)
    requires Proper(f) && Spliceable(f, p, b) && FoldsIn(f, b, phis)
    ensures var g := FoldSeq(f, phis);
            && Proper(g) && Spliceable(g, p, b) && g.entry == f.entry
            && (Finishes(f, m, At(f.entry, 0, env, w0), cb, w, t) <==> Finishes(g, m, At(f.entry, 0, env, w0), cb, w, t))
    decreases |phis|
  {
    hide Proper, Spliceable, Finishes, FoldPhi, PhiIn;
    if phis != [] {
      var rest, i := phis[..|phis| - 1], phis[|phis| - 1];
      var h := FoldSeq(f, rest);
      FoldsUnnoticed(f, p, b, rest, cb, m, env, w0, w, t);
      PhiIsFoldable(h, p, b, i);
      FoldUnnoticed(h, p, b, i, cb, m, env, w0, w, t);
      ProperFolded(h, p, b, i);
      StillSpliceable(h, p, b, i);
    }
  }

  lemma StillSpliceable(f: Func, p: BlockId, b: BlockId, i: InstId)
    requires Proper(f) && Spliceable(f, p, b) && PhiIn(f, b, i)
    ensures Spliceable(FoldPhi(f, i), p, b)
  {
    hide Valid, Spliceable, FoldPhi;
    FoldSpliceable(f, p, b, i);
  }

  /** MergeBlockIntoPredecessor cannot be noticed, and leaves a proper function. */
  lemma MergeUnnoticed<W(!new)>(f: Func, p: BlockId, b: BlockId, phis: seq<InstId>, g: Func, cb: InstId, m: Machine<W>,
                                env: Env, w0: W, w: W, t: seq<Event>)
    requires Proper(f) && MergedBy(f, p, b, phis, g)
    ensures Proper(g) && g.entry == f.entry
    ensures Finishes(f, m, At(f.entry, 0, env, w0), cb, w, t) <==> Finishes(g, m, At(f.entry, 0, env, w0), cb, w, t)
  {
    hide Proper, Spliceable, Finishes, FoldSeq, Spliced, PhiIn, FoldsIn;
    var h := FoldSeq(f, phis);
    FoldsUnnoticed(f, p, b, phis, cb, m, env, w0, w, t);
    FoldedIsJoinable(h, p, b);
    SpliceUnnoticed(h, p, b, cb, m, env, w0, w, t);
    ProperSpliced(h, p, b);
  }

  lemma FoldedIsJoinable(f: Func, p: BlockId, b: BlockId)
    requires Proper(f) && Spliceable(f, p, b) && forall i :: !PhiIn(f, b, i)
    ensures Joinable(f, p, b)
  {
    hide Valid, AllReachable, SSA, PhisFit, Spliceable;
    assert forall i :: b in f.blocks && i in f.blocks[b] && IsPhi(f, i) ==> PhiIn(f, b, i);
  }

  /** Nor can any number of merges: simplifyCFG keeps the meaning of a function in SSA form. */
  lemma {:induction false} MergesUnnoticed<W(!new)>(f: Func, g: Func, n: nat, cb: InstId, m: Machine<W>,
                                                    env: Env, w0: W, w: W, t: seq<Event>)
    requires Proper(f) && MergedIn(f, g, n)
    ensures Proper(g) && g.entry == f.entry
    ensures Finishes(f, m, At(f.entry, 0, env, w0), cb, w, t) <==> Finishes(g, m, At(f.entry, 0, env, w0), cb, w, t)
    decreases n
  {
    hide Proper, Finishes, MergedBy;
    if n > 0 {
      var h :| MergedIn(f, h, n - 1) && OneMerge(h, g);
      MergesUnnoticed(f, h, n - 1, cb, m, env, w0, w, t);
      var p, b, phis :| MergedBy(h, p, b, phis, g);
      MergeUnnoticed(h, p, b, phis, g, cb, m, env, w0, w, t);
    }
  }
}
