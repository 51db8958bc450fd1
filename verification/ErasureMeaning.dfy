/** Erasing a check call where it stands, with its dead slice, preserves the meaning of the function. */
module ErasureMeaning {
  import opened IR
  import opened Bypass
  import opened SliceSpec
  import opened Health
  import opened Semantics
  import opened BypassMeaning

  ghost predicate SameOutside(gone: set<InstId>, e: Env, e': Env)
  {
    forall i: InstId :: i !in gone ==> (i in e <==> i in e') && (i in e ==> e[i] == e'[i])
  }

  /** The erased instructions leave the world alone and show nothing but reports of cb. */
  ghost predicate Silent<W(!new)>(gone: set<InstId>, cb: InstId, m: Machine<W>)
  {
    forall i, args: seq<int>, w: W :: i in gone ==>
      m.exec(i, args, w).world == w && forall e :: e in m.exec(i, args, w).events ==> e == Report(cb)
  }

  ghost predicate MayErase<W(!new)>(f: Func, gone: set<InstId>, cb: InstId, m: Machine<W>)
  {
    Valid(f) && Detached(f, gone) && Silent(gone, cb, m)
  }

  /** Where position pc of a block ends up. */
  function Position(ks: seq<InstId>, gone: set<InstId>, pc: nat): nat
    requires pc <= |ks|
  {
    |Removed(ks[..pc], gone)|
  }

  ghost predicate Running<W>(f: Func, c: Config<W>)
  {
    c.At? ==> c.block in f.blocks && c.pc < |f.blocks[c.block]|
  }

  ghost predicate Matches<W>(f: Func, gone: set<InstId>, c: Config<W>, c': Config<W>)
  {
    && Running(f, c)
    && match c
       case Stopped(w) => c' == c
       case At(b, pc, env, w) =>
         && c'.At? && c'.block == b && c'.world == w && SameOutside(gone, env, c'.env)
         && c'.pc == Position(f.blocks[b], gone, pc)
  }

  lemma PositionStep(ks: seq<InstId>, gone: set<InstId>, pc: nat)
    requires pc < |ks|
    ensures Position(ks, gone, pc + 1) == Position(ks, gone, pc) + if ks[pc] in gone then 0 else 1
    ensures ks[pc] !in gone ==> Position(ks, gone, pc) < |Removed(ks, gone)| && Removed(ks, gone)[Position(ks, gone, pc)] == ks[pc]
  {
    RemovedConcat(ks[..pc], [ks[pc]], gone);
    assert ks[..pc + 1] == ks[..pc] + [ks[pc]];
    RemovedConcat(ks[..pc], ks[pc..], gone);
    assert ks == ks[..pc] + ks[pc..];
  }

  lemma ValuesSame(f: Func, gone: set<InstId>, e: Env, e': Env, j: InstId)
    requires SameOutside(gone, e, e') && Detached(f, gone) && j in f.insts && j !in gone
    ensures Args(f.insts[j].operands, e) == Args(f.insts[j].operands, e')
    ensures forall o :: o in f.insts[j].operands ==> Eval(o, e) == Eval(o, e')
  {
    forall o | o in f.insts[j].operands ensures Eval(o, e) == Eval(o, e') {
      assert o.Use? ==> o.id !in gone;
    }
  }

  lemma EnterSameOutside(f: Func, gone: set<InstId>, e: Env, e': Env, from: BlockId, to: BlockId)
    requires Detached(f, gone) && SameOutside(gone, e, e')
    ensures SameOutside(gone, Enter(f, e, from, to), Enter(Minus(f, gone), e', from, to))
  {
    var g := Minus(f, gone);
    if to in f.blocks {
      forall i: InstId | i !in gone
        ensures i in f.blocks[to] && IsPhi(f, i) <==> i in g.blocks[to] && IsPhi(g, i)
        ensures i in f.blocks[to] && IsPhi(f, i) ==>
                  Eval(Incoming(f.insts[i].op.incoming, f.insts[i].operands, from), e)
                  == Eval(Incoming(f.insts[i].op.incoming, f.insts[i].operands, from), e')
      {
        RemovedMembers(f.blocks[to], gone, i);
        if IsPhi(f, i) {
          ValuesSame(f, gone, e, e', i);
          IncomingMember(f.insts[i].op.incoming, f.insts[i].operands, from);
        }
      }
    }
  }

  lemma StopsSame<W>(f: Func, gone: set<InstId>, w: W)
    ensures Matches(f, gone, Stopped(w), Stopped(w))
  {
  }

  /** Jumping in both functions. */
  lemma JumpSame<W>(f: Func, gone: set<InstId>, e: Env, e': Env, w: W, from: BlockId, to: BlockId)
    requires Valid(f) && Detached(f, gone) && SameOutside(gone, e, e') && to in f.blocks
    ensures Matches(f, gone, Goto(f, e, w, from, to), Goto(Minus(f, gone), e', w, from, to))
  {
    EnterSameOutside(f, gone, e, e', from, to);
    TermOf(f, to);
    hide Valid, Detached, SameOutside, Enter;
    assert f.blocks[to][..0] == [];
  }

  ghost predicate AtErased<W>(f: Func, gone: set<InstId>, c: Config<W>)
  {
    c.At? && c.block in f.blocks && c.pc < |f.blocks[c.block]| && f.blocks[c.block][c.pc] in gone
  }

  /** A surviving invoke, switch or return. */
  lemma SwitchSame<W(!new)>(f: Func, gone: set<InstId>, m: Machine<W>, b: BlockId, e: Env, e': Env, w: W, pc: nat, pc': nat,
                            i: InstId, inst: Inst)
    requires Valid(f) && Detached(f, gone) && b in f.blocks && SameOutside(gone, e, e')
    requires inst.op.Invoke? || inst.op.OtherTerm?
    requires Args(inst.operands, e) == Args(inst.operands, e') && forall d :: d in Successors(inst.op) ==> d in f.blocks
    ensures
      var s, s' := StepInst(f, m, b, pc, e, w, i, inst), StepInst(Minus(f, gone), m, b, pc', e', w, i, inst);
      s.1 == s'.1 && Matches(f, gone, s.0, s'.0)
  {
    hide Valid, Detached, Goto, Matches, Args, Minus;
    var o := m.exec(i, Args(inst.operands, e), w);
    var ds := Successors(inst.op);
    if 0 <= o.go < |ds| {
      assert ds[o.go] in ds;
      JumpSame(f, gone, e[i := o.value], e'[i := o.value], o.world, b, ds[o.go]);
    } else {
      StopsSame(f, gone, o.world);
    }
  }

  /** A surviving terminator. */
  lemma BranchSame<W(!new)>(f: Func, gone: set<InstId>, m: Machine<W>, b: BlockId, e: Env, e': Env, w: W, pc: nat, pc': nat)
    requires Valid(f) && Detached(f, gone) && b in f.blocks && SameOutside(gone, e, e')
    requires var i := TermId(f, b);
      i in f.insts && i !in gone && IsTerminator(f.insts[i].op)
    ensures
      var i := TermId(f, b);
      var s, s' := StepInst(f, m, b, pc, e, w, i, f.insts[i]), StepInst(Minus(f, gone), m, b, pc', e', w, i, f.insts[i]);
      s.1 == s'.1 && Matches(f, gone, s.0, s'.0)
  {
    var i := TermId(f, b);
    var inst := f.insts[i];
    TermOf(f, b);
    ValuesSame(f, gone, e, e', i);
    assert forall d :: d in Successors(inst.op) ==> d in f.blocks;
    hide Valid, Detached, Goto, Matches, Term, TermId, Args, Eval, Minus, SameOutside;
    if inst.op.Br? {
      JumpSame(f, gone, e, e', w, b, inst.op.dest);
    } else if inst.op.CondBr? {
      assert |inst.operands| > 0 ==> inst.operands[0] in inst.operands;
      var d := if |inst.operands| > 0 && Eval(inst.operands[0], e) != 0 then inst.op.ifTrue else inst.op.ifFalse;
      JumpSame(f, gone, e, e', w, b, d);
    } else if inst.op.Unreachable? {
      StopsSame(f, gone, w);
    } else {
      SwitchSame(f, gone, m, b, e, e', w, pc, pc', i, inst);
    }
  }

  /** Any other surviving instruction. */
  lemma InstSame<W(!new)>(f: Func, gone: set<InstId>, m: Machine<W>, b: BlockId, e: Env, e': Env, w: W, pc: nat, pc': nat)
    requires Detached(f, gone) && b in f.blocks && pc + 1 < |f.blocks[b]| && SameOutside(gone, e, e')
    requires pc' == Position(f.blocks[b], gone, pc)
    requires var i := f.blocks[b][pc];
      i in f.insts && i !in gone && !IsTerminator(f.insts[i].op)
    ensures
      var i := f.blocks[b][pc];
      var s, s' := StepInst(f, m, b, pc, e, w, i, f.insts[i]), StepInst(Minus(f, gone), m, b, pc', e', w, i, f.insts[i]);
      s.1 == s'.1 && Matches(f, gone, s.0, s'.0)
  {
    var i := f.blocks[b][pc];
    PositionStep(f.blocks[b], gone, pc);
    ValuesSame(f, gone, e, e', i);
    hide Detached, Position, Removed, Args, Eval;
  }

  /** A surviving instruction is executed by both functions alike. */
  lemma StepSurvives<W(!new)>(f: Func, gone: set<InstId>, cb: InstId, m: Machine<W>, c: Config<W>, c': Config<W>)
    requires MayErase(f, gone, cb, m) && Matches(f, gone, c, c') && !AtErased(f, gone, c)
    ensures Step(f, m, c).1 == Step(Minus(f, gone), m, c').1
    ensures Matches(f, gone, Step(f, m, c).0, Step(Minus(f, gone), m, c').0)
  {
    hide Valid, Detached, Silent, Position, Removed, StepInst, SameOutside, Term;
    if c.At? {
      var b, pc := c.block, c.pc;
      var ks := f.blocks[b];
      LastIsTerm(f, b, pc);
      PositionStep(ks, gone, pc);
      assert Step(f, m, c) == StepInst(f, m, b, pc, c.env, c.world, ks[pc], f.insts[ks[pc]]);
      assert Step(Minus(f, gone), m, c') == StepInst(Minus(f, gone), m, b, c'.pc, c'.env, c.world, ks[pc], f.insts[ks[pc]]);
      if pc == |ks| - 1 {
        BranchSame(f, gone, m, b, c.env, c'.env, c.world, pc, c'.pc);
      } else {
        InstSame(f, gone, m, b, c.env, c'.env, c.world, pc, c'.pc);
      }
    }
  }

  /** An erased instruction is executed by the old function alone. */
  lemma StepErased<W(!new)>(f: Func, gone: set<InstId>, cb: InstId, m: Machine<W>, c: Config<W>, c': Config<W>)
    requires MayErase(f, gone, cb, m) && Matches(f, gone, c, c') && c.At? && f.blocks[c.block][c.pc] in gone
    ensures EraseReports(Step(f, m, c).1, cb) == []
    ensures Matches(f, gone, Step(f, m, c).0, c')
    ensures var d := Step(f, m, c).0; d.At? && d.block == c.block && d.pc == c.pc + 1
  {
    var i := f.blocks[c.block][c.pc];
    LastIsTerm(f, c.block, c.pc);
    PositionStep(f.blocks[c.block], gone, c.pc);
    hide Valid, Position, Removed;
    var o := m.exec(i, Args(f.insts[i].operands, c.env), c.world);
    if !f.insts[i].op.Phi? {
      EraseOnlyReports(o.events, cb);
    }
  }

  /** Every run of the old function is matched by a run of the new one with the same trace up to reports of cb. */
  lemma {:induction false} ErasureForward<W(!new)>(f: Func, gone: set<InstId>, cb: InstId, m: Machine<W>,
                                                   c: Config<W>, c': Config<W>, n: nat)
    returns (k: nat)
    requires MayErase(f, gone, cb, m) && Matches(f, gone, c, c')
    ensures k <= n
    ensures Matches(f, gone, Steps(f, m, c, n).0, Steps(Minus(f, gone), m, c', k).0)
    ensures EraseReports(Steps(f, m, c, n).1, cb) == EraseReports(Steps(Minus(f, gone), m, c', k).1, cb)
  {
    hide MayErase, Matches, Step;
    if n == 0 {
      k := 0;
    } else {
      k := ErasureForward(f, gone, cb, m, c, c', n - 1);
      var (d, e) := Steps(f, m, c, n - 1);
      var (d', e') := Steps(Minus(f, gone), m, c', k);
      EraseConcat(e, Step(f, m, d).1, cb);
      if AtErased(f, gone, d) {
        StepErased(f, gone, cb, m, d, d');
      } else {
        StepSurvives(f, gone, cb, m, d, d');
        EraseConcat(e', Step(Minus(f, gone), m, d').1, cb);
        k := k + 1;
      }
    }
  }

  /** The old run passes over erased instructions in finitely many steps. */
  lemma {:induction false} PassesErased<W(!new)>(f: Func, gone: set<InstId>, cb: InstId, m: Machine<W>,
                                                 c: Config<W>, c': Config<W>, n: nat)
    returns (n': nat)
    requires MayErase(f, gone, cb, m) && Matches(f, gone, Steps(f, m, c, n).0, c')
    ensures n' >= n && Matches(f, gone, Steps(f, m, c, n').0, c') && !AtErased(f, gone, Steps(f, m, c, n').0)
    ensures EraseReports(Steps(f, m, c, n').1, cb) == EraseReports(Steps(f, m, c, n).1, cb)
    decreases var d := Steps(f, m, c, n).0; if d.At? && d.block in f.blocks then |f.blocks[d.block]| - d.pc else 0
  {
    hide MayErase, Step;
    var (d, e) := Steps(f, m, c, n);
    n' := n;
    if AtErased(f, gone, d) {
      StepErased(f, gone, cb, m, d, c');
      EraseConcat(e, Step(f, m, d).1, cb);
      assert Steps(f, m, c, n + 1).0 == Step(f, m, d).0;
      n' := PassesErased(f, gone, cb, m, c, c', n + 1);
    }
  }

  /** Conversely, every run of the new function comes from a run of the old one. */
  lemma {:induction false} ErasureBackward<W(!new)>(f: Func, gone: set<InstId>, cb: InstId, m: Machine<W>,
                                                    c: Config<W>, c': Config<W>, k: nat)
    returns (n: nat)
    requires MayErase(f, gone, cb, m) && Matches(f, gone, c, c')
    ensures k <= n
    ensures Matches(f, gone, Steps(f, m, c, n).0, Steps(Minus(f, gone), m, c', k).0)
    ensures EraseReports(Steps(f, m, c, n).1, cb) == EraseReports(Steps(Minus(f, gone), m, c', k).1, cb)
  {
    hide MayErase, Step;
    if k == 0 {
      n := 0;
    } else {
      var (d', e') := Steps(Minus(f, gone), m, c', k - 1);
      n := ErasureBackward(f, gone, cb, m, c, c', k - 1);
      n := PassesErased(f, gone, cb, m, c, d', n);
      var (d, e) := Steps(f, m, c, n);
      StepSurvives(f, gone, cb, m, d, d');
      EraseConcat(e, Step(f, m, d).1, cb);
      EraseConcat(e', Step(Minus(f, gone), m, d').1, cb);
      n := n + 1;
    }
  }

  /** Started at the head of a block, both functions finish in the same worlds with the same traces. */
  lemma ErasureUnnoticed<W(!new)>(f: Func, gone: set<InstId>, cb: InstId, m: Machine<W>, b: BlockId, env: Env, w0: W,
                                  w: W, t: seq<Event>)
    requires MayErase(f, gone, cb, m) && b in f.blocks
    ensures Finishes(f, m, At(b, 0, env, w0), cb, w, t) <==> Finishes(Minus(f, gone), m, At(b, 0, env, w0), cb, w, t)
  {
    var c := At(b, 0, env, w0);
    TermOf(f, b);
    assert f.blocks[b][..0] == [];
    assert Matches(f, gone, c, c);
    hide MayErase;
    if Finishes(f, m, c, cb, w, t) {
      var n: nat :| Steps(f, m, c, n).0 == Stopped(w) && EraseReports(Steps(f, m, c, n).1, cb) == t;
      var k := ErasureForward(f, gone, cb, m, c, c, n);
      assert Steps(Minus(f, gone), m, c, k).0 == Stopped(w);
    }
    if Finishes(Minus(f, gone), m, c, cb, w, t) {
      var k: nat :| Steps(Minus(f, gone), m, c, k).0 == Stopped(w) && EraseReports(Steps(Minus(f, gone), m, c, k).1, cb) == t;
      var n := ErasureBackward(f, gone, cb, m, c, c, k);
      assert Steps(f, m, c, n).0 == Stopped(w);
    }
  }

  /**
   What the slice remover erases when it cannot bypass a block, the unused check call cb and then the
   least erasable part of its slice, may be erased.
   */
  lemma CheckAndSliceMayGo<W(!new)>(f: Func, cb: InstId, slice: set<InstId>, gone: set<InstId>, m: Machine<W>)
    requires Valid(f) && cb in f.insts && f.insts[cb].op.Call? && Unused(f, cb)
    requires IsLeastErasure(Minus(f, {cb}), slice, gone)
    requires Silent(gone + {cb}, cb, m)
    ensures MayErase(f, {cb} + gone, cb, m)
  {
    hide Valid, Silent, Removed;
    assert {cb} + gone == gone + {cb};
    var g := Minus(f, {cb});
    LeastIsDetached(g, slice, gone);
    assert forall i :: i in g.insts ==> g.insts[i] == f.insts[i];
  }

  /** Removing a check where it stands cannot be noticed, except that its reports are missing. */
  lemma CheckRemovalUnnoticed<W(!new)>(f: Func, cb: InstId, slice: set<InstId>, gone: set<InstId>, m: Machine<W>,
                                       env: Env, w0: W, w: W, t: seq<Event>)
    requires Valid(f) && cb in f.insts && f.insts[cb].op.Call? && Unused(f, cb)
    requires IsLeastErasure(Minus(f, {cb}), slice, gone) && Silent(gone + {cb}, cb, m)
    ensures Finishes(f, m, At(f.entry, 0, env, w0), cb, w, t)
      <==> Finishes(Minus(Minus(f, {cb}), gone), m, At(f.entry, 0, env, w0), cb, w, t)
  {
    hide Silent, IsLeastErasure, Finishes, Minus, Placed, EndsWell, Unused;
    CheckAndSliceMayGo(f, cb, slice, gone, m);
    MinusTwice(f, {cb}, gone);
    ErasureUnnoticed(f, {cb} + gone, cb, m, f.entry, env, w0, w, t);
  }
}
