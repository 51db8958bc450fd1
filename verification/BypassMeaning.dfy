/** Bypassing a report block preserves the meaning of the function. */
module BypassMeaning {
  import opened IR
  import opened Bypass
  import opened Semantics

  lemma {:induction false} DropKeepsOthers(incoming: seq<BlockId>, operands: seq<Operand>, gone: set<BlockId>, from: BlockId)
    requires from !in gone
    ensures Incoming(DropBlocks(incoming, gone), DropOperands(incoming, operands, gone), from) == Incoming(incoming, operands, from)
  {
    if incoming != [] && operands != [] {
      DropKeepsOthers(incoming[1..], operands[1..], gone, from);
      if incoming[0] in gone {
        assert DropBlocks(incoming, gone) == DropBlocks(incoming[1..], gone);
        assert DropOperands(incoming, operands, gone) == DropOperands(incoming[1..], operands[1..], gone);
      } else {
        assert DropBlocks(incoming, gone)[1..] == DropBlocks(incoming[1..], gone);
        assert DropOperands(incoming, operands, gone)[1..] == DropOperands(incoming[1..], operands[1..], gone);
      }
    }
  }

  ghost predicate InBlock(f: Func, i: InstId, r: BlockId)
  {
    i in f.parent && f.parent[i] == r
  }

  /** PHIs of other blocks read the same values on every edge that does not come from r. */
  lemma EnterSame(f: Func, r: BlockId, env: Env, from: BlockId, to: BlockId)
    requires Valid(f) && from != r && to != r
    ensures Enter(Bypassed(f, r), env, from, to) == Enter(f, env, from, to)
  {
    hide Valid, Bypassed, Edge, DropIncoming;
    var g := Bypassed(f, r);
    BypassedShape(f, r);
    if to in f.blocks {
      forall i | i in f.blocks[to]
        ensures IsPhi(g, i) <==> IsPhi(f, i)
        ensures IsPhi(f, i) ==> Incoming(g.insts[i].op.incoming, g.insts[i].operands, from) ==
                                Incoming(f.insts[i].op.incoming, f.insts[i].operands, from)
      {
        BypassedInst(f, r, to, i);
        DropKind(f.insts[i], r, from);
      }
    }
  }

  lemma DropKind(i: Inst, r: BlockId, from: BlockId)
    requires from != r
    ensures var d := DropIncoming(i, {r});
            && d.op.Phi? == i.op.Phi?
            && (i.op.Phi? ==> Incoming(d.op.incoming, d.operands, from) == Incoming(i.op.incoming, i.operands, from))
            && (!i.op.Phi? ==> d == i)
  {
    if i.op.Phi? {
      DropKeepsOthers(i.op.incoming, i.operands, {r}, from);
    }
  }

  // ----- runs that never enter the report block -----

  ghost predicate Outside<W>(f: Func, r: BlockId, c: Config<W>)
  {
    c.At? ==> c.block != r
  }

  /** A step that stays away from r is the same step afterwards. */
  lemma StepSame<W>(f: Func, r: BlockId, cb: InstId, m: Machine<W>, c: Config<W>)
    requires Valid(f) && CanBypass(f, r, cb) && Outside(f, r, c) && Outside(f, r, Step(f, m, c).0)
    ensures Step(Bypassed(f, r), m, c) == Step(f, m, c)
  {
    hide Valid, CanBypass, Bypassed, Enter, DropIncoming;
    var g := Bypassed(f, r);
    BypassedShape(f, r);
    if c.At? && c.block in f.blocks && c.pc < |f.blocks[c.block]| {
      var i := f.blocks[c.block][c.pc];
      BypassedInst(f, r, c.block, i);
      DropKind(f.insts[i], r, c.block);
      var c' := Step(f, m, c).0;
      if IsTerminator(f.insts[i].op) {
        TermOf(f, c.block);
        if Edge(f, c.block, r) {
          SafeIsNear(f, r, cb, c.block);
        }
        if c'.At? {
          forall env: Env ensures Enter(g, env, c.block, c'.block) == Enter(f, env, c.block, c'.block) {
            EnterSame(f, r, env, c.block, c'.block);
          }
        }
      }
    }
  }

  /** Every run that never enters the report block is, step for step, a run of the rewritten function. */
  lemma {:induction false} NeverReports<W>(f: Func, r: BlockId, cb: InstId, m: Machine<W>, c: Config<W>, n: nat)
    requires Valid(f) && CanBypass(f, r, cb)
    requires forall k: nat :: k <= n ==> Outside(f, r, Steps(f, m, c, k).0)
    ensures Steps(Bypassed(f, r), m, c, n) == Steps(f, m, c, n)
  {
    hide Valid, CanBypass, Bypassed, Step, Outside;
    if n > 0 {
      NeverReports(f, r, cb, m, c, n - 1);
      assert Outside(f, r, Steps(f, m, c, n - 1).0) && Outside(f, r, Steps(f, m, c, n).0);
      StepSame(f, r, cb, m, Steps(f, m, c, n - 1).0);
    }
  }

  // ----- report blocks that fall through -----

  ghost predicate Agree(f: Func, r: BlockId, e: Env, e': Env)
  {
    forall i: InstId :: !InBlock(f, i, r) ==> (i in e <==> i in e') && (i in e ==> e[i] == e'[i])
  }

  /** No value defined in r is used outside r. */
  ghost predicate Contained(f: Func, r: BlockId)
  {
    forall j, i: InstId :: j in f.insts && !InBlock(f, j, r) && Use(i) in f.insts[j].operands ==> !InBlock(f, i, r)
  }

  ghost predicate NoPhis(f: Func, b: BlockId)
  {
    b in f.blocks ==> forall i :: i in f.blocks[b] ==> !IsPhi(f, i)
  }

  /** Executing the report block returns, leaves the world alone and shows nothing but reports of cb. */
  ghost predicate Quiet<W(!new)>(f: Func, r: BlockId, cb: InstId, m: Machine<W>)
  {
    r in f.blocks ==>
      forall i, args: seq<int>, w: W :: i in f.blocks[r] ==>
        m.exec(i, args, w).world == w && forall e :: e in m.exec(i, args, w).events ==> e == Report(cb)
  }

  /** The assumptions under which a report block may be skipped. */
  ghost predicate Skippable<W(!new)>(f: Func, r: BlockId, cb: InstId, m: Machine<W>)
  {
    && Valid(f) && CanBypass(f, r, cb) && Fallthrough(f, r).Some?
    && Contained(f, r) && NoPhis(f, Fallthrough(f, r).value) && Quiet(f, r, cb, m)
  }

  ghost predicate Alike<W>(f: Func, r: BlockId, c: Config<W>, c': Config<W>)
  {
    match c
    case Stopped(w) => c' == c
    case At(b, pc, env, w) => c'.At? && c'.block == b && c'.pc == pc && c'.world == w && Agree(f, r, env, c'.env)
  }

  /** While the old run is inside the report block, the new one waits at the fallthrough block. */
  ghost predicate Related<W>(f: Func, r: BlockId, c: Config<W>, c': Config<W>)
  {
    if c.At? && c.block == r then
      && r in f.blocks && c.pc < |f.blocks[r]| && Fallthrough(f, r).Some? && Fallthrough(f, r).value != r
      && Alike(f, r, At(Fallthrough(f, r).value, 0, c.env, c.world), c')
    else Alike(f, r, c, c')
  }

  lemma EvalAgree(f: Func, r: BlockId, e: Env, e': Env, o: Operand)
    requires Agree(f, r, e, e') && (o.Use? ==> !InBlock(f, o.id, r))
    ensures Eval(o, e) == Eval(o, e')
  {
  }

  lemma ArgsAgree(f: Func, r: BlockId, e: Env, e': Env, j: InstId)
    requires Agree(f, r, e, e') && Contained(f, r) && j in f.insts && !InBlock(f, j, r)
    ensures Args(f.insts[j].operands, e) == Args(f.insts[j].operands, e')
    ensures forall o :: o in f.insts[j].operands ==> Eval(o, e) == Eval(o, e')
  {
    forall o | o in f.insts[j].operands ensures Eval(o, e) == Eval(o, e') {
      EvalAgree(f, r, e, e', o);
    }
  }

  lemma {:induction false} IncomingMember(incoming: seq<BlockId>, operands: seq<Operand>, from: BlockId)
    ensures Incoming(incoming, operands, from) == Value(0) || Incoming(incoming, operands, from) in operands
  {
    if incoming != [] && operands != [] && incoming[0] != from {
      IncomingMember(incoming[1..], operands[1..], from);
    }
  }

  lemma EnterAgree(f: Func, r: BlockId, e: Env, e': Env, from: BlockId, to: BlockId)
    requires Valid(f) && Contained(f, r) && Agree(f, r, e, e')
    ensures to != r ==> Agree(f, r, Enter(f, e, from, to), Enter(f, e', from, to))
    ensures to == r ==> Agree(f, r, Enter(f, e, from, to), e')
  {
    hide Valid, Contained, Eval, Incoming;
    if to in f.blocks {
      forall i | i in f.blocks[to] && IsPhi(f, i)
        ensures InBlock(f, i, r) <==> to == r
        ensures to != r ==> Eval(Incoming(f.insts[i].op.incoming, f.insts[i].operands, from), e) ==
                            Eval(Incoming(f.insts[i].op.incoming, f.insts[i].operands, from), e')
      {
        ListedIsPlaced(f, to, i);
        if to != r {
          ArgsAgree(f, r, e, e', i);
          IncomingMember(f.insts[i].op.incoming, f.insts[i].operands, from);
          EvalAgree(f, r, e, e', Value(0));
        }
      }
    }
  }

  lemma SetAgree(f: Func, r: BlockId, e: Env, e': Env, i: InstId, v: int)
    requires Agree(f, r, e, e')
    ensures Agree(f, r, e[i := v], e'[i := v])
  {
  }

  /** One step of the old function from two configurations that differ only in values of the report block. */
  lemma StepAgree<W>(f: Func, r: BlockId, cb: InstId, m: Machine<W>, c: Config<W>, c': Config<W>)
    requires Valid(f) && CanBypass(f, r, cb) && Contained(f, r) && Outside(f, r, c) && Alike(f, r, c, c')
    ensures Step(f, m, c).1 == Step(f, m, c').1
    ensures var d, d' := Step(f, m, c).0, Step(f, m, c').0;
            if d.At? && d.block == r then
              d'.At? && d'.block == r && d.pc == d'.pc == 0 && d.world == d'.world && Agree(f, r, d.env, c'.env) && c'.At?
            else Alike(f, r, d, d')
  {
    hide Valid, CanBypass, Contained, Agree, Enter, Eval, Args;
    if c.At? && c.block in f.blocks && c.pc < |f.blocks[c.block]| {
      var i := f.blocks[c.block][c.pc];
      ListedIsPlaced(f, c.block, i);
      ArgsAgree(f, r, c.env, c'.env, i);
      assert |f.insts[i].operands| > 0 ==> f.insts[i].operands[0] in f.insts[i].operands;
      if IsTerminator(f.insts[i].op) {
        TermOf(f, c.block);
        if Edge(f, c.block, r) {
          SafeIsNear(f, r, cb, c.block);
        }
      }
      var o := m.exec(i, Args(f.insts[i].operands, c.env), c.world);
      SetAgree(f, r, c.env, c'.env, i, o.value);
      var e, e' := c.env[i := o.value], c'.env[i := o.value];
      forall to ensures to != r ==> Agree(f, r, Enter(f, c.env, c.block, to), Enter(f, c'.env, c.block, to))
                ensures to == r ==> Agree(f, r, Enter(f, c.env, c.block, to), c'.env)
      {
        EnterAgree(f, r, c.env, c'.env, c.block, to);
      }
      forall to ensures to != r ==> Agree(f, r, Enter(f, e, c.block, to), Enter(f, e', c.block, to)) {
        EnterAgree(f, r, e, e', c.block, to);
      }
    }
  }

  /** A step that enters the report block becomes a jump to the fallthrough block. */
  lemma StepIntoReport<W(!new)>(f: Func, r: BlockId, cb: InstId, m: Machine<W>, c: Config<W>)
    requires Skippable(f, r, cb, m) && Outside(f, r, c) && !Outside(f, r, Step(f, m, c).0)
    ensures c.At? && Step(f, m, c).1 == [] && Step(f, m, c).0.world == c.world
    ensures Fallthrough(f, r).value != r && r in f.blocks && |f.blocks[r]| > 0
    ensures Step(Bypassed(f, r), m, c) == (At(Fallthrough(f, r).value, 0, c.env, c.world), [])
  {
    hide Valid, CanBypass, Bypassed, Contained, Quiet, Fallthrough, Enter, NoPhis;
    var g := Bypassed(f, r);
    BypassedShape(f, r);
    var i := f.blocks[c.block][c.pc];
    BypassedInst(f, r, c.block, i);
    TermOf(f, c.block);
    assert Edge(f, c.block, r);
    SafeIsNear(f, r, cb, c.block);
    TermOf(f, r);
    var d := Fallthrough(f, r).value;
    EnterSame(f, r, c.env, c.block, d);
    EnterNothing(f, c.env, c.block, d);
  }

  /** Outside the report block both functions step together. */
  lemma StepOutside<W(!new)>(f: Func, r: BlockId, cb: InstId, m: Machine<W>, c: Config<W>, c': Config<W>)
    requires Skippable(f, r, cb, m) && Outside(f, r, c) && Related(f, r, c, c')
    ensures Step(f, m, c).1 == Step(Bypassed(f, r), m, c').1
    ensures Related(f, r, Step(f, m, c).0, Step(Bypassed(f, r), m, c').0)
  {
    hide Valid, CanBypass, Bypassed, Contained, Quiet, Fallthrough, Step, Agree;
    StepAgree(f, r, cb, m, c, c');
    if Outside(f, r, Step(f, m, c').0) {
      StepSame(f, r, cb, m, c');
    } else {
      StepIntoReport(f, r, cb, m, c');
    }
  }

  lemma EnterNothing(f: Func, env: Env, from: BlockId, to: BlockId)
    requires NoPhis(f, to)
    ensures Enter(f, env, from, to) == env
  {
  }

  lemma AgreeInside(f: Func, r: BlockId, e: Env, e': Env, i: InstId, v: int)
    requires Agree(f, r, e, e') && InBlock(f, i, r)
    ensures Agree(f, r, e[i := v], e')
  {
  }

  /** Inside the report block the old function steps alone and shows only reports of cb. */
  lemma StepInside<W(!new)>(f: Func, r: BlockId, cb: InstId, m: Machine<W>, c: Config<W>, c': Config<W>)
    requires Skippable(f, r, cb, m) && !Outside(f, r, c) && Related(f, r, c, c')
    ensures Related(f, r, Step(f, m, c).0, c')
    ensures EraseReports(Step(f, m, c).1, cb) == []
    ensures var d := Step(f, m, c).0; d.At? && (d.block == r ==> d.pc == c.pc + 1)
  {
    hide Valid, Contained, Agree, Enter, Args, NoPhis, Redirectable, InBlock;
    var i := f.blocks[r][c.pc];
    ListedIsPlaced(f, r, i);
    TermOf(f, r);
    PlacedInBlock(f, r, i);
    LastIsTerm(f, r, c.pc);
    var o := m.exec(i, Args(f.insts[i].operands, c.env), c.world);
    if IsTerminator(f.insts[i].op) {
      EnterNothing(f, c.env, r, Fallthrough(f, r).value);
    } else if !f.insts[i].op.Phi? {
      assert Step(f, m, c).1 == o.events;
      EraseOnlyReports(o.events, cb);
      AgreeInside(f, r, c.env, c'.env, i, o.value);
    }
  }

  lemma PlacedInBlock(f: Func, r: BlockId, i: InstId)
    requires Valid(f) && r in f.blocks && i in f.blocks[r]
    ensures InBlock(f, i, r)
  {
  }

  lemma LastIsTerm(f: Func, b: BlockId, k: nat)
    requires Valid(f) && b in f.blocks && k < |f.blocks[b]|
    ensures f.blocks[b][k] in f.insts
    ensures IsTerminator(f.insts[f.blocks[b][k]].op) <==> k == |f.blocks[b]| - 1
  {
    assert EndsWell(f, b);
    assert f.blocks[b][k] in f.blocks[b];
  }

  /** Every run of the old function is matched by a run of the new one with the same trace up to reports of cb. */
  lemma {:induction false} FallsThroughForward<W(!new)>(f: Func, r: BlockId, cb: InstId, m: Machine<W>, c: Config<W>, n: nat)
    returns (k: nat)
    requires Skippable(f, r, cb, m) && Outside(f, r, c)
    ensures k <= n
    ensures Related(f, r, Steps(f, m, c, n).0, Steps(Bypassed(f, r), m, c, k).0)
    ensures EraseReports(Steps(f, m, c, n).1, cb) == EraseReports(Steps(Bypassed(f, r), m, c, k).1, cb)
  {
    hide Skippable, Bypassed, Step, Related, Outside;
    if n == 0 {
      k := 0;
      RelatedRefl(f, r, c);
    } else {
      k := FallsThroughForward(f, r, cb, m, c, n - 1);
      var (d, e) := Steps(f, m, c, n - 1);
      var (d', e') := Steps(Bypassed(f, r), m, c, k);
      EraseConcat(e, Step(f, m, d).1, cb);
      if Outside(f, r, d) {
        StepOutside(f, r, cb, m, d, d');
        EraseConcat(e', Step(Bypassed(f, r), m, d').1, cb);
        k := k + 1;
      } else {
        StepInside(f, r, cb, m, d, d');
      }
    }
  }

  lemma RelatedRefl<W>(f: Func, r: BlockId, c: Config<W>)
    requires Outside(f, r, c)
    ensures Related(f, r, c, c)
  {
  }

  /** The old run leaves the report block after finitely many steps. */
  lemma {:induction false} LeavesReport<W(!new)>(f: Func, r: BlockId, cb: InstId, m: Machine<W>, c: Config<W>, c': Config<W>, n: nat)
    returns (n': nat)
    requires Skippable(f, r, cb, m)
    requires Related(f, r, Steps(f, m, c, n).0, c')
    ensures n' >= n && Outside(f, r, Steps(f, m, c, n').0)
    ensures Related(f, r, Steps(f, m, c, n').0, c')
    ensures EraseReports(Steps(f, m, c, n').1, cb) == EraseReports(Steps(f, m, c, n).1, cb)
    decreases var d := Steps(f, m, c, n).0;
              if r in f.blocks && d.At? && d.block == r then |f.blocks[r]| - d.pc else 0
  {
    hide Skippable, Step;
    var (d, e) := Steps(f, m, c, n);
    n' := n;
    if !Outside(f, r, d) {
      StepInside(f, r, cb, m, d, c');
      EraseConcat(e, Step(f, m, d).1, cb);
      assert Steps(f, m, c, n + 1).0 == Step(f, m, d).0;
      n' := LeavesReport(f, r, cb, m, c, c', n + 1);
    }
  }

  /** Conversely, every run of the new function comes from a run of the old one. */
  lemma {:induction false} FallsThroughBackward<W(!new)>(f: Func, r: BlockId, cb: InstId, m: Machine<W>, c: Config<W>, k: nat)
    returns (n: nat)
    requires Skippable(f, r, cb, m) && Outside(f, r, c)
    ensures k <= n
    ensures Related(f, r, Steps(f, m, c, n).0, Steps(Bypassed(f, r), m, c, k).0)
    ensures EraseReports(Steps(f, m, c, n).1, cb) == EraseReports(Steps(Bypassed(f, r), m, c, k).1, cb)
  {
    hide Skippable, Bypassed, Step, Related, Outside;
    if k == 0 {
      n := 0;
      RelatedRefl(f, r, c);
    } else {
      n := FallsThroughBackward(f, r, cb, m, c, k - 1);
      n := LeavesReport(f, r, cb, m, c, Steps(Bypassed(f, r), m, c, k - 1).0, n);
      var (d, e) := Steps(f, m, c, n);
      var (d', e') := Steps(Bypassed(f, r), m, c, k - 1);
      StepOutside(f, r, cb, m, d, d');
      EraseConcat(e, Step(f, m, d).1, cb);
      EraseConcat(e', Step(Bypassed(f, r), m, d').1, cb);
      n := n + 1;
    }
  }

  /** The run from c stops in world w after showing the trace t, not counting reports of cb. */
  ghost predicate Finishes<W>(f: Func, m: Machine<W>, c: Config<W>, cb: InstId, w: W, t: seq<Event>)
  {
    exists n: nat :: Steps(f, m, c, n).0 == Stopped(w) && EraseReports(Steps(f, m, c, n).1, cb) == t
  }

  /** A skipped report block cannot be noticed: both functions finish in the same worlds with the same traces. */
  lemma SameOutcomes<W(!new)>(f: Func, r: BlockId, cb: InstId, m: Machine<W>, c: Config<W>, w: W, t: seq<Event>)
    requires Skippable(f, r, cb, m) && Outside(f, r, c)
    ensures Finishes(f, m, c, cb, w, t) <==> Finishes(Bypassed(f, r), m, c, cb, w, t)
  {
    hide Skippable, Bypassed, Step, Outside;
    if Finishes(f, m, c, cb, w, t) {
      var n: nat :| Steps(f, m, c, n).0 == Stopped(w) && EraseReports(Steps(f, m, c, n).1, cb) == t;
      var k := FallsThroughForward(f, r, cb, m, c, n);
      assert Steps(Bypassed(f, r), m, c, k).0 == Stopped(w);
    }
    if Finishes(Bypassed(f, r), m, c, cb, w, t) {
      var k: nat :| Steps(Bypassed(f, r), m, c, k).0 == Stopped(w) && EraseReports(Steps(Bypassed(f, r), m, c, k).1, cb) == t;
      var n := FallsThroughBackward(f, r, cb, m, c, k);
      assert Steps(f, m, c, n).0 == Stopped(w);
    }
  }
}
