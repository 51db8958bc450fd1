/**
 Runs of the SSA language.  What an instruction computes, does to the world and
 lets an observer see is a parameter; control flow, PHIs and the flow of values
 are fixed here.
 */
module Semantics {
  import opened IR

  datatype Event = App(n: int) | Report(check: InstId)

  /** The effect of executing one instruction; go chooses a successor of a switch-like terminator. */
  datatype Outcome<W> = Outcome(value: int, world: W, events: seq<Event>, go: int)

  datatype Machine<!W> = Machine(exec: (InstId, seq<int>, W) -> Outcome<W>)

  type Env = map<InstId, int>

  datatype Config<W> = At(block: BlockId, pc: nat, env: Env, world: W) | Stopped(world: W)

  function Eval(o: Operand, env: Env): int
  {
    match o
    case Value(v) => v
    case Use(i) => if i in env then env[i] else 0
  }

  function Args(os: seq<Operand>, env: Env): seq<int>
  {
    seq(|os|, k requires 0 <= k < |os| => Eval(os[k], env))
  }

  /** The operand that a PHI selects for the edge from the given block. */
  function Incoming(incoming: seq<BlockId>, operands: seq<Operand>, from: BlockId): Operand
  {
    if incoming == [] || operands == [] then Value(0)
    else if incoming[0] == from then operands[0]
    else Incoming(incoming[1..], operands[1..], from)
  }

  predicate IsPhi(f: Func, i: InstId)
  {
    i in f.insts && f.insts[i].op.Phi?
  }

  /** All PHIs of the target block read the environment of the edge at once. */
  function Enter(f: Func, env: Env, from: BlockId, to: BlockId): Env
  {
    if to !in f.blocks then env
    else env + map i | i in f.blocks[to] && IsPhi(f, i) ::
                 Eval(Incoming(f.insts[i].op.incoming, f.insts[i].operands, from), env)
  }

  function Goto<W>(f: Func, env: Env, world: W, from: BlockId, to: BlockId): Config<W>
  {
    At(to, 0, Enter(f, env, from, to), world)
  }

  function Step<W>(f: Func, m: Machine<W>, c: Config<W>): (Config<W>, seq<Event>)
  {
    match c
    case Stopped(_) => (c, [])
    case At(b, pc, env, world) =>
      if b !in f.blocks || pc >= |f.blocks[b]| || f.blocks[b][pc] !in f.insts then (Stopped(world), [])
      else
        var i := f.blocks[b][pc];
        StepInst(f, m, b, pc, env, world, i, f.insts[i])
  }

  function StepInst<W>(f: Func, m: Machine<W>, b: BlockId, pc: nat, env: Env, world: W, i: InstId, inst: Inst)
    : (Config<W>, seq<Event>)
  {
    match inst.op
    case Phi(_) => (At(b, pc + 1, env, world), [])
    case Unreachable => (Stopped(world), [])
    case Br(d) => (Goto(f, env, world, b, d), [])
    case CondBr(t, e) =>
      (Goto(f, env, world, b, if |inst.operands| > 0 && Eval(inst.operands[0], env) != 0 then t else e), [])
    case _ =>
      var o := m.exec(i, Args(inst.operands, env), world);
      var env' := env[i := o.value];
      if !IsTerminator(inst.op) then (At(b, pc + 1, env', o.world), o.events)
      else
        var ds := Successors(inst.op);
        (if 0 <= o.go < |ds| then Goto(f, env', o.world, b, ds[o.go]) else Stopped(o.world), o.events)
  }

  /** n steps, with the trace of events. */
  function Steps<W>(f: Func, m: Machine<W>, c: Config<W>, n: nat): (Config<W>, seq<Event>)
  {
    if n == 0 then (c, [])
    else
      var (c', e) := Steps(f, m, c, n - 1);
      var (c'', e') := Step(f, m, c');
      (c'', e + e')
  }

  /** A trace without the reports of one check. */
  function EraseReports(t: seq<Event>, cb: InstId): seq<Event>
  {
    if t == [] then []
    else (if t[0] == Report(cb) then [] else [t[0]]) + EraseReports(t[1..], cb)
  }

  lemma {:induction false} EraseConcat(s: seq<Event>, t: seq<Event>, cb: InstId)
    ensures EraseReports(s + t, cb) == EraseReports(s, cb) + EraseReports(t, cb)
  {
    if s == [] {
      assert s + t == t;
    } else {
      assert (s + t)[1..] == s[1..] + t;
      EraseConcat(s[1..], t, cb);
    }
  }

  lemma {:induction false} EraseOnlyReports(t: seq<Event>, cb: InstId)
    requires forall e :: e in t ==> e == Report(cb)
    ensures EraseReports(t, cb) == []
  {
    if t != [] {
      assert t[0] in t && forall e :: e in t[1..] ==> e in t;
      EraseOnlyReports(t[1..], cb);
    }
  }
}
