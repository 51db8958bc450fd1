/**
 A small SSA language with explicit control flow, after the part of LLVM IR
 that the slice remover of `lib/CheckSliceRemover.cpp` looks at.
 */
module IR {
  type BlockId = nat
  type InstId = nat

  datatype Option<+T> = None | Some(value: T) {
    function GetOr(default: T): T
    {
      if Some? then value else default
    }
  }

  /** How the passes classify the callee of a call. */
  datatype Callee = Callee(check: bool, msanRuntime: bool, emptyAsm: bool, noop: bool)

  datatype Op =
    | Phi(incoming: seq<BlockId>)
    | Pure  // casts, GEPs, comparisons, arithmetic, selects, extract and insert value
    | Load(simple: bool)
    | Store
    | Atomic
    | Alloca
    | Call(callee: Callee)
    | OtherInst(sideEffects: bool)
    | Br(dest: BlockId)
    | CondBr(ifTrue: BlockId, ifFalse: BlockId)
    | Unreachable
    | Invoke(invoked: Callee, normal: BlockId, unwind: BlockId)
    | OtherTerm(dests: seq<BlockId>)  // switch, return and the like

  datatype Operand = Use(id: InstId) | Value(v: int)

  datatype Inst = Inst(op: Op, operands: seq<Operand>)

  datatype Func = Func(entry: BlockId, blocks: map<BlockId, seq<InstId>>, insts: map<InstId, Inst>, parent: map<InstId, BlockId>)

  predicate IsTerminator(op: Op)
  {
    op.Br? || op.CondBr? || op.Unreachable? || op.Invoke? || op.OtherTerm?
  }

  function Successors(op: Op): seq<BlockId>
  {
    match op
    case Br(d) => [d]
    case CondBr(t, e) => [t, e]
    case Invoke(_, n, u) => [n, u]
    case OtherTerm(ds) => ds
    case _ => []
  }

  /** Calls and invokes of a sanitizer check (classifyCheck). */
  predicate IsCheck(op: Op)
  {
    (op.Call? && op.callee.check) || (op.Invoke? && op.invoked.check)
  }

  predicate NoDup<T(==)>(s: seq<T>)
  {
    forall i, j :: 0 <= i < j < |s| ==> s[i] != s[j]
  }

  /** Blocks and instructions know each other. */
  ghost predicate Placed(f: Func)
  {
    && f.parent.Keys == f.insts.Keys
    && (forall i {:trigger f.parent[i]} :: i in f.parent ==> f.parent[i] in f.blocks && i in f.blocks[f.parent[i]])
    && (forall b, i :: b in f.blocks && i in f.blocks[b] ==> i in f.parent && f.parent[i] == b)
    && (forall b :: b in f.blocks ==> NoDup(f.blocks[b]))
  }

  /** A block ends with its only terminator. */
  ghost predicate EndsWell(f: Func, b: BlockId)
    requires b in f.blocks
  {
    var ks := f.blocks[b];
    && |ks| > 0
    && (forall i :: i in ks ==> i in f.insts)
    && (forall k :: 0 <= k < |ks| ==> (IsTerminator(f.insts[ks[k]].op) <==> k == |ks| - 1))
    && (forall d :: d in Successors(f.insts[ks[|ks| - 1]].op) ==> d in f.blocks)
  }

  /** A PHI has one operand per incoming block. */
  ghost predicate PhisBalanced(f: Func)
  {
    forall i :: i in f.insts && f.insts[i].op.Phi? ==> |f.insts[i].op.incoming| == |f.insts[i].operands|
  }

  ghost predicate Valid(f: Func)
  {
    && f.entry in f.blocks
    && Placed(f) && PhisBalanced(f)
    && forall b {:trigger EndsWell(f, b)} :: b in f.blocks ==> EndsWell(f, b)
  }

  /** The terminator of a block. */
  function TermId(f: Func, b: BlockId): InstId
  {
    if b in f.blocks && |f.blocks[b]| > 0 then f.blocks[b][|f.blocks[b]| - 1] else 0
  }

  function Term(f: Func, b: BlockId): Op
  {
    if b in f.blocks && |f.blocks[b]| > 0 && TermId(f, b) in f.insts then f.insts[TermId(f, b)].op else Unreachable
  }

  predicate Edge(f: Func, a: BlockId, b: BlockId)
  {
    a in f.blocks && b in Successors(Term(f, a))
  }

  ghost predicate ReachIn(f: Func, a: BlockId, b: BlockId, n: nat)
    decreases n
  {
    a == b || (n > 0 && exists c :: Edge(f, c, b) && ReachIn(f, a, c, n - 1))
  }

  ghost predicate Reaches(f: Func, a: BlockId, b: BlockId)
  {
    exists n: nat :: ReachIn(f, a, b, n)
  }

  lemma ReachRefl(f: Func, a: BlockId)
    ensures Reaches(f, a, a)
  {
    assert ReachIn(f, a, a, 0);
  }

  lemma ReachStep(f: Func, a: BlockId, c: BlockId, b: BlockId)
    requires Reaches(f, a, c) && Edge(f, c, b)
    ensures Reaches(f, a, b)
  {
    var n: nat :| ReachIn(f, a, c, n);
    assert ReachIn(f, a, b, n + 1);
  }

  /** A set closed under edges holds everything reachable from a member. */
  lemma {:induction false} StaysInside(f: Func, a: BlockId, b: BlockId, n: nat, inside: set<BlockId>)
    requires a in inside && ReachIn(f, a, b, n)
    requires forall x, y :: x in inside && Edge(f, x, y) ==> y in inside
    ensures b in inside
    decreases n
  {
    if a != b {
      var c :| Edge(f, c, b) && ReachIn(f, a, c, n - 1);
      StaysInside(f, a, c, n - 1, inside);
    }
  }

  ghost predicate AllReachable(f: Func)
  {
    forall b :: b in f.blocks ==> Reaches(f, f.entry, b)
  }

  /** The instructions of f that use the value of i. */
  ghost function Users(f: Func, i: InstId): set<InstId>
  {
    set j | j in f.insts && Use(i) in f.insts[j].operands
  }
}
