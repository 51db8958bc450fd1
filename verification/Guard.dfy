/**
 When the entry block is safe. `bypassReportBlock` does not ask whether the
 report block is the entry block; here is what makes sure that it never is.
 */
module Guard {
  import opened IR
  import opened Bypass
  import opened SliceSpec

  /** isInstructionTriviallyDead, apart from the test for users: calls count as side effects. */
  predicate DeadKind(op: Op)
  {
    match op
    case Phi(_) => true
    case Pure => true
    case Load(simple) => simple
    case Alloca => true
    case OtherInst(sideEffects) => !sideEffects
    case _ => false
  }

  /** Everything goes that is no terminator, writes nothing and calls nothing. */
  lemma DeadKindExact(op: Op)
    ensures DeadKind(op) <==>
            && !IsTerminator(op) && !op.Store? && !op.Atomic? && !op.Call?
            && (op.Load? ==> op.simple) && (op.OtherInst? ==> !op.sideEffects)
  {
  }

  /** bypassReportBlock would delete the entry block as the report block of cb. */
  ghost predicate EntryReport(f: Func, cb: InstId)
  {
    cb in f.parent && f.parent[cb] == f.entry && CanBypass(f, f.entry, cb)
  }

  /** A check call that can be removed when it is marked. */
  predicate PlainCheck(op: Op)
  {
    op.Call? && IsCheck(op)
  }

  /** What no removal of the marked checks takes out of its block, and what keeps the block from being a report block. */
  predicate Fast(op: Op, marked: bool)
  {
    (!SanitizerOnly(op) && !DeadKind(op)) || (IsCheck(op) && !(op.Call? && marked))
  }

  ghost predicate HeldFast(f: Func, marks: set<InstId>, b: BlockId)
  {
    b in f.blocks && exists i :: i in f.blocks[b] && i in f.insts && Fast(f.insts[i].op, i in marks)
  }

  /** b holds a marked plain check and nothing that holds it fast. */
  ghost predicate Loose(f: Func, marks: set<InstId>, b: BlockId)
  {
    && !HeldFast(f, marks, b)
    && exists c :: c in marks && c in f.insts && c in f.parent && PlainCheck(f.insts[c].op) && f.parent[c] == b
  }

  /** The terminator of p is a conditional branch to two blocks, one of which is not loose. */
  ghost predicate Parted(f: Func, marks: set<InstId>, p: BlockId)
  {
    match Term(f, p)
    case CondBr(x, y) => x != y && !(Loose(f, marks, x) && Loose(f, marks, y))
    case _ => false
  }

  /** Loose blocks are not the entry block, and are entered by parting branches only, so none is merged into the entry block. */
  ghost predicate Shielded(f: Func, marks: set<InstId>)
  {
    && !Loose(f, marks, f.entry)
    && forall p, r {:trigger Edge(f, p, r)} :: Loose(f, marks, r) && Edge(f, p, r) ==> Parted(f, marks, p)
  }

  ghost predicate Guarded(f: Func, marks: set<InstId>)
  {
    HeldFast(f, marks, f.entry) || Shielded(f, marks)
  }

  /** A report block is loose if its check is marked. */
  lemma ReportIsLoose(f: Func, marks: set<InstId>, r: BlockId, cb: InstId)
    requires Valid(f) && cb in marks && cb in f.insts && cb in f.parent && f.parent[cb] == r && PlainCheck(f.insts[cb].op)
    requires SanitizerOnlyBlock(f, r, cb)
    ensures Loose(f, marks, r)
  {
    hide Valid;
  }

  /** In a guarded function no marked plain check makes the entry block its report block. */
  lemma GuardedIsSafe(f: Func, marks: set<InstId>, cb: InstId)
    requires Valid(f) && Guarded(f, marks) && cb in marks && cb in f.insts && PlainCheck(f.insts[cb].op)
    ensures !EntryReport(f, cb)
  {
    hide Valid, Loose, HeldFast;
    if EntryReport(f, cb) {
      ReportIsLoose(f, marks, f.entry, cb);
      LooseIsNotHeld(f, marks, f.entry);
    }
  }

  lemma LooseIsNotHeld(f: Func, marks: set<InstId>, b: BlockId)
    requires Loose(f, marks, b)
    ensures !HeldFast(f, marks, b)
  {
  }

  /** A step that keeps blocks and terminators, makes no block loose and keeps the entry block held fast. */
  lemma GuardedSameEdges(f: Func, g: Func, marks: set<InstId>)
    requires Guarded(f, marks) && g.entry == f.entry && f.blocks.Keys == g.blocks.Keys
    requires forall b :: b in f.blocks ==> Term(g, b) == Term(f, b)
    requires forall b :: HeldFast(f, marks, b) ==> HeldFast(g, marks, b)
    requires forall b :: Loose(g, marks, b) ==> Loose(f, marks, b)
    ensures Guarded(g, marks)
  {
    hide Loose, HeldFast, Term;
    if !HeldFast(g, marks, g.entry) {
      forall p, r | Loose(g, marks, r) && Edge(g, p, r) ensures Parted(g, marks, p) {
        assert Edge(f, p, r) && Parted(f, marks, p);
      }
    }
  }
}
