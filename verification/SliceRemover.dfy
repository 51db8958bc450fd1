/** The class CheckSliceRemover (`lib/CheckSliceRemover.cpp`) for one function. */
module SliceRemover {
  import opened IR
  import opened Bypass
  import opened SliceSpec
  import opened Guard
  import opened Health
  import opened Merge
  import opened Removal

  /** The function being rewritten. */
  class Function {
    var code: Func

    constructor (f: Func)
      ensures code == f
    {
      code := f;
    }
  }

  class CheckSlice {
    var instructions: set<InstId>
    var ordered: seq<InstId>
    var blocks: set<BlockId>
    var orderedBlocks: seq<BlockId>

    constructor ()
      ensures Valid() && instructions == {} && blocks == {}
    {
      instructions, ordered, blocks, orderedBlocks := {}, [], {}, [];
    }

    /** The vectors list the sets, each element once. */
    ghost predicate Valid()
      reads this
    {
      && instructions == (set i | i in ordered) && NoDup(ordered)
      && blocks == (set b | b in orderedBlocks) && NoDup(orderedBlocks)
    }
  }

  lemma BlockMembers(f: Func, b: BlockId)
    requires IR.Valid(f) && b in f.blocks
    ensures forall i :: i in f.blocks[b] ==> i in f.insts
    ensures |f.blocks[b]| > 0 && TermId(f, b) in f.insts && IsTerminator(f.insts[TermId(f, b)].op)
    ensures TermId(f, b) in f.blocks[b]
  {
    assert EndsWell(f, b);
    TermOf(f, b);
  }

  lemma FirstMember(s: seq<BlockId>)
    ensures s != [] ==> s[0] in s
  {
  }

  lemma PlacedBlock(f: Func, i: InstId)
    requires IR.Valid(f) && i in f.parent
    ensures f.parent[i] in f.blocks && i in f.blocks[f.parent[i]] && i in f.insts
  {
  }

  lemma UnreachableAre(f: Func, reached: set<BlockId>)
    requires forall b: BlockId :: b in f.blocks ==> (b in reached <==> Reaches(f, f.entry, b))
    ensures f.blocks.Keys - reached == UnreachableBlocks(f)
    ensures AllReachable(f) ==> UnreachableBlocks(f) == {}
  {
  }

  lemma EntryIsBlock(f: Func)
    requires IR.Valid(f)
    ensures f.entry in f.blocks
  {
  }

  lemma EdgeIs(f: Func, a: BlockId, b: BlockId)
    requires a in f.blocks
    ensures Edge(f, a, b) <==> b in Successors(Term(f, a))
  {
  }

  lemma EdgeTo(f: Func, a: BlockId, b: BlockId)
    requires IR.Valid(f) && Edge(f, a, b)
    ensures b in f.blocks
  {
    TermOf(f, a);
  }

  lemma GrowsReached(all: set<BlockId>, reached: set<BlockId>, more: set<BlockId>)
    requires more <= all && more != {} && reached !! more
    ensures |all - (reached + more)| < |all - reached|
  {
    var d :| d in more;
    assert d in all - reached && d !in all - (reached + more);
    SubsetSize(all - (reached + more), (all - reached) - {d});
  }

  lemma ReachedIsAll(f: Func, reached: set<BlockId>, b: BlockId)
    requires f.entry in reached && Reaches(f, f.entry, b)
    requires forall x, y :: x in reached && Edge(f, x, y) ==> y in reached
    ensures b in reached
  {
    var n: nat :| ReachIn(f, f.entry, b, n);
    StaysInside(f, f.entry, b, n, reached);
  }

  lemma InBlocks(f: Func, p: BlockId, b: BlockId)
    requires Spliceable(f, p, b)
    ensures b in f.blocks
  {
  }

  /** A PHI of b that is its own operand. */
  predicate SelfPhi(f: Func, b: BlockId)
  {
    b in f.blocks && exists i | i in f.blocks[b] :: i in f.insts && f.insts[i].op.Phi? && Use(i) in f.insts[i].operands
  }

  /** When MergeBlockIntoPredecessor merges b into p. */
  ghost predicate MergesInto(f: Func, p: BlockId, b: BlockId)
  {
    Spliceable(f, p, b) && !SelfPhi(f, b)
  }

  ghost predicate Mergeable(f: Func, b: BlockId)
  {
    exists p :: MergesInto(f, p, b)
  }

  /** In terms of edges: b has one predecessor, which branches to b alone, and no PHI of b uses itself. */
  lemma MergeableExact(f: Func, b: BlockId)
    requires IR.Valid(f)
    ensures Mergeable(f, b) <==>
            && b in f.blocks && b != f.entry
            && (exists p :: p != b && (Term(f, p).Br? || Term(f, p).CondBr?)
                            && (forall a :: Edge(f, a, b) <==> a == p) && (forall d :: Edge(f, p, d) <==> d == b))
            && (forall i :: i in f.blocks[b] && i in f.insts && f.insts[i].op.Phi? ==> Use(i) !in f.insts[i].operands)
  {
    hide IR.Valid, Term;
    if p :| MergesInto(f, p, b) {
      SplicesOverEdge(f, p, b);
      forall d ensures Edge(f, p, d) <==> d == b {
        EdgeIs(f, p, d);
      }
    }
    if p :| p != b && (Term(f, p).Br? || Term(f, p).CondBr?)
            && (forall a :: Edge(f, a, b) <==> a == p) && (forall d :: Edge(f, p, d) <==> d == b) {
      EdgeFrom(f, p, b);
      forall d | d in Successors(Term(f, p)) ensures d == b {
        EdgeIs(f, p, d);
      }
      if b in f.blocks && b != f.entry {
        assert Spliceable(f, p, b);
        assert !SelfPhi(f, b) ==> MergesInto(f, p, b);
      }
    }
  }

  lemma OnlyPredecessor(f: Func, b: BlockId, preds: seq<BlockId>)
    requires IR.Valid(f) && b in f.blocks && b != f.entry && NoDup(preds) && forall a :: a in preds <==> Edge(f, a, b)
    ensures Mergeable(f, b) <==>
      && |preds| == 1 && preds[0] != b && (Term(f, preds[0]).Br? || Term(f, preds[0]).CondBr?)
      && (forall d :: d in Successors(Term(f, preds[0])) ==> d == b) && !SelfPhi(f, b)
    ensures Mergeable(f, b) ==> MergesInto(f, preds[0], b)
  {
    hide IR.Valid, SelfPhi, Term;
    if Mergeable(f, b) {
      var p :| MergesInto(f, p, b);
      SplicesOverEdge(f, p, b);
      OnlyMember(preds, p);
    }
    if |preds| == 1 {
      var p := preds[0];
      assert p in preds;
      EdgeFrom(f, p, b);
      assert forall a :: Edge(f, a, b) ==> a in preds && a == p;
      assert p != b && (Term(f, p).Br? || Term(f, p).CondBr?) && (forall d :: d in Successors(Term(f, p)) ==> d == b) && !SelfPhi(f, b)
        ==> MergesInto(f, p, b);
    }
  }

  lemma OnlyMember(s: seq<BlockId>, p: BlockId)
    requires NoDup(s) && p in s && forall a :: a in s ==> a == p
    ensures s == [p]
  {
    forall k | 0 <= k < |s| ensures s[k] == p {
      assert s[k] in s;
    }
    assert s[0] == p && s[|s| - 1] == p;
  }

  lemma SplicesOverEdge(f: Func, p: BlockId, b: BlockId)
    requires Spliceable(f, p, b)
    ensures Edge(f, p, b)
  {
    var d := Term(f, p);
    assert d.Br? ==> d.dest in Successors(d);
    assert d.CondBr? ==> d.ifTrue in Successors(d);
  }

  lemma CheckFacts(f: Func, cb: InstId)
    requires Healthy(f) && cb in Checks(f)
    ensures IR.Valid(f) && ChecksUnused(f) && cb in f.insts && IsCheck(f.insts[cb].op) && cb in f.parent && Unused(f, cb)
  {
    hide IR.Valid, AllReachable;
    InstPlace(f, cb);
    UnusedCheck(f, cb);
  }

  lemma CollectedParts(f: Func, cb: InstId, start: BlockId, blocks: set<BlockId>, members: set<InstId>)
    requires Collected(f, cb, start, blocks, members)
    ensures members <= f.insts.Keys
    ensures forall b, i :: b in blocks && b in f.blocks && i in f.blocks[b] && i in f.insts && SanitizerOnly(f.insts[i].op) ==>
                      i in members
  {
  }

  lemma StaysCovered(f: Func, p: BlockId, members: set<InstId>, more: set<InstId>)
    requires members <= more
    ensures Covered(f, p, members) ==> Covered(f, p, more)
  {
  }

  lemma DeadStep(f: Func, gone: set<InstId>, i: InstId)
    requires i in f.insts && DeadKind(f.insts[i].op) && Users(f, i) <= gone
    requires forall xs: set<InstId> :: DeadClosed(f, xs) ==> gone <= xs
    ensures forall xs: set<InstId> :: DeadClosed(f, xs) ==> gone + {i} <= xs
  {
    hide DeadKind, Users;
  }

  lemma DeadDone(f: Func, gone: set<InstId>)
    requires Dead(f, gone) && forall xs: set<InstId> :: DeadClosed(f, xs) ==> gone <= xs
    requires var g := Minus(f, gone); forall i :: i in g.insts ==> !(DeadKind(g.insts[i].op) && Unused(g, i))
    ensures IsDeadSet(f, gone)
  {
    hide DeadKind;
    forall i | i in f.insts && DeadKind(f.insts[i].op) && Users(f, i) <= gone ensures i in gone {
      MinusUsers(f, gone, i);
      UnusedMeans(Minus(f, gone), i);
    }
  }

  /** No block can be merged into its predecessor. */
  ghost predicate NothingMergeable(f: Func)
  {
    forall b :: b in f.blocks && b != f.entry ==> !Mergeable(f, b)
  }

  lemma NotMerged(f: Func)
    ensures MergedIn(f, f, 0)
  {
  }

  class CheckSliceRemover {
    const fn: Function
    var touched: bool

    constructor (fn: Function)
      ensures this.fn == fn && !touched
    {
      this.fn := fn;
      touched := false;
    }

    method AddInstruction(slice: CheckSlice, i: InstId) returns (added: bool)
      requires slice.Valid()
      modifies slice`instructions, slice`ordered, this`touched
      ensures slice.Valid()
      ensures added <==> i in fn.code.insts && SanitizerOnly(fn.code.insts[i].op) && i !in old(slice.instructions)
      ensures slice.instructions == old(slice.instructions) + if added then {i} else {}
      ensures slice.ordered == old(slice.ordered) + if added then [i] else []
    {
      if i !in fn.code.insts || !SanitizerOnly(fn.code.insts[i].op) {
        return false;
      }
      if i in slice.instructions {
        return false;
      }
      slice.instructions := slice.instructions + {i};
      slice.ordered := slice.ordered + [i];
      touched := true;
      added := true;
    }

    method CollectBackwardFromInstruction(slice: CheckSlice, i: InstId)
      requires slice.Valid() && i in fn.code.insts
      modifies slice`instructions, slice`ordered, this`touched
      ensures slice.Valid() && Grown(fn.code, old(slice.instructions), Deps(fn.code, i), slice.instructions)
      decreases |fn.code.insts.Keys - slice.instructions|, 1
    {
      hide Grown, NoDup, Seeds, Deps, SanitizerOnly;
      ghost var f, known := fn.code, slice.instructions;
      var ops := fn.code.insts[i].operands;
      GrownStart(f, known, ops);
      for k := 0 to |ops|
        invariant slice.Valid() && fn.code == f && Grown(f, known, Seeds(f, ops[..k]), slice.instructions)
        invariant |f.insts.Keys - slice.instructions| <= |f.insts.Keys - known|
      {
        ghost var mid := slice.instructions;
        CollectBackwardFromValue(slice, ops[k]);
        GrownNext(f, known, ops, k, mid, slice.instructions);
      }
      SeedsAreDeps(f, i);
      assert ops[..|ops|] == ops;
    }

    method CollectBackwardFromValue(slice: CheckSlice, v: Operand)
      requires slice.Valid()
      modifies slice`instructions, slice`ordered, this`touched
      ensures slice.Valid() && Grown(fn.code, old(slice.instructions), Seeds(fn.code, [v]), slice.instructions)
      decreases |fn.code.insts.Keys - slice.instructions|, 0
    {
      hide Grown, NoDup;
      ghost var f, known := fn.code, slice.instructions;
      if v.Value? {
        GrownNothing(f, known, Seeds(f, [v]));
        return;
      }
      var added := AddInstruction(slice, v.id);
      if !added {
        assert slice.instructions == known;
        GrownNothing(f, known, Seeds(f, [v]));
        return;
      }
      MoreIsSmaller(f.insts.Keys, known, v.id);
      CollectBackwardFromInstruction(slice, v.id);
      GrownSeed(f, known, v.id, slice.instructions);
      assert Seeds(f, [v]) == {v.id};
    }

    method AddBlock(slice: CheckSlice, b: BlockId) returns (added: bool)
      requires slice.Valid() && b in fn.code.blocks
      modifies slice, this`touched
      ensures slice.Valid() && added == (b !in old(slice.blocks)) && slice.blocks == old(slice.blocks) + {b}
      ensures slice.orderedBlocks == old(slice.orderedBlocks) + if added then [b] else []
      ensures old(slice.instructions) <= slice.instructions
      ensures !added ==> slice.instructions == old(slice.instructions)
      ensures forall i :: i in slice.instructions && i !in old(slice.instructions) ==> i in fn.code.blocks[b] && i in fn.code.insts
      ensures added ==> forall i :: i in fn.code.blocks[b] && i in fn.code.insts && SanitizerOnly(fn.code.insts[i].op) ==>
                          i in slice.instructions
    {
      if b in slice.blocks {
        assert slice.blocks == slice.blocks + {b};
        return false;
      }
      slice.blocks := slice.blocks + {b};
      slice.orderedBlocks := slice.orderedBlocks + [b];
      touched := true;
      var ids := fn.code.blocks[b];
      ghost var bs, obs := slice.blocks, slice.orderedBlocks;
      for k := 0 to |ids|
        invariant slice.Valid() && slice.blocks == bs && slice.orderedBlocks == obs
        invariant old(slice.instructions) <= slice.instructions
        invariant forall i :: i in slice.instructions && i !in old(slice.instructions) ==> i in ids && i in fn.code.insts
        invariant forall j :: 0 <= j < k && ids[j] in fn.code.insts && SanitizerOnly(fn.code.insts[ids[j]].op) ==>
                    ids[j] in slice.instructions
      {
        var _ := AddInstruction(slice, ids[k]);
      }
      added := true;
    }

    /** predecessors(b): the blocks with an edge to b, in some order. */
    method Predecessors(b: BlockId) returns (ps: seq<BlockId>)
      ensures forall p :: p in ps <==> Edge(fn.code, p, b)
      ensures NoDup(ps)
    {
      ps := [];
      var rest := fn.code.blocks.Keys;
      while rest != {}
        invariant rest <= fn.code.blocks.Keys && NoDup(ps)
        invariant forall p :: p in ps <==> p in fn.code.blocks && p !in rest && Edge(fn.code, p, b)
      {
        var p :| p in rest;
        rest := rest - {p};
        if Edge(fn.code, p, b) {
          ps := ps + [p];
        }
      }
    }

    method IsSanitizerOnlyBlock(b: BlockId, target: InstId) returns (only: bool)
      requires b in fn.code.blocks && forall i :: i in fn.code.blocks[b] ==> i in fn.code.insts
      ensures only <==> SanitizerOnlyBlock(fn.code, b, target)
      ensures only <==> ServesOnly(fn.code, b, target)
    {
      ServesOnlyExact(fn.code, b, target);
      hide ServesOnly;
      var ids := fn.code.blocks[b];
      for k := 0 to |ids|
        invariant forall j :: 0 <= j < k ==>
                    SanitizerOnly(fn.code.insts[ids[j]].op) && (IsCheck(fn.code.insts[ids[j]].op) ==> ids[j] == target)
      {
        var op := fn.code.insts[ids[k]].op;
        assert ids[k] in ids;
        if IsCheck(op) && ids[k] != target {
          return false;
        }
        if !SanitizerOnly(op) {
          return false;
        }
      }
      only := true;
    }

    /** Adds an instruction together with its backward slice. */
    method AddWithOperands(slice: CheckSlice, cb: InstId, i: InstId)
      requires slice.Valid() && i in fn.code.insts
      modifies slice`instructions, slice`ordered, this`touched
      ensures slice.Valid() && old(slice.instructions) <= slice.instructions
      ensures var known := old(slice.instructions) + if SanitizerOnly(fn.code.insts[i].op) then {i} else {};
              Grown(fn.code, known, Deps(fn.code, i), slice.instructions)
      ensures ChecksUnused(fn.code) && OnlyCheck(fn.code, cb, old(slice.instructions)) &&
              (fn.code.insts[i].op.Call? && IsCheck(fn.code.insts[i].op) ==> i == cb) ==>
              OnlyCheck(fn.code, cb, slice.instructions)
    {
      hide Grown, NoDup, OnlyCheck, ChecksUnused;
      ghost var f, before := fn.code, slice.instructions;
      var _ := AddInstruction(slice, i);
      ghost var mid := slice.instructions;
      assert mid == before + if SanitizerOnly(fn.code.insts[i].op) then {i} else {};
      CollectBackwardFromInstruction(slice, i);
      GrownIsLarger(f, mid, Deps(f, i), slice.instructions);
      if ChecksUnused(f) && OnlyCheck(f, cb, before) && (f.insts[i].op.Call? && IsCheck(f.insts[i].op) ==> i == cb) {
        OnlyCheckAdd(f, cb, before, mid);
        GrownOnlyCheck(f, cb, mid, i, slice.instructions);
      }
    }

    method AddSanitizerBlock(slice: CheckSlice, cb: InstId, b: BlockId, ghost start: BlockId) returns (only: bool)
      requires slice.Valid() && b in fn.code.blocks && forall i :: i in fn.code.blocks[b] ==> i in fn.code.insts
      requires Collected(fn.code, cb, start, slice.blocks, slice.instructions)
      modifies slice, this`touched
      ensures slice.Valid() && only == SanitizerOnlyBlock(fn.code, b, cb) && old(slice.instructions) <= slice.instructions
      ensures slice.blocks == old(slice.blocks) + if only then {b} else {}
      ensures Collected(fn.code, cb, start, slice.blocks, slice.instructions)
      ensures OnlyCheck(fn.code, cb, old(slice.instructions)) ==> OnlyCheck(fn.code, cb, slice.instructions)
    {
      hide NoDup, OnlyCheck, Collected, SanitizerOnly;
      ghost var before, blocks := slice.instructions, slice.blocks;
      only := IsSanitizerOnlyBlock(b, cb);
      if only {
        var added := AddBlock(slice, b);
        CollectedParts(fn.code, cb, start, blocks, before);
        CollectedBlock(fn.code, cb, start, blocks, before, b, slice.instructions);
        if OnlyCheck(fn.code, cb, before) {
          OnlyCheckAdd(fn.code, cb, before, slice.instructions);
        }
      }
    }

    /** One predecessor of a block on the worklist. */
    method CollectPredecessor(slice: CheckSlice, cb: InstId, pred: BlockId, work: seq<BlockId>,
                              ghost start: BlockId, ghost b: BlockId) returns (work': seq<BlockId>)
      requires slice.Valid() && IR.Valid(fn.code) && pred in fn.code.blocks
      requires Leads(fn.code, cb, start, b) && Edge(fn.code, pred, b)
      requires Collected(fn.code, cb, start, slice.blocks, slice.instructions)
      modifies slice, this`touched
      ensures slice.Valid() && old(slice.instructions) <= slice.instructions
      ensures work' == if SanitizerOnlyBlock(fn.code, pred, cb) then work + [pred] else work
      ensures slice.blocks == old(slice.blocks) + if SanitizerOnlyBlock(fn.code, pred, cb) then {pred} else {}
      ensures Collected(fn.code, cb, start, slice.blocks, slice.instructions)
      ensures SanitizerOnly(Term(fn.code, pred)) ==> Covered(fn.code, pred, slice.instructions)
      ensures ChecksUnused(fn.code) && OnlyCheck(fn.code, cb, old(slice.instructions)) ==>
              OnlyCheck(fn.code, cb, slice.instructions)
    {
      hide Grown, NoDup, OnlyCheck, ChecksUnused, IR.Valid, Collected, Leads, Covered, Deps, Edge;
      BlockMembers(fn.code, pred);
      work' := work;
      var term := TermId(fn.code, pred);
      ghost var known, blocks := slice.instructions, slice.blocks;
      if SanitizerOnly(fn.code.insts[term].op) {
        AddWithOperands(slice, cb, term);
        CollectedTerm(fn.code, cb, start, blocks, known, pred, b, slice.instructions);
        ghost var mid := slice.instructions;
        var only := AddSanitizerBlock(slice, cb, pred, start);
        StaysCovered(fn.code, pred, mid, slice.instructions);
        if only {
          work' := work + [pred];
        }
      }
    }

    /** The loop over the predecessors of the seen block b. */
    method CollectPredecessors(slice: CheckSlice, cb: InstId, b: BlockId, work: seq<BlockId>,
                               ghost start: BlockId, ghost seen: set<BlockId>, ghost given: set<BlockId>)
      returns (work': seq<BlockId>)
      requires slice.Valid() && IR.Valid(fn.code) && b in seen
      requires FlowInvariant(fn.code, cb, start, seen, work, given, slice.blocks)
      requires Leads(fn.code, cb, start, b) && Collected(fn.code, cb, start, slice.blocks, slice.instructions)
      modifies slice, this`touched
      ensures slice.Valid() && old(slice.instructions) <= slice.instructions
      ensures Collected(fn.code, cb, start, slice.blocks, slice.instructions)
      ensures PredsCovered(fn.code, b, slice.instructions)
      ensures FlowInvariant(fn.code, cb, start, seen, work', given, slice.blocks)
      ensures PredsKnown(fn.code, cb, b, seen, work')
      ensures forall c :: PredsKnown(fn.code, cb, c, seen, work) ==> PredsKnown(fn.code, cb, c, seen, work')
      ensures ChecksUnused(fn.code) && OnlyCheck(fn.code, cb, old(slice.instructions)) ==>
              OnlyCheck(fn.code, cb, slice.instructions)
    {
      hide OnlyCheck, ChecksUnused, IR.Valid, FlowInvariant, PredsKnown, NoDup, Edge, SanitizerOnlyBlock;
      hide Collected, Leads, Covered, PredsCovered, SanitizerOnly, Term;
      ghost var f := fn.code;
      work' := work;
      var preds := Predecessors(b);
      for k := 0 to |preds|
        invariant slice.Valid() && old(slice.instructions) <= slice.instructions
        invariant FlowInvariant(f, cb, start, seen, work', given, slice.blocks)
        invariant Collected(f, cb, start, slice.blocks, slice.instructions)
        invariant forall j :: 0 <= j < k && SanitizerOnly(Term(f, preds[j])) ==> Covered(f, preds[j], slice.instructions)
        invariant forall c :: PredsKnown(f, cb, c, seen, work) ==> PredsKnown(f, cb, c, seen, work')
        invariant forall j :: 0 <= j < k && SanitizerOnlyBlock(f, preds[j], cb) ==> preds[j] in work'
        invariant ChecksUnused(f) && OnlyCheck(f, cb, old(slice.instructions)) ==> OnlyCheck(f, cb, slice.instructions)
      {
        ghost var work1, blocks1, known := work', slice.blocks, slice.instructions;
        assert preds[k] in preds;
        EdgeFrom(f, preds[k], b);
        work' := CollectPredecessor(slice, cb, preds[k], work', start, b);
        forall j | 0 <= j < k && SanitizerOnly(Term(f, preds[j])) ensures Covered(f, preds[j], slice.instructions) {
          StaysCovered(f, preds[j], known, slice.instructions);
        }
        FlowPush(f, cb, start, seen, work1, given, blocks1, b, preds[k], work', slice.blocks);
      }
      FlowSeen(f, cb, b, seen, work', preds);
      PredsAllCovered(f, b, preds, slice.instructions);
    }

    method CollectControlFlowSlice(slice: CheckSlice, cb: InstId, start: BlockId)
      requires slice.Valid() && IR.Valid(fn.code) && start in fn.code.blocks
      requires slice.blocks == if SanitizerOnlyBlock(fn.code, start, cb) then {start} else {}
      requires Collected(fn.code, cb, start, slice.blocks, slice.instructions)
      modifies slice, this`touched
      ensures slice.Valid() && old(slice.instructions) <= slice.instructions
      ensures SliceOf(fn.code, cb, start, slice.instructions)
      ensures slice.blocks == SliceBlocks(fn.code, cb, start)
      ensures ChecksUnused(fn.code) && OnlyCheck(fn.code, cb, old(slice.instructions)) ==>
              OnlyCheck(fn.code, cb, slice.instructions)
    {
      hide OnlyCheck, ChecksUnused, IR.Valid, FlowInvariant, PredsKnown, NoDup, SanitizerOnlyBlock, SliceBlocks;
      hide Collected, Leads, PredsCovered;
      ghost var f, given := fn.code, slice.blocks;
      var work: seq<BlockId> := [start];
      var seen: set<BlockId> := {};
      FlowStarts(f, cb, start, given);
      while work != []
        invariant slice.Valid() && old(slice.instructions) <= slice.instructions
        invariant seen <= f.blocks.Keys && FlowInvariant(f, cb, start, seen, work, given, slice.blocks)
        invariant forall c :: c in seen ==> PredsKnown(f, cb, c, seen, work)
        invariant Collected(f, cb, start, slice.blocks, slice.instructions)
        invariant forall c :: c in seen ==> PredsCovered(f, c, slice.instructions)
        invariant ChecksUnused(f) && OnlyCheck(f, cb, old(slice.instructions)) ==> OnlyCheck(f, cb, slice.instructions)
        decreases |f.blocks.Keys - seen|, |work|
      {
        var b := work[|work| - 1];
        FlowPop(f, cb, start, seen, work, given, slice.blocks);
        work := work[..|work| - 1];
        if b !in seen {
          MoreIsSmaller(f.blocks.Keys, seen, b);
          ghost var known, was := slice.instructions, seen;
          seen := seen + {b};
          work := CollectPredecessors(slice, cb, b, work, start, seen, given);
          forall c | c in was ensures PredsCovered(f, c, slice.instructions) {
            PredsStayCovered(f, c, known, slice.instructions);
          }
        }
      }
      FlowDone(f, cb, start, seen, given, slice.blocks);
    }

    /** The first phase of collectCheckSlice: the check call and everything it needs. */
    method CollectOperandSlice(slice: CheckSlice, cb: InstId)
      requires slice.Valid() && slice.instructions == {} && cb in fn.code.insts && IsCheck(fn.code.insts[cb].op)
      modifies slice`instructions, slice`ordered, this`touched
      ensures slice.Valid() && slice.instructions == BackwardSlice(fn.code, cb)
      ensures ChecksUnused(fn.code) ==> OnlyCheck(fn.code, cb, slice.instructions)
    {
      hide BackwardSlice, NoDup;
      AddWithOperands(slice, cb, cb);
      assert {} + {cb} == {cb};
      LeastIsBackwardSlice(fn.code, cb, slice.instructions);
    }

    method CollectCheckSlice(cb: InstId) returns (slice: CheckSlice)
      requires IR.Valid(fn.code) && cb in fn.code.insts && IsCheck(fn.code.insts[cb].op)
      modifies this`touched
      ensures fresh(slice) && slice.Valid()
      ensures BackwardSlice(fn.code, cb) <= slice.instructions
      ensures cb in fn.code.parent && slice.blocks == SliceBlocks(fn.code, cb, fn.code.parent[cb])
      ensures SliceOf(fn.code, cb, fn.code.parent[cb], slice.instructions)
      ensures ChecksUnused(fn.code) ==> OnlyCheck(fn.code, cb, slice.instructions)
    {
      hide OnlyCheck, ChecksUnused, BackwardSlice, NoDup, Collected, SliceOf;
      slice := new CheckSlice();
      CollectOperandSlice(slice, cb);
      var b := fn.code.parent[cb];
      BlockMembers(fn.code, b);
      CollectedFirst(fn.code, cb, b);
      var _ := AddSanitizerBlock(slice, cb, b, b);
      CollectControlFlowSlice(slice, cb, b);
    }

    /** canEraseInstruction; "all users inside the slice" follows from there being none. */
    method CanEraseInstruction(slice: CheckSlice, i: InstId) returns (can: bool)
      requires slice.Valid()
      ensures can <==> Candidate(fn.code, slice.instructions, i) && Unused(fn.code, i)
    {
      if i !in fn.code.insts || i !in slice.instructions || IsTerminator(fn.code.insts[i].op) {
        return false;
      }
      var allUsersInside := forall j | j in fn.code.insts :: Use(i) in fn.code.insts[j].operands ==> j in slice.instructions;
      if !allUsersInside || !Unused(fn.code, i) {
        return false;
      }
      can := Erasable(fn.code.insts[i].op);
    }

    method EraseDeadSliceInstructions(slice: CheckSlice) returns (removed: nat, ghost gone: set<InstId>)
      requires slice.Valid()
      modifies fn
      ensures IsLeastErasure(old(fn.code), slice.instructions, gone)
      ensures fn.code == Minus(old(fn.code), gone) && removed == |gone|
      ensures forall i :: i in gone ==> Candidate(old(fn.code), slice.instructions, i)
      ensures forall i, j :: i in gone && j in fn.code.insts ==> Use(i) !in fn.code.insts[j].operands
    {
      hide Removed, NoDup, IsLeastErasure, SliceOf, Candidate, Unused;
      ghost var f, s := fn.code, slice.instructions;
      removed, gone := 0, {};
      MinusNothing(f);
      var changed := true;
      while changed
        invariant Erasing(f, s, gone, fn.code) && removed == |gone|
        invariant !changed ==> forall i :: i in slice.ordered ==> !(Candidate(fn.code, s, i) && Unused(fn.code, i))
        decreases |fn.code.insts|, changed
      {
        changed := false;
        ghost var size := |fn.code.insts|;
        for k := |slice.ordered| downto 0
          invariant Erasing(f, s, gone, fn.code) && removed == |gone|
          invariant if changed then |fn.code.insts| < size else |fn.code.insts| == size
          invariant !changed ==> forall j :: k <= j < |slice.ordered| ==>
                      !(Candidate(fn.code, s, slice.ordered[j]) && Unused(fn.code, slice.ordered[j]))
        {
          var i := slice.ordered[k];
          var can := CanEraseInstruction(slice, i);
          if can {
            EraseOne(f, s, gone, fn.code, i);
            fn.code := Minus(fn.code, {i});
            gone := gone + {i};
            removed := removed + 1;
            changed := true;
          }
        }
      }
      ErasingDone(f, s, gone, fn.code);
    }

    /** hasNonSanitizerPredecessor. */
    method HasOutsidePredecessor(b: BlockId, blocks: set<BlockId>) returns (has: bool)
      ensures has <==> exists p :: Edge(fn.code, p, b) && p !in blocks
    {
      var preds := Predecessors(b);
      has := exists p | p in preds :: p !in blocks;
    }

    /** The validation loop: can every predecessor of r be redirected? */
    method Validate(r: BlockId, preds: seq<BlockId>) returns (ok: bool)
      requires forall p :: p in preds <==> Edge(fn.code, p, r)
      requires r in fn.code.blocks && (Term(fn.code, r).Br? || Term(fn.code, r).Unreachable?)
      ensures ok <==> Redirectable(fn.code, r)
      ensures ok <==> forall p :: Edge(fn.code, p, r) ==> Diverts(fn.code, r, p)
    {
      hide Edge, SafeSucc, Diverts, Fallthrough, Term;
      forall p | Edge(fn.code, p, r)
        ensures SafeSucc(Term(fn.code, p), r, Fallthrough(fn.code, r)).Some? <==> Diverts(fn.code, r, p)
      {
        CanRedirect(fn.code, r, p);
      }
      var fallthrough := Fallthrough(fn.code, r);
      for k := 0 to |preds|
        invariant forall j :: 0 <= j < k ==> SafeSucc(Term(fn.code, preds[j]), r, fallthrough).Some?
      {
        assert preds[k] in preds;
        if SafeSucc(Term(fn.code, preds[k]), r, fallthrough).None? {
          return false;
        }
      }
      ok := true;
    }

    /** The commit loop. */
    method Commit(slice: CheckSlice, r: BlockId, preds: seq<BlockId>, ghost cb: InstId)
      requires slice.Valid() && IR.Valid(fn.code) && CanBypass(fn.code, r, cb) && r in fn.code.blocks
      requires NoDup(preds) && forall p :: p in preds <==> Edge(fn.code, p, r)
      modifies fn, slice, this`touched
      ensures slice.Valid() && fn.code == Redirected(old(fn.code), r, Preds(old(fn.code), r))
    {
      hide Edge, SafeSucc, CanBypass, IR.Valid, Redirected, Term, DropPred, SetTerm, Grown;
      ghost var f := fn.code;
      var fallthrough := Fallthrough(fn.code, r);
      RedirectedNothing(f, r);
      ghost var done: set<BlockId> := {};
      for k := 0 to |preds|
        invariant slice.Valid() && done <= Preds(f, r) && fn.code == Redirected(f, r, done)
        invariant forall q :: q in done <==> q in preds[..k]
      {
        var p := preds[k];
        assert p in preds && p !in preds[..k];
        EdgeFrom(f, p, r);
        CommitStep(f, r, cb, done, p);
        var safe := SafeSucc(Term(fn.code, p), r, fallthrough);
        CollectBackwardFromInstruction(slice, TermId(fn.code, p));
        fn.code := DropPred(fn.code, r, p);
        fn.code := SetTerm(fn.code, p, safe.value);
        done := done + {p};
      }
      forall p | p in Preds(f, r) ensures p in done {
        assert p in preds[..|preds|];
      }
      assert done == Preds(f, r);
    }

    method BypassReportBlock(slice: CheckSlice, cb: InstId) returns (ok: bool)
      requires slice.Valid() && IR.Valid(fn.code) && cb in fn.code.parent
      modifies fn, slice, this`touched
      ensures slice.Valid()
      ensures ok <==> CanBypass(old(fn.code), old(fn.code).parent[cb], cb)
      ensures ok <==> MayBypass(old(fn.code), old(fn.code).parent[cb], cb)
      ensures !ok ==> slice.instructions == old(slice.instructions)
      ensures fn.code == if ok then Bypassed(old(fn.code), old(fn.code).parent[cb]) else old(fn.code)
    {
      hide IR.Valid, NoDup, Redirected, WithoutBlock, Edge, SanitizerOnlyBlock, Redirectable, Term, MayBypass;
      ghost var f := fn.code;
      PlacedBlock(f, cb);
      var r := fn.code.parent[cb];
      CanBypassExact(f, r, cb);
      BlockMembers(fn.code, r);
      var only := IsSanitizerOnlyBlock(r, cb);
      if !only || !(Term(fn.code, r).Unreachable? || Term(fn.code, r).Br?) {
        return false;
      }
      var preds := Predecessors(r);
      var valid := Validate(r, preds);
      if !valid {
        return false;
      }
      Commit(slice, r, preds, cb);
      CommitDone(f, r, cb);
      var outside := HasOutsidePredecessor(r, slice.blocks);
      var left := Predecessors(r);
      // The two early exits of lines 419-423 cannot fire.
      ok := !outside && left == [];
      assert forall p :: p !in left;
      FirstMember(left);
      assert ok;
      if ok {
        fn.code := WithoutBlock(fn.code, r);
      }
    }

    /** eraseDirectCheckCall: plain calls without users only. */
    method EraseDirectCheckCall(cb: InstId) returns (erased: bool)
      requires cb in fn.code.insts
      modifies fn, this`touched
      ensures erased <==> old(fn.code).insts[cb].op.Call? && Unused(old(fn.code), cb)
      ensures fn.code == if erased then Minus(old(fn.code), {cb}) else old(fn.code)
    {
      erased := fn.code.insts[cb].op.Call? && Unused(fn.code, cb);
      if erased {
        touched := true;
        fn.code := Minus(fn.code, {cb});
      }
    }

    /** Deletes trivially dead instructions until none is left. */
    method CleanupDeadInstructions() returns (ghost gone: set<InstId>)
      modifies fn
      ensures fn.code == Minus(old(fn.code), gone)
      ensures Dead(old(fn.code), gone)
      ensures touched ==> IsDeadSet(old(fn.code), gone) && NothingDead(fn.code)
    {
      ghost var f := fn.code;
      gone := {};
      MinusNothing(f);
      if !touched {
        return;
      }
      while exists i :: i in fn.code.insts && DeadKind(fn.code.insts[i].op) && Unused(fn.code, i)
        invariant fn.code == Minus(f, gone)
        invariant Dead(f, gone) && forall xs: set<InstId> :: DeadClosed(f, xs) ==> gone <= xs
        decreases |fn.code.insts|
      {
        var i :| i in fn.code.insts && DeadKind(fn.code.insts[i].op) && Unused(fn.code, i);
        MinusOne(fn.code, i);
        MinusTwice(f, gone, {i});
        MinusUsers(f, gone, i);
        UnusedMeans(fn.code, i);
        DeadStep(f, gone, i);
        fn.code := Minus(fn.code, {i});
        gone := gone + {i};
      }
      DeadDone(f, gone);
      DeadSetLeavesNone(f, gone);
    }

    /** The blocks reachable from the entry block. */
    method Reachable() returns (reached: set<BlockId>)
      requires IR.Valid(fn.code)
      ensures reached <= fn.code.blocks.Keys
      ensures forall b: BlockId :: b in fn.code.blocks ==> (b in reached <==> Reaches(fn.code, fn.code.entry, b))
    {
      ghost var f := fn.code;
      hide IR.Valid, Edge, ReachIn, Reaches;
      reached := {fn.code.entry};
      var work := {fn.code.entry};
      ReachRefl(f, f.entry);
      EntryIsBlock(f);
      while work != {}
        invariant f.entry in reached && work <= reached <= f.blocks.Keys
        invariant forall b :: b in reached ==> Reaches(f, f.entry, b)
        invariant forall b, d :: b in reached && b !in work && Edge(f, b, d) ==> d in reached
        decreases |f.blocks.Keys - reached|, |work|
      {
        var b :| b in work;
        var more := set d | d in Successors(Term(fn.code, b)) && d !in reached;
        forall d | d in more ensures d in f.blocks && Reaches(f, f.entry, d) {
          EdgeIs(f, b, d);
          EdgeTo(f, b, d);
          ReachStep(f, f.entry, b, d);
        }
        forall d | Edge(f, b, d) ensures d in reached + more {
          EdgeIs(f, b, d);
        }
        if more != {} {
          GrowsReached(f.blocks.Keys, reached, more);
        } else {
          assert reached + more == reached && work - {b} + more == work - {b};
        }
        work := work - {b} + more;
        reached := reached + more;
      }
      forall b | Reaches(f, f.entry, b) ensures b in reached {
        ReachedIsAll(f, reached, b);
      }
    }

    /** EliminateUnreachableBlocks. */
    method EliminateUnreachableBlocks() returns (changed: bool)
      requires IR.Valid(fn.code)
      modifies fn
      ensures fn.code == WithoutBlocks(old(fn.code), UnreachableBlocks(old(fn.code)))
      ensures AllReachable(old(fn.code)) ==> !changed && fn.code == old(fn.code)
    {
      hide IR.Valid, WithoutBlocks, Reaches;
      var reached := Reachable();
      var gone := fn.code.blocks.Keys - reached;
      UnreachableAre(fn.code, reached);
      NothingUnreachable(fn.code);
      changed := gone != {};
      fn.code := WithoutBlocks(fn.code, gone);
    }

    /** MergeBlockIntoPredecessor. */
    method MergeBlockIntoPredecessor(b: BlockId) returns (merged: bool)
      requires Healthy(fn.code) && b in fn.code.blocks && b != fn.code.entry
      modifies fn
      ensures merged <==> Mergeable(old(fn.code), b)
      ensures !merged ==> fn.code == old(fn.code)
      ensures merged ==> Keeps(old(fn.code), fn.code, {}) && |fn.code.blocks| < |old(fn.code).blocks|
      ensures merged ==> exists p, phis :: MergedBy(old(fn.code), p, b, phis, fn.code)
    {
      hide Healthy, Edge, Term, Keeps, FoldPhi, Spliced, Mergeable, MergedBy;
      ghost var f := fn.code;
      HealthyParts(f);
      var preds := Predecessors(b);
      OnlyPredecessor(f, b, preds);
      if |preds| != 1 || preds[0] == b {
        return false;
      }
      var p := preds[0];
      var term := Term(fn.code, p);
      if !(term.Br? || term.CondBr?) || exists d | d in Successors(term) :: d != b {
        return false;
      }
      if SelfPhi(fn.code, b) {
        return false;
      }
      ghost var phis := Merge(p, b);
      merged := true;
    }

    method Merge(p: BlockId, b: BlockId) returns (ghost phis: seq<InstId>)
      requires Healthy(fn.code) && Spliceable(fn.code, p, b)
      modifies fn
      ensures Keeps(old(fn.code), fn.code, {}) && |fn.code.blocks| < |old(fn.code).blocks|
      ensures MergedBy(old(fn.code), p, b, phis, fn.code)
    {
      hide Healthy, Edge, Term, Keeps, FoldPhi, Spliced, FoldSeq, FoldsIn;
      phis := FoldAll(p, b);
      HealthyParts(fn.code);
      SpliceableLength(fn.code, p, b);
      ghost var g := fn.code;
      SpliceKeeps(g, p, b);
      SpliceShrinks(g, p, b);
      fn.code := Spliced(fn.code, p, b);
      KeepsAlso(old(fn.code), g, fn.code);
    }

    /** FoldSingleEntryPHINodes. */
    method FoldAll(p: BlockId, b: BlockId) returns (ghost phis: seq<InstId>)
      requires Healthy(fn.code) && Spliceable(fn.code, p, b)
      modifies fn
      ensures Healthy(fn.code) && Keeps(old(fn.code), fn.code, {}) && Spliceable(fn.code, p, b)
      ensures fn.code.blocks.Keys == old(fn.code).blocks.Keys && |fn.code.blocks| == |old(fn.code).blocks|
      ensures fn.code == FoldSeq(old(fn.code), phis) && FoldsIn(old(fn.code), b, phis) && forall i :: !PhiIn(fn.code, b, i)
    {
      ghost var f := fn.code;
      phis := [];
      KeepsRefl(f);
      hide Healthy, Keeps, FoldPhi;
      InBlocks(fn.code, p, b);
      hide Spliceable;
      while exists i :: i in fn.code.blocks[b] && i in fn.code.insts && fn.code.insts[i].op.Phi?
        invariant Healthy(fn.code) && Keeps(f, fn.code, {}) && Spliceable(fn.code, p, b)
        invariant fn.code.blocks.Keys == f.blocks.Keys && b in fn.code.blocks
        invariant fn.code == FoldSeq(f, phis) && FoldsIn(f, b, phis)
        decreases |fn.code.insts|
      {
        var i :| i in fn.code.blocks[b] && i in fn.code.insts && fn.code.insts[i].op.Phi?;
        ghost var g := fn.code;
        FoldKeeps(g, i);
        FoldShrinks(g, i);
        HealthyParts(g);
        FoldSpliceable(g, p, b, i);
        FoldNext(f, b, phis, i);
        phis := phis + [i];
        fn.code := FoldPhi(fn.code, i);
        KeepsAlso(f, g, fn.code);
        KeepsHealthy(g, fn.code, {});
      }
      assert |fn.code.blocks.Keys| == |f.blocks.Keys|;
    }

    /** One round over the blocks, up to the first merge. */
    method MergeOne() returns (merged: bool)
      requires Healthy(fn.code)
      modifies fn
      ensures Keeps(old(fn.code), fn.code, {}) && Healthy(fn.code)
      ensures if merged then |fn.code.blocks| < |old(fn.code).blocks| else fn.code == old(fn.code)
      ensures !merged ==> NothingMergeable(fn.code)
      ensures merged ==> OneMerge(old(fn.code), fn.code)
    {
      hide Healthy, Keeps, Mergeable, MergedBy;
      ghost var g := fn.code;
      KeepsRefl(g);
      merged := false;
      var rest := fn.code.blocks.Keys - {fn.code.entry};
      while rest != {} && !merged
        invariant Keeps(g, fn.code, {}) && Healthy(fn.code)
        invariant !merged ==> fn.code == g && rest <= g.blocks.Keys - {g.entry}
        invariant !merged ==> forall b :: b in g.blocks && b != g.entry && b !in rest ==> !Mergeable(g, b)
        invariant merged ==> |fn.code.blocks| < |g.blocks| && OneMerge(g, fn.code)
        decreases |rest|
      {
        var b :| b in rest;
        rest := rest - {b};
        merged := MergeBlockIntoPredecessor(b);
        if merged {
          KeepsHealthy(g, fn.code, {});
        }
      }
    }

    /** simplifyCFG: merges until no block can be merged. */
    method SimplifyCFG() returns (changed: bool, ghost merges: nat)
      requires Healthy(fn.code)
      modifies fn
      ensures Keeps(old(fn.code), fn.code, {})
      ensures if changed then |fn.code.blocks| < |old(fn.code).blocks| else fn.code == old(fn.code)
      ensures touched ==> NothingMergeable(fn.code)
      ensures MergedIn(old(fn.code), fn.code, merges)
    {
      hide Healthy, Keeps, Mergeable, OneMerge;
      ghost var f := fn.code;
      KeepsRefl(f);
      HealthyParts(f);
      changed, merges := false, 0;
      if !touched {
        return;
      }
      changed := EliminateUnreachableBlocks();
      var localChanged := true;
      while localChanged
        invariant Keeps(f, fn.code, {}) && Healthy(fn.code)
        invariant if changed then |fn.code.blocks| < |f.blocks| else fn.code == f
        invariant !localChanged ==> NothingMergeable(fn.code)
        invariant MergedIn(f, fn.code, merges)
        decreases |fn.code.blocks|, localChanged
      {
        ghost var g := fn.code;
        localChanged := MergeOne();
        changed := changed || localChanged;
        if localChanged {
          MergedNext(f, g, fn.code, merges);
          merges := merges + 1;
        }
        KeepsAlso(f, g, fn.code);
      }
    }

    /** cleanupDeadInstructions, then simplifyCFG. */
    method Tidy()
      requires Healthy(fn.code)
      modifies fn
      ensures Keeps(old(fn.code), fn.code, {})
      ensures touched ==> NothingMergeable(fn.code)
    {
      hide Healthy, Keeps, Dead, NothingMergeable, NothingDead, IsDeadSet;
      ghost var f := fn.code;
      ghost var gone := CleanupDeadInstructions();
      DeadIsKept(f, gone);
      ghost var g := fn.code;
      KeepsHealthy(f, g, {});
      var _, _ := SimplifyCFG();
      KeepsAlso(f, g, fn.code);
    }

    /** The first half of removeCheckSlice: bypass the report block, or erase the call with its dead slice. */
    method StripCheck(cb: InstId) returns (ok: bool, ghost way: Way)
      requires Healthy(fn.code) && cb in Checks(fn.code)
      modifies fn, this`touched
      ensures touched && Takes(old(fn.code), cb, way) && fn.code == After(old(fn.code), cb, way)
      ensures ok <==> !way.Stays?
      ensures ok ==> NothingDead(fn.code)
    {
      hide SliceOf, IsDeadSet, NothingDead, Healthy, OnlyCheck, IsLeastErasure, SliceOf, Dead, CanBypass, Bypassed, Minus, Unused, ChecksUnused, IR.Valid;
      hide Candidate, BackwardSlice, SliceBlocks;
      ghost var f := fn.code;
      CheckFacts(f, cb);
      touched := true;
      var slice := CollectCheckSlice(cb);
      ok := BypassReportBlock(slice, cb);
      ghost var dead: set<InstId>, gone: set<InstId> := {}, {};
      ghost var members := slice.instructions;
      if ok {
        touched := true;
        dead := CleanupDeadInstructions();
        way := WithBlock(dead);
        return;
      }
      ok := EraseDirectCheckCall(cb);
      if !ok {
        touched := true;
        way := Stays;
        return;
      }
      var removed;
      removed, gone := EraseDeadSliceInstructions(slice);
      touched := true;
      dead := CleanupDeadInstructions();
      way := InPlace(members, gone, dead);
    }

    /**
     removeCheckSlice: removes the check iff it is a plain call. It loses no other check and leaves a healthy
     function, exactly if it does not take the entry block for the report block.
     */
    method RemoveCheckSlice(cb: InstId) returns (ok: bool)
      requires Healthy(fn.code) && cb in Checks(fn.code)
      modifies fn, this`touched
      ensures ok <==> old(fn.code).insts[cb].op.Call?
      ensures touched && (!ok ==> fn.code == old(fn.code))
      ensures ok && fn.code.entry in fn.code.blocks ==> NothingMergeable(fn.code)
      ensures Keeps(old(fn.code), fn.code, if ok then {cb} else {}) <==> !EntryReport(old(fn.code), cb)
      ensures fn.code.entry in fn.code.blocks <==> !EntryReport(old(fn.code), cb)
      ensures !EntryReport(old(fn.code), cb) ==> exists way, n ::
                Takes(old(fn.code), cb, way) && MergedIn(After(old(fn.code), cb, way), fn.code, n)
    {
      hide *;
      ghost var f := fn.code;
      ghost var way;
      ok, way := StripCheck(cb);
      NotMerged(fn.code);
      WayDecides(f, cb, way);
      if ok && fn.code.entry in fn.code.blocks {
        ghost var g := fn.code;
        KeepsHealthy(f, g, {cb});
        var _, merges := SimplifyCFG();
        KeepsTrans(f, g, fn.code, {cb}, {});
        assert {cb} + {} == {cb};
        KeepsEntry(f, fn.code, {cb});
      }
    }
  }
}
