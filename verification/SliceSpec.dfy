/**
 What a check slice contains and which of its instructions can be erased: the
 specification of the loops in `lib/CheckSliceRemover.cpp`.
 */
module SliceSpec {
  import opened IR
  import opened Bypass

  // ----- operands, backwards -----

  /** The operands of i that are sanitizer-only instructions. */
  ghost function Deps(f: Func, i: InstId): set<InstId>
  {
    if i !in f.insts then {}
    else set j | j in f.insts && Use(j) in f.insts[i].operands && SanitizerOnly(f.insts[j].op)
  }

  /** Everything in xs but not in known has its dependencies in xs. */
  ghost predicate ClosedBeyond(f: Func, xs: set<InstId>, known: set<InstId>)
  {
    forall x :: x in xs && x !in known ==> Deps(f, x) <= xs
  }

  /** The sanitizer-only instructions among some operands. */
  ghost function Seeds(f: Func, ops: seq<Operand>): set<InstId>
  {
    set j | j in f.insts && Use(j) in ops && SanitizerOnly(f.insts[j].op)
  }

  /** now is the least extension of known that contains the seeds and is closed under Deps beyond known. */
  ghost predicate Grown(f: Func, known: set<InstId>, seeds: set<InstId>, now: set<InstId>)
  {
    && known + seeds <= now <= known + f.insts.Keys
    && ClosedBeyond(f, now, known)
    && forall xs: set<InstId> :: known + seeds <= xs && ClosedBeyond(f, xs, known) ==> now <= xs
  }

  lemma GrownNothing(f: Func, known: set<InstId>, seeds: set<InstId>)
    requires seeds <= known
    ensures Grown(f, known, seeds, known)
  {
  }

  lemma GrownIsLarger(f: Func, known: set<InstId>, seeds: set<InstId>, now: set<InstId>)
    requires Grown(f, known, seeds, now)
    ensures known <= now && |f.insts.Keys - now| <= |f.insts.Keys - known|
  {
    SubsetSize(f.insts.Keys - now, f.insts.Keys - known);
  }

  lemma {:induction false} SubsetSize(xs: set<InstId>, ys: set<InstId>)
    requires xs <= ys
    ensures |xs| <= |ys|
  {
    if xs != {} {
      var x :| x in xs;
      SubsetSize(xs - {x}, ys - {x});
    }
  }

  lemma MoreIsSmaller(all: set<InstId>, known: set<InstId>, j: InstId)
    requires j in all && j !in known
    ensures |all - (known + {j})| < |all - known|
  {
    assert all - (known + {j}) == (all - known) - {j};
  }

  lemma GrownTwice(f: Func, known: set<InstId>, s: set<InstId>, mid: set<InstId>, t: set<InstId>, now: set<InstId>)
    requires Grown(f, known, s, mid) && Grown(f, mid, t, now)
    ensures Grown(f, known, s + t, now)
  {
    forall xs: set<InstId> | known + (s + t) <= xs && ClosedBeyond(f, xs, known) ensures now <= xs {
      assert ClosedBeyond(f, xs, mid) by {
        assert known + s <= xs;
      }
      assert mid <= xs;
    }
  }

  lemma SeedsAreDeps(f: Func, i: InstId)
    requires i in f.insts
    ensures Seeds(f, f.insts[i].operands) == Deps(f, i)
  {
  }

  lemma GrownStart(f: Func, known: set<InstId>, ops: seq<Operand>)
    ensures Grown(f, known, Seeds(f, ops[..0]), known)
  {
    GrownNothing(f, known, Seeds(f, ops[..0]));
  }

  /** Following one operand more. */
  lemma GrownNext(f: Func, known: set<InstId>, ops: seq<Operand>, k: nat, mid: set<InstId>, now: set<InstId>)
    requires k < |ops| && Grown(f, known, Seeds(f, ops[..k]), mid) && Grown(f, mid, Seeds(f, [ops[k]]), now)
    ensures Grown(f, known, Seeds(f, ops[..k + 1]), now) && |f.insts.Keys - now| <= |f.insts.Keys - known|
  {
    hide Grown;
    GrownTwice(f, known, Seeds(f, ops[..k]), mid, Seeds(f, [ops[k]]), now);
    assert Seeds(f, ops[..k + 1]) == Seeds(f, ops[..k]) + Seeds(f, [ops[k]]);
    GrownIsLarger(f, known, Seeds(f, ops[..k + 1]), now);
  }

  lemma GrownSeed(f: Func, known: set<InstId>, j: InstId, now: set<InstId>)
    requires j in f.insts && j !in known && Grown(f, known + {j}, Deps(f, j), now)
    ensures Grown(f, known, {j}, now)
  {
    forall xs: set<InstId> | known + {j} <= xs && ClosedBeyond(f, xs, known) ensures now <= xs {
      assert ClosedBeyond(f, xs, known + {j});
    }
  }

  /** x is reached from i backwards over at most n operand edges through sanitizer-only instructions. */
  ghost predicate DependsIn(f: Func, i: InstId, x: InstId, n: nat)
    decreases n
  {
    x == i || (n > 0 && exists y :: DependsIn(f, i, y, n - 1) && x in Deps(f, y))
  }

  ghost predicate Depends(f: Func, i: InstId, x: InstId)
  {
    exists n: nat :: DependsIn(f, i, x, n)
  }

  ghost function BackwardSlice(f: Func, i: InstId): set<InstId>
  {
    set x | x in f.insts && Depends(f, i, x)
  }

  lemma {:induction false} DependsInClosed(f: Func, i: InstId, x: InstId, n: nat, xs: set<InstId>)
    requires i in xs && ClosedBeyond(f, xs, {}) && DependsIn(f, i, x, n)
    ensures x in xs
    decreases n
  {
    if x != i {
      var y :| DependsIn(f, i, y, n - 1) && x in Deps(f, y);
      DependsInClosed(f, i, y, n - 1, xs);
    }
  }

  lemma BackwardSliceClosed(f: Func, i: InstId)
    ensures ClosedBeyond(f, BackwardSlice(f, i), {})
    ensures i in f.insts ==> i in BackwardSlice(f, i)
  {
    forall x, y | x in BackwardSlice(f, i) && y in Deps(f, x) ensures y in BackwardSlice(f, i) {
      var n: nat :| DependsIn(f, i, x, n);
      assert DependsIn(f, i, y, n + 1);
    }
    assert DependsIn(f, i, i, 0);
  }

  /** The least closed set that contains i is the set of instructions reached backwards from i. */
  lemma LeastIsBackwardSlice(f: Func, i: InstId, xs: set<InstId>)
    requires i in f.insts && i in xs && xs <= f.insts.Keys && ClosedBeyond(f, xs, {})
    requires forall ys: set<InstId> :: i in ys && ClosedBeyond(f, ys, {}) ==> xs <= ys
    ensures xs == BackwardSlice(f, i)
  {
    BackwardSliceClosed(f, i);
    forall x | x in BackwardSlice(f, i) ensures x in xs {
      var n: nat :| DependsIn(f, i, x, n);
      DependsInClosed(f, i, x, n, xs);
    }
  }

  // ----- blocks, backwards -----

  /** b is reached from start backwards over at most n edges through blocks that serve only the check cb. */
  ghost predicate LeadsIn(f: Func, cb: InstId, start: BlockId, b: BlockId, n: nat)
    decreases n
  {
    b == start || (n > 0 && SanitizerOnlyBlock(f, b, cb) && exists c :: LeadsIn(f, cb, start, c, n - 1) && Edge(f, b, c))
  }

  ghost predicate Leads(f: Func, cb: InstId, start: BlockId, b: BlockId)
  {
    exists n: nat :: LeadsIn(f, cb, start, b, n)
  }

  /** The sanitizer-only blocks that lead to the check through sanitizer-only blocks, its own block included. */
  ghost function SliceBlocks(f: Func, cb: InstId, start: BlockId): set<BlockId>
  {
    set b | b in f.blocks && SanitizerOnlyBlock(f, b, cb) && Leads(f, cb, start, b)
  }

  lemma LeadsBack(f: Func, cb: InstId, start: BlockId, b: BlockId, c: BlockId)
    requires Leads(f, cb, start, c) && Edge(f, b, c) && SanitizerOnlyBlock(f, b, cb)
    ensures Leads(f, cb, start, b)
  {
    var n: nat :| LeadsIn(f, cb, start, c, n);
    assert LeadsIn(f, cb, start, b, n + 1);
  }

  lemma {:induction false} LeadsInSeen(f: Func, cb: InstId, start: BlockId, b: BlockId, n: nat, seen: set<BlockId>)
    requires start in seen && LeadsIn(f, cb, start, b, n)
    requires forall p, c :: c in seen && Edge(f, p, c) && SanitizerOnlyBlock(f, p, cb) ==> p in seen
    ensures b in seen
    decreases n
  {
    if b != start {
      var c :| LeadsIn(f, cb, start, c, n - 1) && Edge(f, b, c);
      LeadsInSeen(f, cb, start, c, n - 1, seen);
    }
  }

  /**
   The worklist of collectControlFlowSlice: everything seen or waiting leads to
   the check, and every sanitizer-only predecessor of a seen block is known.
   */
  ghost predicate FlowInvariant(f: Func, cb: InstId, start: BlockId, seen: set<BlockId>, work: seq<BlockId>,
                                given: set<BlockId>, blocks: set<BlockId>)
  {
    && given <= blocks && (start in seen || start in work)
    && (forall b :: b in seen || b in work ==> b in f.blocks && Leads(f, cb, start, b) && (b == start || b in blocks))
    && (forall b :: b in blocks ==> b in given || (SanitizerOnlyBlock(f, b, cb) && Leads(f, cb, start, b)))
  }

  ghost predicate PredsKnown(f: Func, cb: InstId, c: BlockId, seen: set<BlockId>, work: seq<BlockId>)
  {
    forall p :: Edge(f, p, c) && SanitizerOnlyBlock(f, p, cb) ==> p in seen || p in work
  }

  lemma FlowStarts(f: Func, cb: InstId, start: BlockId, given: set<BlockId>)
    requires start in f.blocks
    ensures FlowInvariant(f, cb, start, {}, [start], given, given)
  {
    assert LeadsIn(f, cb, start, start, 0);
  }

  /** The last block of the worklist moves to the seen blocks. */
  lemma FlowPop(f: Func, cb: InstId, start: BlockId, seen: set<BlockId>, work: seq<BlockId>,
                given: set<BlockId>, blocks: set<BlockId>)
    requires work != [] && FlowInvariant(f, cb, start, seen, work, given, blocks)
    ensures var b, rest := work[|work| - 1], work[..|work| - 1];
            && b in f.blocks && Leads(f, cb, start, b)
            && FlowInvariant(f, cb, start, seen + {b}, rest, given, blocks)
            && (b in seen ==> seen + {b} == seen)
            && forall c :: PredsKnown(f, cb, c, seen, work) ==> PredsKnown(f, cb, c, seen + {b}, rest)
  {
    var b, rest := work[|work| - 1], work[..|work| - 1];
    assert b in work;
    assert forall p :: p in work ==> p in rest || p == b;
    assert forall p :: p in rest ==> p in work;
  }

  /** A predecessor p of the seen block b has been treated. */
  lemma FlowPush(f: Func, cb: InstId, start: BlockId, seen: set<BlockId>, work: seq<BlockId>, given: set<BlockId>,
                 blocks: set<BlockId>, b: BlockId, p: BlockId, work': seq<BlockId>, blocks': set<BlockId>)
    requires FlowInvariant(f, cb, start, seen, work, given, blocks) && b in seen && Edge(f, p, b)
    requires work' == if SanitizerOnlyBlock(f, p, cb) then work + [p] else work
    requires blocks' == blocks + if SanitizerOnlyBlock(f, p, cb) then {p} else {}
    ensures FlowInvariant(f, cb, start, seen, work', given, blocks')
    ensures forall c :: c in work ==> c in work'
    ensures SanitizerOnlyBlock(f, p, cb) ==> p in work'
    ensures forall c :: PredsKnown(f, cb, c, seen, work) ==> PredsKnown(f, cb, c, seen, work')
  {
    if SanitizerOnlyBlock(f, p, cb) {
      LeadsBack(f, cb, start, p, b);
    }
  }

  lemma FlowSeen(f: Func, cb: InstId, b: BlockId, seen: set<BlockId>, work: seq<BlockId>, preds: seq<BlockId>)
    requires forall p :: p in preds <==> Edge(f, p, b)
    requires forall j :: 0 <= j < |preds| && SanitizerOnlyBlock(f, preds[j], cb) ==> preds[j] in work
    ensures PredsKnown(f, cb, b, seen, work)
  {
  }

  lemma FlowDone(f: Func, cb: InstId, start: BlockId, seen: set<BlockId>, given: set<BlockId>, blocks: set<BlockId>)
    requires FlowInvariant(f, cb, start, seen, [], given, blocks)
    requires forall c :: c in seen ==> PredsKnown(f, cb, c, seen, [])
    requires given == if SanitizerOnlyBlock(f, start, cb) then {start} else {}
    ensures blocks == SliceBlocks(f, cb, start)
    ensures forall b :: Leads(f, cb, start, b) ==> b in seen
  {
    forall b | Leads(f, cb, start, b) ensures b in seen {
      var n: nat :| LeadsIn(f, cb, start, b, n);
      LeadsInSeen(f, cb, start, b, n, seen);
    }
    assert LeadsIn(f, cb, start, start, 0);
  }

  // ----- what the whole slice contains -----

  ghost predicate StandsIn(f: Func, blocks: set<BlockId>, i: InstId)
  {
    exists b :: b in blocks && b in f.blocks && i in f.blocks[b]
  }

  /** The sanitizer-only terminator of p decides whether b, which leads to the check, is entered. */
  ghost predicate Decides(f: Func, cb: InstId, start: BlockId, p: BlockId, b: BlockId)
  {
    Leads(f, cb, start, b) && Edge(f, p, b) && SanitizerOnly(Term(f, p))
  }

  /** x is needed by the check, or by a terminator that decides about the way to it. */
  ghost predicate Needed(f: Func, cb: InstId, start: BlockId, x: InstId)
  {
    Depends(f, cb, x) || exists p, b :: Decides(f, cb, start, p, b) && Depends(f, TermId(f, p), x)
  }

  /** The terminator of p is in the slice, with its operands. */
  ghost predicate Covered(f: Func, p: BlockId, members: set<InstId>)
  {
    TermId(f, p) in members && Deps(f, TermId(f, p)) <= members
  }

  ghost predicate PredsCovered(f: Func, b: BlockId, members: set<InstId>)
  {
    forall p :: Edge(f, p, b) && SanitizerOnly(Term(f, p)) ==> Covered(f, p, members)
  }

  /**
   Members of a slice that has the given blocks: the sanitizer instructions of
   these blocks are all there, whatever stands elsewhere has its operands there,
   and everything that stands elsewhere is needed.
   */
  ghost predicate Collected(f: Func, cb: InstId, start: BlockId, blocks: set<BlockId>, members: set<InstId>)
  {
    && BackwardSlice(f, cb) <= members <= f.insts.Keys
    && (forall b, i :: b in blocks && b in f.blocks && i in f.blocks[b] && i in f.insts && SanitizerOnly(f.insts[i].op) ==>
          i in members)
    && (forall x :: x in members ==> StandsIn(f, blocks, x) || Deps(f, x) <= members)
    && (forall x :: x in members ==> StandsIn(f, blocks, x) || Needed(f, cb, start, x))
  }

  /** The slice of the check cb: no instruction is missing, and none is there without a reason. */
  ghost predicate SliceOf(f: Func, cb: InstId, start: BlockId, members: set<InstId>)
  {
    && Collected(f, cb, start, SliceBlocks(f, cb, start), members)
    && forall b :: Leads(f, cb, start, b) ==> PredsCovered(f, b, members)
  }

  lemma DependsBack(f: Func, i: InstId, y: InstId, x: InstId)
    requires Depends(f, i, y) && x in Deps(f, y)
    ensures Depends(f, i, x)
  {
    var n: nat :| DependsIn(f, i, y, n);
    assert DependsIn(f, i, x, n + 1);
  }

  /** Growing from the operands of i adds nothing that i does not depend on. */
  lemma GrownUpper(f: Func, known: set<InstId>, i: InstId, now: set<InstId>, x: InstId)
    requires Grown(f, known, Deps(f, i), now) && x in now
    ensures x in known || Depends(f, i, x)
  {
    hide Depends, Deps;
    DependsSelf(f, i);
    var xs := known + set y | y in now && Depends(f, i, y);
    forall y | y in Deps(f, i) ensures y in xs {
      DependsBack(f, i, i, y);
    }
    forall y | y in xs && y !in known ensures Deps(f, y) <= xs {
      forall z | z in Deps(f, y) ensures z in xs {
        DependsBack(f, i, y, z);
      }
    }
    assert ClosedBeyond(f, xs, known);
  }

  lemma DependsSelf(f: Func, i: InstId)
    ensures Depends(f, i, i)
  {
    assert DependsIn(f, i, i, 0);
  }

  lemma CollectedFirst(f: Func, cb: InstId, start: BlockId)
    ensures Collected(f, cb, start, {}, BackwardSlice(f, cb))
  {
    BackwardSliceClosed(f, cb);
  }

  /** A terminator that decides about the way to the check joins the slice with all it depends on. */
  lemma CollectedTerm(f: Func, cb: InstId, start: BlockId, blocks: set<BlockId>, known: set<InstId>,
                      p: BlockId, b: BlockId, now: set<InstId>)
    requires Collected(f, cb, start, blocks, known) && Decides(f, cb, start, p, b) && TermId(f, p) in f.insts
    requires Grown(f, known + {TermId(f, p)}, Deps(f, TermId(f, p)), now)
    ensures Collected(f, cb, start, blocks, now) && Covered(f, p, now)
  {
    hide Depends, Deps, BackwardSlice, Decides, TermId;
    var t := TermId(f, p);
    forall x | x in now ensures StandsIn(f, blocks, x) || Deps(f, x) <= now {
    }
    forall x | x in now ensures StandsIn(f, blocks, x) || Needed(f, cb, start, x) {
      GrownUpper(f, known + {t}, t, now, x);
      DependsSelf(f, t);
    }
  }

  /** A block that serves only the check joins the slice. */
  lemma CollectedBlock(f: Func, cb: InstId, start: BlockId, blocks: set<BlockId>, known: set<InstId>, b: BlockId, now: set<InstId>)
    requires Collected(f, cb, start, blocks, known) && b in f.blocks && known <= now <= f.insts.Keys
    requires forall i :: i in now && i !in known ==> i in f.blocks[b]
    requires forall i :: i in f.blocks[b] && i in f.insts && SanitizerOnly(f.insts[i].op) ==> i in now
    ensures Collected(f, cb, start, blocks + {b}, now)
  {
    hide Deps, BackwardSlice, SanitizerOnly, Needed;
    forall x | x in now
      ensures StandsIn(f, blocks + {b}, x) || Deps(f, x) <= now
      ensures StandsIn(f, blocks + {b}, x) || Needed(f, cb, start, x)
    {
      if x in known && StandsIn(f, blocks, x) {
        var c :| c in blocks && c in f.blocks && x in f.blocks[c];
        assert c in blocks + {b};
      } else if x !in known {
        assert b in blocks + {b};
      }
    }
  }

  lemma PredsStayCovered(f: Func, b: BlockId, members: set<InstId>, more: set<InstId>)
    requires PredsCovered(f, b, members) && members <= more
    ensures PredsCovered(f, b, more)
  {
  }

  lemma PredsAllCovered(f: Func, b: BlockId, preds: seq<BlockId>, members: set<InstId>)
    requires forall p :: p in preds <==> Edge(f, p, b)
    requires forall j :: 0 <= j < |preds| && SanitizerOnly(Term(f, preds[j])) ==> Covered(f, preds[j], members)
    ensures PredsCovered(f, b, members)
  {
  }

  /** No instruction uses the result of a check call. */
  ghost predicate ChecksUnused(f: Func)
  {
    forall i, j :: i in f.insts && j in f.insts && Use(j) in f.insts[i].operands ==> !IsCheck(f.insts[j].op)
  }

  /** The only plain check call in a slice is the check it was collected for. */
  ghost predicate OnlyCheck(f: Func, cb: InstId, instructions: set<InstId>)
  {
    forall i :: i in instructions ==> i in f.insts && (f.insts[i].op.Call? && IsCheck(f.insts[i].op) ==> i == cb)
  }

  lemma OnlyCheckAdd(f: Func, cb: InstId, known: set<InstId>, now: set<InstId>)
    requires OnlyCheck(f, cb, known)
    requires forall i :: i in now && i !in known ==> i in f.insts && (f.insts[i].op.Call? && IsCheck(f.insts[i].op) ==> i == cb)
    ensures OnlyCheck(f, cb, now)
  {
  }

  lemma GrownOnlyCheck(f: Func, cb: InstId, known: set<InstId>, i: InstId, now: set<InstId>)
    requires ChecksUnused(f) && Grown(f, known, Deps(f, i), now) && OnlyCheck(f, cb, known)
    ensures OnlyCheck(f, cb, now)
  {
    var xs := known + set j | j in f.insts && !IsCheck(f.insts[j].op);
    assert ClosedBeyond(f, xs, known);
    assert Deps(f, i) <= xs;
  }

  // ----- erasing dead slice instructions -----

  /** The tests of canEraseInstruction that do not depend on the users of i. */
  predicate Erasable(op: Op)
  {
    match op
    case Call(c) => c.check || c.msanRuntime || c.noop
    case Load(simple) => simple
    case _ => !IsTerminator(op) && SanitizerOnly(op)
  }

  /** Everything the sanitizer may put into a block of its own can go, except terminators and calls that are only empty asm. */
  lemma ErasableExact(op: Op)
    ensures Erasable(op) <==>
            SanitizerKind(op) && !IsTerminator(op) && (op.Call? ==> op.callee.check || op.callee.msanRuntime || op.callee.noop)
  {
  }

  predicate Candidate(f: Func, slice: set<InstId>, i: InstId)
  {
    i in f.insts && i in slice && Erasable(f.insts[i].op)
  }

  function Removed(s: seq<InstId>, gone: set<InstId>): seq<InstId>
  {
    if s == [] then [] else (if s[0] in gone then [] else [s[0]]) + Removed(s[1..], gone)
  }

  /** f without the given instructions. */
  function Minus(f: Func, gone: set<InstId>): Func
  {
    Func(f.entry,
         map b | b in f.blocks :: Removed(f.blocks[b], gone),
         map i | i in f.insts && i !in gone :: f.insts[i],
         map i | i in f.parent && i !in gone :: f.parent[i])
  }

  /** Every candidate all of whose users are in xs is in xs. */
  ghost predicate ErasureClosed(f: Func, slice: set<InstId>, xs: set<InstId>)
  {
    forall i :: Candidate(f, slice, i) && Users(f, i) <= xs ==> i in xs
  }

  /** The least set that contains every candidate all of whose users it contains. */
  ghost predicate IsLeastErasure(f: Func, slice: set<InstId>, gone: set<InstId>)
  {
    && gone <= f.insts.Keys && ErasureClosed(f, slice, gone)
    && forall xs: set<InstId> :: ErasureClosed(f, slice, xs) ==> gone <= xs
  }

  /** Two slices that list the same instructions, in whatever order, leave the same function. */
  lemma SliceOrderIsIrrelevant(f: Func, a: seq<InstId>, b: seq<InstId>, gone: set<InstId>, gone': set<InstId>)
    requires forall i :: i in a <==> i in b
    requires IsLeastErasure(f, (set i | i in a), gone) && IsLeastErasure(f, (set i | i in b), gone')
    ensures Minus(f, gone) == Minus(f, gone')
  {
    var slice := set i | i in a;
    assert slice == set i | i in b;
    assert IsLeastErasure(f, slice, gone) && IsLeastErasure(f, slice, gone');
    assert gone == gone';
  }

  /** What survives does not refer to what is erased, and no terminator is erased. */
  ghost predicate Detached(f: Func, gone: set<InstId>)
  {
    && (forall i :: i in gone && i in f.insts ==> !IsTerminator(f.insts[i].op))
    && (forall i, j :: i in gone && j in f.insts && j !in gone ==> Use(i) !in f.insts[j].operands)
  }

  /** The least erasure holds candidates only, with all their users. */
  lemma LeastIsDetached(f: Func, slice: set<InstId>, gone: set<InstId>)
    requires IsLeastErasure(f, slice, gone)
    ensures forall i :: i in gone ==> Candidate(f, slice, i) && Users(f, i) <= gone
    ensures Detached(f, gone)
  {
    var good := set i | i in gone && Candidate(f, slice, i) && Users(f, i) <= gone;
    forall i | Candidate(f, slice, i) && Users(f, i) <= good ensures i in good {
      assert Users(f, i) <= gone;
    }
    assert ErasureClosed(f, slice, good);
    assert gone <= good;
    forall i, j | i in gone && j in f.insts && j !in gone ensures Use(i) !in f.insts[j].operands {
      assert j !in Users(f, i);
    }
  }

  lemma {:induction false} RemovedTwice(s: seq<InstId>, a: set<InstId>, b: set<InstId>)
    ensures Removed(Removed(s, a), b) == Removed(s, a + b)
  {
    if s != [] {
      RemovedTwice(s[1..], a, b);
      if s[0] in a {
        assert Removed(s, a) == Removed(s[1..], a);
      } else {
        assert Removed(s, a)[0] == s[0] && Removed(s, a)[1..] == Removed(s[1..], a);
      }
    }
  }

  lemma {:induction false} RemovedMembers(s: seq<InstId>, gone: set<InstId>, i: InstId)
    ensures i in Removed(s, gone) <==> i in s && i !in gone
  {
    if s != [] {
      RemovedMembers(s[1..], gone, i);
    }
  }

  lemma {:induction false} RemovedNothing(s: seq<InstId>)
    ensures Removed(s, {}) == s
  {
    if s != [] {
      RemovedNothing(s[1..]);
    }
  }

  lemma MinusTwice(f: Func, a: set<InstId>, b: set<InstId>)
    ensures Minus(Minus(f, a), b) == Minus(f, a + b)
  {
    forall c | c in f.blocks ensures Removed(Removed(f.blocks[c], a), b) == Removed(f.blocks[c], a + b) {
      RemovedTwice(f.blocks[c], a, b);
    }
  }

  lemma MinusNothing(f: Func)
    ensures Minus(f, {}) == f
  {
    forall b | b in f.blocks ensures Removed(f.blocks[b], {}) == f.blocks[b] {
      RemovedNothing(f.blocks[b]);
    }
  }

  lemma MinusUsers(f: Func, gone: set<InstId>, i: InstId)
    ensures Users(Minus(f, gone), i) == Users(f, i) - gone
  {
  }

  /** The state of the erasing loop: gone has been erased so far. */
  ghost predicate Erasing(f: Func, slice: set<InstId>, gone: set<InstId>, now: Func)
  {
    && now == Minus(f, gone) && gone <= f.insts.Keys
    && (forall i :: i in gone ==> Users(f, i) <= gone && Candidate(f, slice, i))
    && (forall xs: set<InstId> :: ErasureClosed(f, slice, xs) ==> gone <= xs)
  }

  predicate Unused(f: Func, i: InstId)
  {
    forall j | j in f.insts :: Use(i) !in f.insts[j].operands
  }

  lemma MinusOne(f: Func, i: InstId)
    requires i in f.insts
    ensures |Minus(f, {i}).insts| == |f.insts| - 1
  {
    assert Minus(f, {i}).insts.Keys == f.insts.Keys - {i};
  }

  lemma MinusCandidate(f: Func, slice: set<InstId>, gone: set<InstId>, i: InstId)
    ensures Candidate(Minus(f, gone), slice, i) <==> Candidate(f, slice, i) && i !in gone
  {
  }

  lemma UnusedMeans(f: Func, i: InstId)
    ensures Unused(f, i) <==> Users(f, i) == {}
  {
    if Users(f, i) == {} {
      forall j | j in f.insts ensures Use(i) !in f.insts[j].operands {
        assert j !in Users(f, i);
      }
    }
  }

  lemma EraseOne(f: Func, slice: set<InstId>, gone: set<InstId>, now: Func, i: InstId)
    requires Erasing(f, slice, gone, now) && Candidate(now, slice, i) && Unused(now, i)
    ensures i in now.insts && i in f.insts && i !in gone
    ensures Erasing(f, slice, gone + {i}, Minus(now, {i}))
    ensures |Minus(now, {i}).insts| == |now.insts| - 1
  {
    MinusOne(now, i);
    MinusTwice(f, gone, {i});
    MinusUsers(f, gone, i);
    MinusCandidate(f, slice, gone, i);
    UnusedMeans(now, i);
    hide Minus, Users, Unused, Candidate;
    forall xs: set<InstId> | ErasureClosed(f, slice, xs) ensures gone + {i} <= xs {
      assert Candidate(f, slice, i) && Users(f, i) <= gone <= xs;
    }
  }

  lemma ErasingDone(f: Func, slice: set<InstId>, gone: set<InstId>, now: Func)
    requires Erasing(f, slice, gone, now)
    requires forall i :: i in slice ==> !(Candidate(now, slice, i) && Unused(now, i))
    ensures IsLeastErasure(f, slice, gone)
    ensures forall i, j :: i in gone && j in now.insts ==> Use(i) !in now.insts[j].operands
  {
    forall i | Candidate(f, slice, i) && Users(f, i) <= gone ensures i in gone {
      MinusUsers(f, gone, i);
      UnusedMeans(now, i);
      MinusCandidate(f, slice, gone, i);
    }
    forall i, j | i in gone && j in now.insts ensures Use(i) !in now.insts[j].operands {
      assert j !in Users(f, i);
    }
  }
}
