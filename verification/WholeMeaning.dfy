/**
 The whole of removeCheckSlice, merging of blocks included: on a function in SSA
 form it cannot be noticed except that the reports of the check are missing.
 */
module WholeMeaning {
  import opened IR
  import opened Bypass
  import opened SliceSpec
  import opened Guard
  import opened Health
  import opened Removal
  import opened Merge
  import opened Semantics
  import opened BypassMeaning
  import opened RemovalMeaning
  import ErasureMeaning
  import opened MergeMeaning

  // ----- erasing keeps a function in SSA form -----

  lemma MinusInst(f: Func, gone: set<InstId>, x: InstId)
    ensures var g := Minus(f, gone);
            && (x in g.insts <==> x in f.insts && x !in gone)
            && (x in g.insts ==> g.insts[x] == f.insts[x] && Home(g, x) == Home(f, x))
            && g.entry == f.entry && g.blocks.Keys == f.blocks.Keys
  {
  }

  lemma MinusEdges(f: Func, gone: set<InstId>)
    requires Valid(f) && Harmless(f, gone)
    ensures Valid(Minus(f, gone)) && forall a, b :: Edge(f, a, b) <==> Edge(Minus(f, gone), a, b)
  {
    hide Valid, Harmless, Term, Minus;
    MinusValid(f, gone);
    MinusInst(f, gone, 0);
  }

  lemma ProperMinus(f: Func, gone: set<InstId>)
    requires Proper(f) && Harmless(f, gone)
    ensures Proper(Minus(f, gone))
  {
    hide Valid, Harmless, Minus, AllReachable, Edge, Home;
    var g := Minus(f, gone);
    MinusEdges(f, gone);
    forall x
      ensures x in g.insts <==> x in f.insts && x !in gone
      ensures x in g.insts ==> g.insts[x] == f.insts[x] && Home(g, x) == Home(f, x)
      ensures g.entry == f.entry && g.blocks.Keys == f.blocks.Keys
    {
      MinusInst(f, gone, x);
    }
    assert g.entry == f.entry && g.blocks.Keys == f.blocks.Keys by { MinusInst(f, gone, 0); }
    DominatesSame(f, g);
    SameEdges(f, g);
    hide Dominates;
    assert SSA(g) by {
      forall y, k, a, j | PhiUses(g, y, k, a, Operand.Use(j)) && j in g.insts ensures Dominates(g, Home(g, j), a) {
        assert PhiUses(f, y, k, a, Operand.Use(j));
      }
    }
    assert PhisFit(g) by {
      forall y, k, l, a, o, o' | PhiUses(g, y, k, a, o) && PhiUses(g, y, l, a, o') ensures o == o' {
        assert PhiUses(f, y, k, a, o) && PhiUses(f, y, l, a, o');
      }
    }
  }

  // ----- bypassing keeps a function in SSA form -----

  lemma {:induction false} AroundBypassed(f: Func, r: BlockId, cb: InstId, d: BlockId, y: BlockId, n: nat) returns (m: nat)
    requires Valid(f) && CanBypass(f, r, cb) && d != r && Around(Bypassed(f, r), d, y, n)
    ensures Around(f, d, y, m)
    decreases n
  {
    hide Valid, CanBypass, Bypassed, Edge, SafeSucc, DivertsTo;
    BypassedShape(f, r);
    if y == f.entry {
      m := 0;
    } else {
      var c :| Edge(Bypassed(f, r), c, y) && Around(Bypassed(f, r), d, c, n - 1);
      m := AroundBypassed(f, r, cb, d, c, n - 1);
      BypassedEdge(f, r, cb, c, y);
      if Edge(f, c, y) {
        m := m + 1;
      } else {
        SafeIsNear(f, r, cb, c);
        assert Around(f, d, r, m + 1);
        m := m + 2;
      }
    }
  }

  lemma DominatesBypassed(f: Func, r: BlockId, cb: InstId, d: BlockId, x: BlockId)
    requires Valid(f) && CanBypass(f, r, cb) && d != r && Dominates(f, d, x)
    ensures Dominates(Bypassed(f, r), d, x)
  {
    hide Valid, CanBypass, Bypassed, Around;
    forall n: nat ensures !Around(Bypassed(f, r), d, x, n) {
      if Around(Bypassed(f, r), d, x, n) {
        var m := AroundBypassed(f, r, cb, d, x, n);
      }
    }
  }

  lemma {:induction false} DroppedEntries(ins: seq<BlockId>, ops: seq<Operand>, r: BlockId)
    requires |ins| == |ops|
    ensures |DropBlocks(ins, {r})| == |DropOperands(ins, ops, {r})|
    ensures forall a :: a in DropBlocks(ins, {r}) <==> a in ins && a != r
    ensures forall k :: 0 <= k < |DropBlocks(ins, {r})| ==> KeptEntry(ins, ops, DropBlocks(ins, {r})[k], DropOperands(ins, ops, {r})[k])
  {
    if ins != [] {
      DroppedEntries(ins[1..], ops[1..], r);
      forall a, o | KeptEntry(ins[1..], ops[1..], a, o) ensures KeptEntry(ins, ops, a, o) {
        var k :| 0 <= k < |ins| - 1 && ins[1..][k] == a && ops[1..][k] == o;
        assert ins[k + 1] == a && ops[k + 1] == o;
      }
      if ins[0] == r {
        assert DropBlocks(ins, {r}) == DropBlocks(ins[1..], {r}) && DropOperands(ins, ops, {r}) == DropOperands(ins[1..], ops[1..], {r});
      } else {
        assert KeptEntry(ins, ops, ins[0], ops[0]);
        assert DropBlocks(ins, {r}) == [ins[0]] + DropBlocks(ins[1..], {r});
        assert DropOperands(ins, ops, {r}) == [ops[0]] + DropOperands(ins[1..], ops[1..], {r});
      }
    }
  }

  ghost predicate KeptEntry(ins: seq<BlockId>, ops: seq<Operand>, a: BlockId, o: Operand)
    requires |ins| == |ops|
  {
    exists k :: 0 <= k < |ins| && ins[k] == a && ops[k] == o
  }

  lemma BypassedAt(f: Func, r: BlockId, x: InstId)
    requires Valid(f) && x in Bypassed(f, r).insts
    ensures var g := Bypassed(f, r);
            && x in f.insts && Home(f, x) != r && Home(g, x) == Home(f, x) && IsPhi(g, x) == IsPhi(f, x)
            && (IsPhi(f, x) ==> g.insts[x] == DropIncoming(f.insts[x], {r}))
            && (!IsPhi(f, x) ==> g.insts[x].operands == f.insts[x].operands || g.insts[x].operands == [])
  {
    var g := Bypassed(f, r);
    BypassedHome(f, r, x);
    hide Valid, Bypassed, SafeSucc, Edge;
    InstPlace(f, x);
    BypassedInst(f, r, f.parent[x], x);
  }

  lemma BypassedHome(f: Func, r: BlockId, x: InstId)
    requires Valid(f) && x in Bypassed(f, r).insts
    ensures x in f.insts && x in f.parent && f.parent[x] != r && Home(Bypassed(f, r), x) == Home(f, x) == f.parent[x]
  {
    hide SafeSucc, Edge, DropIncoming, EndsWell;
  }

  lemma BypassedUse(f: Func, r: BlockId, y: InstId, k: int, a: BlockId, o: Operand) returns (l: int)
    requires Valid(f) && PhiUses(Bypassed(f, r), y, k, a, o)
    ensures PhiUses(f, y, l, a, o) && a != r
  {
    hide Bypassed;
    BypassedAt(f, r, y);
    var ins, ops := f.insts[y].op.incoming, f.insts[y].operands;
    assert |ins| == |ops|;
    hide Valid;
    DroppedEntries(ins, ops, r);
    assert DropBlocks(ins, {r})[k] in DropBlocks(ins, {r});
    assert KeptEntry(ins, ops, a, o);
    l :| 0 <= l < |ins| && ins[l] == a && ops[l] == o;
  }

  lemma BypassedSSA(f: Func, r: BlockId, cb: InstId)
    requires Proper(f) && CanBypass(f, r, cb)
    ensures SSA(Bypassed(f, r))
  {
    hide Valid, AllReachable, PhisFit, CanBypass, Bypassed, Dominates, Home;
    var g := Bypassed(f, r);
    forall x, j | x in g.insts && !IsPhi(g, x) && Operand.Use(j) in g.insts[x].operands && j in g.insts
      ensures Dominates(g, Home(g, j), Home(g, x))
    {
      BypassedAt(f, r, x);
      BypassedAt(f, r, j);
      DominatesBypassed(f, r, cb, Home(f, j), Home(f, x));
    }
    forall y, k, a, j | PhiUses(g, y, k, a, Operand.Use(j)) && j in g.insts ensures Dominates(g, Home(g, j), a) {
      BypassedAt(f, r, j);
      var l := BypassedUse(f, r, y, k, a, Operand.Use(j));
      DominatesBypassed(f, r, cb, Home(f, j), a);
    }
  }

  /** The edges to a block with PHIs are those there were. */
  lemma EdgeToPhis(f: Func, r: BlockId, cb: InstId, a: BlockId, b: BlockId)
    requires Valid(f) && CanBypass(f, r, cb) && b != r && Fallthrough(f, r) != Some(b)
    ensures Edge(Bypassed(f, r), a, b) <==> a != r && Edge(f, a, b)
  {
    hide Valid, CanBypass, Bypassed, SafeSucc, Edge, Fallthrough;
    BypassedEdge(f, r, cb, a, b);
    EdgeKnown(f, a, b);
    if Edge(f, a, r) {
      SafeIsNear(f, r, cb, a);
      ReportEnds(f, r, cb);
      ReportSuccessor(f, r, cb, b);
    }
  }

  lemma EdgeKnown(f: Func, a: BlockId, b: BlockId)
    ensures Edge(f, a, b) ==> a in f.blocks
  {
  }

  lemma BypassedFits(f: Func, r: BlockId, cb: InstId)
    requires Proper(f) && CanBypass(f, r, cb) && (Fallthrough(f, r).Some? ==> NoPhis(f, Fallthrough(f, r).value))
    ensures PhisFit(Bypassed(f, r))
  {
    hide AllReachable, SSA, CanBypass, Bypassed, Edge, Fallthrough, Placed, EndsWell;
    var g := Bypassed(f, r);
    forall y, a | IsPhi(g, y) ensures Edge(g, a, Home(g, y)) <==> a in g.insts[y].op.incoming {
      BypassedAt(f, r, y);
      InstPlace(f, y);
      DroppedEntries(f.insts[y].op.incoming, f.insts[y].operands, r);
      EdgeToPhis(f, r, cb, a, Home(f, y));
      EntryIsEdge(f, y, a);
    }
    forall y, k, l, a, o, o' | PhiUses(g, y, k, a, o) && PhiUses(g, y, l, a, o') ensures o == o' {
      var i := BypassedUse(f, r, y, k, a, o);
      var j := BypassedUse(f, r, y, l, a, o');
    }
  }

  lemma ProperBypassed(f: Func, r: BlockId, cb: InstId)
    requires Proper(f) && CanBypass(f, r, cb) && (Fallthrough(f, r).Some? ==> NoPhis(f, Fallthrough(f, r).value))
    requires Valid(Bypassed(f, r)) && AllReachable(Bypassed(f, r))
    ensures Proper(Bypassed(f, r))
  {
    hide Valid, AllReachable, CanBypass, Bypassed, SSA, PhisFit, NoPhis;
    BypassedSSA(f, r, cb);
    BypassedFits(f, r, cb);
  }

  // ----- the whole removal -----

  lemma DeadIsHarmless(f: Func, dead: set<InstId>)
    requires Dead(f, dead)
    ensures Harmless(f, dead)
  {
  }

  lemma SliceIsHarmless(f: Func, slice: set<InstId>, gone: set<InstId>)
    requires IsLeastErasure(f, slice, gone)
    ensures Harmless(f, gone)
  {
    LeastIsDetached(f, slice, gone);
    forall i | i in gone ensures i in f.insts && !IsTerminator(f.insts[i].op) && SanitizerOnly(f.insts[i].op) {
      ErasableExact(f.insts[i].op);
      SanitizerKindExact(f.insts[i].op);
    }
  }

  /** Whichever way it takes, the remover leaves a function in SSA form, before it merges blocks. */
  lemma ProperAfter<W(!new)>(f: Func, cb: InstId, way: Way, m: Machine<W>)
    requires Healthy(f) && cb in Checks(f) && Takes(f, cb, way) && !EntryReport(f, cb) && Proper(f) && MayRemove(f, cb, way, m)
    ensures Proper(After(f, cb, way)) && After(f, cb, way).entry == f.entry
  {
    hide Healthy, Proper, Checks, EntryReport, Dead, IsLeastErasure, SliceOf, OnlyCheck, Minus, Bypassed, CanBypass, ErasureMeaning.Silent, Skippable;
    match way
    case Stays =>
    case WithBlock(_) =>
      SkippableParts(f, f.parent[cb], cb, m);
      ProperWithBlock(f, cb, way);
    case InPlace(slice, gone, dead) =>
      HealthyChecks(f);
      UnusedCheck(f, cb);
      ProperMinus(f, {cb});
      MinusInst(f, {cb}, 0);
      SliceIsHarmless(Minus(f, {cb}), slice, gone);
      ProperMinus(Minus(f, {cb}), gone);
      MinusInst(Minus(f, {cb}), gone, 0);
      DeadIsHarmless(Minus(Minus(f, {cb}), gone), dead);
      ProperMinus(Minus(Minus(f, {cb}), gone), dead);
      MinusInst(Minus(Minus(f, {cb}), gone), dead, 0);
  }

  lemma ProperWithBlock(f: Func, cb: InstId, way: Way)
    requires Healthy(f) && cb in Checks(f) && Takes(f, cb, way) && !EntryReport(f, cb) && Proper(f) && way.WithBlock?
    requires var s := Fallthrough(f, f.parent[cb]); s.Some? ==> NoPhis(f, s.value)
    ensures Proper(After(f, cb, way)) && After(f, cb, way).entry == f.entry
  {
    hide Healthy, Proper, Checks, EntryReport, Dead, Minus, Bypassed, CanBypass, Fallthrough, NoPhis;
    var r, dead := f.parent[cb], way.dead;
    NotEntry(f, cb);
    BypassKeeps(f, r, cb);
    HealthyProper(f, Bypassed(f, r), cb);
    ProperBypassed(f, r, cb);
    DeadIsHarmless(Bypassed(f, r), dead);
    ProperMinus(Bypassed(f, r), dead);
    BypassedShape(f, r);
    MinusInst(Bypassed(f, r), dead, 0);
  }

  lemma NotEntry(f: Func, cb: InstId)
    requires cb in f.parent && CanBypass(f, f.parent[cb], cb) && !EntryReport(f, cb)
    ensures f.parent[cb] != f.entry
  {
  }

  lemma HealthyChecks(f: Func)
    requires Healthy(f)
    ensures ChecksUnused(f)
  {
  }

  lemma HealthyProper(f: Func, g: Func, cb: InstId)
    requires Keeps(f, g, {cb})
    ensures Valid(g) && AllReachable(g)
  {
    hide Valid, AllReachable, ChecksUnused, Checks, Guards;
  }

  lemma SkippableParts<W(!new)>(f: Func, r: BlockId, cb: InstId, m: Machine<W>)
    requires Skippable(f, r, cb, m)
    ensures Fallthrough(f, r).Some? && NoPhis(f, Fallthrough(f, r).value)
  {
  }

  /**
   removeCheckSlice as a whole, with the merging of blocks: a function in SSA form
   finishes in the same worlds with the same traces, reports of the check erased.
   */
  lemma WholeRemovalUnnoticed<W(!new)>(f: Func, cb: InstId, way: Way, g: Func, n: nat, m: Machine<W>,
                                       env: Env, w0: W, w: W, t: seq<Event>)
    requires Healthy(f) && cb in Checks(f) && Takes(f, cb, way) && !EntryReport(f, cb) && MayRemove(f, cb, way, m)
    requires Proper(f) && MergedIn(After(f, cb, way), g, n)
    ensures Proper(g) && g.entry == f.entry
    ensures Finishes(f, m, At(f.entry, 0, env, w0), cb, w, t) <==> Finishes(g, m, At(f.entry, 0, env, w0), cb, w, t)
  {
    hide *;
    ProperAfter(f, cb, way, m);
    RemovalUnnoticed(f, cb, way, m, env, w0, w, t);
    MergesUnnoticed(After(f, cb, way), g, n, cb, m, env, w0, w, t);
  }

  /**
   The same for a report block that need not return, one way round: what a run
   finishes with that never enters the report block, the function also finishes
   with when everything is done.
   */
  lemma GoodRunsFinish<W(!new)>(f: Func, cb: InstId, way: Way, g: Func, n: nat, m: Machine<W>,
                                env: Env, w0: W, k: nat, w: W, t: seq<Event>)
    requires Healthy(f) && cb in Checks(f) && Takes(f, cb, way) && !EntryReport(f, cb) && way.WithBlock?
    requires ErasureMeaning.Silent(way.dead, cb, m) && Proper(f) && MergedIn(After(f, cb, way), g, n)
    requires var s := Fallthrough(f, f.parent[cb]); s.Some? ==> NoPhis(f, s.value)
    requires Avoids(f, BlockOf(f, cb), m, At(f.entry, 0, env, w0), k)
    requires Steps(f, m, At(f.entry, 0, env, w0), k).0 == Stopped(w)
    requires EraseReports(Steps(f, m, At(f.entry, 0, env, w0), k).1, cb) == t
    ensures Finishes(g, m, At(f.entry, 0, env, w0), cb, w, t)
  {
    hide *;
    var c := At(f.entry, 0, env, w0);
    ProperWithBlock(f, cb, way);
    var l := GoodRunsKept(f, cb, way, m, env, w0, k);
    StoppedMatches(Stripped(f, cb, way), way.dead, w, Steps(After(f, cb, way), m, c, l).0);
    FinishesBy(After(f, cb, way), m, c, cb, w, t, l);
    MergesUnnoticed(After(f, cb, way), g, n, cb, m, env, w0, w, t);
  }

  lemma StoppedMatches<W>(f: Func, gone: set<InstId>, w: W, c: Config<W>)
    requires ErasureMeaning.Matches(f, gone, Stopped(w), c)
    ensures c == Stopped(w)
  {
  }

  lemma FinishesBy<W>(f: Func, m: Machine<W>, c: Config<W>, cb: InstId, w: W, t: seq<Event>, l: nat)
    requires Steps(f, m, c, l).0 == Stopped(w) && EraseReports(Steps(f, m, c, l).1, cb) == t
    ensures Finishes(f, m, c, cb, w, t)
  {
  }
}
