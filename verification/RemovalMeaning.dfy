/** Removing a check, up to the merging of blocks, cannot be noticed except that its reports are missing. */
module RemovalMeaning {
  import opened IR
  import opened Bypass
  import opened SliceSpec
  import opened Guard
  import opened Health
  import opened Removal
  import opened Semantics
  import opened BypassMeaning
  import opened ErasureMeaning

  /** The assumptions on the machine: what is skipped or erased leaves the world alone and shows only reports of cb. */
  ghost predicate MayRemove<W(!new)>(f: Func, cb: InstId, way: Way, m: Machine<W>)
  {
    match way
    case Stays => true
    case WithBlock(dead) => Skippable(f, BlockOf(f, cb), cb, m) && Silent(dead, cb, m)
    case InPlace(_, gone, dead) => Silent(gone + {cb}, cb, m) && Silent(dead, cb, m)
  }

  lemma DeadMayGo<W(!new)>(f: Func, dead: set<InstId>, cb: InstId, m: Machine<W>)
    requires Valid(f) && Dead(f, dead) && Silent(dead, cb, m)
    ensures MayErase(f, dead, cb, m)
  {
    hide Valid, Silent, DeadKind, IsTerminator;
    forall i | i in dead && i in f.insts ensures !IsTerminator(f.insts[i].op) {
      DeadIsNoTerminator(f.insts[i].op);
    }
    forall i, j | i in dead && j in f.insts && j !in dead ensures Use(i) !in f.insts[j].operands {
      assert j !in Users(f, i);
    }
  }

  lemma DeadIsNoTerminator(op: Op)
    requires DeadKind(op)
    ensures !IsTerminator(op)
  {
  }

  lemma StrippedIsValid(f: Func, cb: InstId, way: Way)
    requires Healthy(f) && cb in Checks(f) && Takes(f, cb, way) && !EntryReport(f, cb)
    ensures Valid(Stripped(f, cb, way)) && Stripped(f, cb, way).entry == f.entry && f.entry in Stripped(f, cb, way).blocks
  {
    hide Keeps, CanBypass, Bypassed, Dead, OnlyCheck, IsLeastErasure, SliceOf, Valid, AllReachable, ChecksUnused, Minus, Checks;
    match way
    case Stays => EntryIsBlock(f);
    case WithBlock(_) =>
      BypassKeeps(f, f.parent[cb], cb);
      BypassedShape(f, f.parent[cb]);
      KeepsHealthy(f, Bypassed(f, f.parent[cb]), {cb});
      EntryIsBlock(f);
    case InPlace(slice, gone, _) =>
      InPlaceKeeps(f, cb, slice, gone);
      KeepsHealthy(f, Minus(Minus(f, {cb}), gone), {cb});
      MinusBlocks(f, {cb});
      MinusBlocks(Minus(f, {cb}), gone);
      EntryIsBlock(f);
  }

  lemma EntryIsBlock(f: Func)
    requires Valid(f)
    ensures f.entry in f.blocks
  {
  }

  lemma MinusBlocks(f: Func, gone: set<InstId>)
    ensures Minus(f, gone).blocks.Keys == f.blocks.Keys && Minus(f, gone).entry == f.entry
  {
  }

  /** The first half alone. */
  lemma StrippingUnnoticed<W(!new)>(f: Func, cb: InstId, way: Way, m: Machine<W>, env: Env, w0: W, w: W, t: seq<Event>)
    requires Healthy(f) && cb in Checks(f) && Takes(f, cb, way) && !EntryReport(f, cb) && MayRemove(f, cb, way, m)
    ensures Finishes(f, m, At(f.entry, 0, env, w0), cb, w, t)
      <==> Finishes(Stripped(f, cb, way), m, At(f.entry, 0, env, w0), cb, w, t)
  {
    hide Finishes, Skippable, Silent, CanBypass, Bypassed, Dead, OnlyCheck, IsLeastErasure, SliceOf, Minus, Valid, AllReachable, Unused;
    match way
    case Stays =>
    case WithBlock(_) => SameOutcomes(f, f.parent[cb], cb, m, At(f.entry, 0, env, w0), w, t);
    case InPlace(slice, gone, _) =>
      UnusedCheck(f, cb);
      CheckRemovalUnnoticed(f, cb, slice, gone, m, env, w0, w, t);
  }

  /** Both functions finish from the entry block in the same worlds with the same traces, reports of cb erased. */
  lemma RemovalUnnoticed<W(!new)>(f: Func, cb: InstId, way: Way, m: Machine<W>, env: Env, w0: W, w: W, t: seq<Event>)
    requires Healthy(f) && cb in Checks(f) && Takes(f, cb, way) && !EntryReport(f, cb) && MayRemove(f, cb, way, m)
    ensures Finishes(f, m, At(f.entry, 0, env, w0), cb, w, t)
      <==> Finishes(After(f, cb, way), m, At(f.entry, 0, env, w0), cb, w, t)
  {
    hide Finishes, Healthy, EntryReport, Stripped, Silent, MayErase, CanBypass, OnlyCheck, IsLeastErasure, SliceOf, Dead;
    hide Minus, Checks, Skippable;
    StrippingUnnoticed(f, cb, way, m, env, w0, w, t);
    StrippedIsValid(f, cb, way);
    if !way.Stays? {
      DeadMayGo(Stripped(f, cb, way), way.dead, cb, m);
      ErasureUnnoticed(Stripped(f, cb, way), way.dead, cb, m, f.entry, env, w0, w, t);
    }
  }

  /** A run of n steps that never enters the block r. */
  ghost predicate Avoids<W>(f: Func, r: BlockId, m: Machine<W>, c: Config<W>, n: nat)
  {
    forall k: nat :: k <= n ==> Outside(f, r, Steps(f, m, c, k).0)
  }

  /**
   A report block that does not return: the runs that never report are matched whatever the block does. The
   outcome is the same, and so is the trace, with the dead instructions showing nothing.
   */
  lemma GoodRunsKept<W(!new)>(f: Func, cb: InstId, way: Way, m: Machine<W>, env: Env, w0: W, n: nat) returns (k: nat)
    requires Healthy(f) && cb in Checks(f) && Takes(f, cb, way) && !EntryReport(f, cb) && way.WithBlock?
    requires Silent(way.dead, cb, m) && Avoids(f, BlockOf(f, cb), m, At(f.entry, 0, env, w0), n)
    ensures k <= n
    ensures var c := At(f.entry, 0, env, w0);
      && Matches(Stripped(f, cb, way), way.dead, Steps(f, m, c, n).0, Steps(After(f, cb, way), m, c, k).0)
      && EraseReports(Steps(f, m, c, n).1, cb) == EraseReports(Steps(After(f, cb, way), m, c, k).1, cb)
  {
    hide Healthy, EntryReport, Silent, MayErase, CanBypass, Dead, Minus, Checks, Matches, Bypassed, Valid, Steps;
    var c := At(f.entry, 0, env, w0);
    StrippedIsValid(f, cb, way);
    DeadMayGo(Stripped(f, cb, way), way.dead, cb, m);
    ValidOf(f);
    NeverReports(f, BlockOf(f, cb), cb, m, c, n);
    StartMatches(Stripped(f, cb, way), way.dead, f.entry, env, w0);
    k := ErasureForward(Stripped(f, cb, way), way.dead, cb, m, c, c, n);
  }

  lemma ValidOf(f: Func)
    requires Healthy(f)
    ensures Valid(f)
  {
  }

  lemma StartMatches<W>(f: Func, gone: set<InstId>, b: BlockId, env: Env, w: W)
    requires Valid(f) && b in f.blocks
    ensures Matches(f, gone, At(b, 0, env, w), At(b, 0, env, w))
  {
    TermOf(f, b);
    assert f.blocks[b][..0] == [];
  }
}
