/** What removing one check makes of a function, up to the merging of blocks. */
module Removal {
  import opened IR
  import opened Bypass
  import opened SliceSpec
  import opened Guard
  import opened Health

  /** How a check went: not at all, with its report block, or erased where it stood; then dead instructions went. */
  datatype Way = Stays | WithBlock(dead: set<InstId>) | InPlace(slice: set<InstId>, gone: set<InstId>, dead: set<InstId>)

  /** Trivially dead instructions with all their users. */
  ghost predicate Dead(f: Func, dead: set<InstId>)
  {
    forall i :: i in dead ==> i in f.insts && DeadKind(f.insts[i].op) && Users(f, i) <= dead
  }

  /** Every trivially dead instruction all of whose users are in xs is in xs. */
  ghost predicate DeadClosed(f: Func, xs: set<InstId>)
  {
    forall i :: i in f.insts && DeadKind(f.insts[i].op) && Users(f, i) <= xs ==> i in xs
  }

  /** What deleting dead instructions until none is left deletes: the least such set. */
  ghost predicate IsDeadSet(f: Func, dead: set<InstId>)
  {
    && Dead(f, dead) && DeadClosed(f, dead)
    && forall xs: set<InstId> :: DeadClosed(f, xs) ==> dead <= xs
  }

  /** No instruction is trivially dead. */
  ghost predicate NothingDead(f: Func)
  {
    forall i :: i in f.insts && DeadKind(f.insts[i].op) ==> exists j :: j in f.insts && Use(i) in f.insts[j].operands
  }

  lemma DeadSetLeavesNone(f: Func, dead: set<InstId>)
    requires IsDeadSet(f, dead)
    ensures NothingDead(Minus(f, dead))
  {
    var g := Minus(f, dead);
    forall i | i in g.insts && DeadKind(g.insts[i].op) ensures exists j :: j in g.insts && Use(i) in g.insts[j].operands {
      var j :| j in Users(f, i) && j !in dead;
      assert j in g.insts && Use(i) in g.insts[j].operands;
    }
  }

  ghost function BlockOf(f: Func, cb: InstId): BlockId
  {
    if cb in f.parent then f.parent[cb] else f.entry
  }

  /** The function before dead instructions are deleted. */
  ghost function Stripped(f: Func, cb: InstId, way: Way): Func
  {
    match way
    case Stays => f
    case WithBlock(_) => Bypassed(f, BlockOf(f, cb))
    case InPlace(_, gone, _) => Minus(Minus(f, {cb}), gone)
  }

  ghost function After(f: Func, cb: InstId, way: Way): Func
  {
    match way
    case Stays => f
    case WithBlock(dead) => Minus(Stripped(f, cb, way), dead)
    case InPlace(_, _, dead) => Minus(Stripped(f, cb, way), dead)
  }

  /** The way that removeCheckSlice takes. */
  ghost predicate Takes(f: Func, cb: InstId, way: Way)
  {
    && cb in f.insts && cb in f.parent
    && match way
       case Stays => !f.insts[cb].op.Call?
       case WithBlock(dead) => CanBypass(f, f.parent[cb], cb) && IsDeadSet(Stripped(f, cb, way), dead)
       case InPlace(slice, gone, dead) =>
         && !CanBypass(f, f.parent[cb], cb) && f.insts[cb].op.Call?
         && SliceOf(f, cb, f.parent[cb], slice) && OnlyCheck(f, cb, slice) && IsLeastErasure(Minus(f, {cb}), slice, gone)
         && IsDeadSet(Stripped(f, cb, way), dead)
  }

  lemma UnusedCheck(f: Func, cb: InstId)
    requires ChecksUnused(f) && cb in Checks(f)
    ensures Unused(f, cb) && (f.insts[cb].op.Call? ==> Harmless(f, {cb}))
  {
  }

  lemma DeadIsKept(f: Func, dead: set<InstId>)
    requires Healthy(f) && Dead(f, dead)
    ensures Keeps(f, Minus(f, dead), {})
  {
    hide Healthy, Keeps, Minus;
    DeadKeeps(f, dead);
  }

  lemma InPlaceKeeps(f: Func, cb: InstId, slice: set<InstId>, gone: set<InstId>)
    requires Healthy(f) && cb in Checks(f) && f.insts[cb].op.Call?
    requires OnlyCheck(f, cb, slice) && IsLeastErasure(Minus(f, {cb}), slice, gone)
    ensures Keeps(f, Minus(Minus(f, {cb}), gone), {cb})
  {
    hide *;
    HealthyParts(f);
    UnusedCheck(f, cb);
    MinusKeeps(f, {cb});
    LeastIsDetached(Minus(f, {cb}), slice, gone);
    SliceKeeps(f, cb, slice, Minus(f, {cb}), gone);
    KeepsTrans(f, Minus(f, {cb}), Minus(Minus(f, {cb}), gone), {cb}, {});
    assert {cb} + {} == {cb};
  }

  /** Up to the merging of blocks, the check is lost and no other, unless its block is the entry block. */
  lemma RemovalKeeps(f: Func, cb: InstId, way: Way)
    requires Healthy(f) && cb in Checks(f) && Takes(f, cb, way) && !EntryReport(f, cb)
    ensures Keeps(f, After(f, cb, way), if way.Stays? then {} else {cb})
  {
    hide Healthy, Keeps, Minus, CanBypass, Bypassed, Checks, OnlyCheck, IsLeastErasure, SliceOf, Dead;
    match way
    case Stays => KeepsRefl(f);
    case WithBlock(dead) =>
      BypassKeeps(f, f.parent[cb], cb);
      ThenDead(f, cb, Bypassed(f, f.parent[cb]), dead);
    case InPlace(slice, gone, dead) =>
      InPlaceKeeps(f, cb, slice, gone);
      ThenDead(f, cb, Minus(Minus(f, {cb}), gone), dead);
  }

  lemma ThenDead(f: Func, cb: InstId, g: Func, dead: set<InstId>)
    requires Keeps(f, g, {cb}) && Dead(g, dead)
    ensures Keeps(f, Minus(g, dead), {cb})
  {
    hide *;
    KeepsHealthy(f, g, {cb});
    DeadIsKept(g, dead);
    KeepsTrans(f, g, Minus(g, dead), {cb}, {});
    assert {cb} + {} == {cb};
  }

  lemma AfterEntry(f: Func, cb: InstId, way: Way)
    ensures After(f, cb, way).entry == f.entry
    ensures way.WithBlock? ==> After(f, cb, way).blocks.Keys == f.blocks.Keys - {BlockOf(f, cb)}
  {
    hide Removed;
  }

  lemma KeepsEntry(f: Func, g: Func, gone: set<InstId>)
    requires Keeps(f, g, gone)
    ensures g.entry in g.blocks
  {
    hide AllReachable, ChecksUnused, Guards, Checks, Placed, EndsWell;
  }

  /** What becomes of the function is decided beforehand: all is well exactly if the check does not report in the entry block. */
  lemma WayDecides(f: Func, cb: InstId, way: Way)
    requires Healthy(f) && cb in Checks(f) && Takes(f, cb, way)
    ensures way.Stays? <==> !f.insts[cb].op.Call?
    ensures way.Stays? ==> After(f, cb, way) == f
    ensures Keeps(f, After(f, cb, way), if way.Stays? then {} else {cb}) <==> !EntryReport(f, cb)
    ensures After(f, cb, way).entry in After(f, cb, way).blocks <==> !EntryReport(f, cb)
  {
    hide Keeps, CanBypass, Dead, OnlyCheck, IsLeastErasure, SliceOf, Stripped, After, Checks, Valid, AllReachable, ChecksUnused;
    AfterEntry(f, cb, way);
    if CanBypass(f, f.parent[cb], cb) {
      BypassedIsCall(f, f.parent[cb], cb);
    }
    if !EntryReport(f, cb) {
      RemovalKeeps(f, cb, way);
      KeepsEntry(f, After(f, cb, way), if way.Stays? then {} else {cb});
    } else if Keeps(f, After(f, cb, way), if way.Stays? then {} else {cb}) {
      KeepsEntry(f, After(f, cb, way), if way.Stays? then {} else {cb});
    }
    StaysAsIs(f, cb);
  }

  lemma StaysAsIs(f: Func, cb: InstId)
    ensures After(f, cb, Stays) == f
  {
  }
}
