/** The class RedundantCheckEliminator (`lib/RedundantCheckEliminator.cpp`). */
module Eliminator {
  import opened IR
  import opened Bypass
  import opened SliceSpec
  import opened Guard
  import opened Health
  import opened Removal
  import opened Retention
  import opened SliceRemover

  /** The parts of a CheckedVariable that the policy looks at. */
  datatype GroupedCheck = GroupedCheck(check: Option<InstId>, access: AccessType)

  /** The members of a group that carry a check call. */
  function WithCall(group: seq<GroupedCheck>): seq<GroupedCheck>
  {
    if group == [] then []
    else WithCall(group[..|group| - 1]) + if group[|group| - 1].check.Some? then [group[|group| - 1]] else []
  }

  function Accesses(group: seq<GroupedCheck>): seq<AccessType>
  {
    seq(|group|, k requires 0 <= k < |group| => group[k].access)
  }

  /** The check i stands right behind a READ of its group and is itself a READ. */
  ghost predicate RedundantIn(group: seq<GroupedCheck>, i: InstId)
  {
    var g := WithCall(group);
    exists k :: 0 <= k < |g| && Redundant(Accesses(g), k) && g[k].check == Some(i)
  }

  ghost predicate RedundantInSome(groups: seq<seq<GroupedCheck>>, i: InstId)
  {
    exists n :: 0 <= n < |groups| && RedundantIn(groups[n], i)
  }

  lemma WithCallGrows(group: seq<GroupedCheck>, k: nat)
    requires k < |group|
    ensures WithCall(group[..k + 1]) == WithCall(group[..k]) + if group[k].check.Some? then [group[k]] else []
  {
    assert group[..k + 1][..k] == group[..k];
  }

  /** The call at a is the last one in t, and it is a READ. */
  ghost predicate EndsWithRead(t: seq<GroupedCheck>, a: int)
  {
    && 0 <= a < |t| && t[a].check.Some? && t[a].access == READ
    && forall c :: a < c < |t| ==> t[c].check.None?
  }

  lemma {:induction false} LastCall(t: seq<GroupedCheck>)
    ensures WithCall(t) != [] && WithCall(t)[|WithCall(t)| - 1].access == READ <==> exists a :: EndsWithRead(t, a)
  {
    if t != [] {
      var s, last := t[..|t| - 1], t[|t| - 1];
      LastCall(s);
      if last.check.None? {
        if a :| EndsWithRead(s, a) {
          assert EndsWithRead(t, a);
        }
        if a :| EndsWithRead(t, a) {
          assert EndsWithRead(s, a);
        }
      } else if last.access == READ {
        assert EndsWithRead(t, |t| - 1);
      }
    }
  }

  /** The check at b is i, a READ, and so is the call before it. */
  ghost predicate Repeats(group: seq<GroupedCheck>, b: nat, i: InstId)
  {
    b < |group| && group[b] == GroupedCheck(Some(i), READ) && exists a :: EndsWithRead(group[..b], a)
  }

  /** In terms of the group alone: a READ is redundant iff the call before it in the group is a READ. */
  lemma {:induction false} RedundantExact(group: seq<GroupedCheck>, i: InstId)
    ensures RedundantIn(group, i) <==> exists b: nat :: Repeats(group, b, i)
  {
    if group != [] {
      var n: nat := |group| - 1;
      var t := group[..n];
      RedundantExact(t, i);
      RedundantStep(group, n, i);
      forall b: nat | b < n ensures Repeats(t, b, i) <==> Repeats(group, b, i) {
        assert t[..b] == group[..b];
      }
      hide RedundantIn, Repeats;
      forall b: nat | Repeats(group, b, i) ensures b <= n {
        RepeatsInside(group, b, i);
      }
      forall b: nat | Repeats(t, b, i) ensures b < n {
        RepeatsInside(t, b, i);
      }
    }
  }

  lemma RepeatsInside(group: seq<GroupedCheck>, b: nat, i: InstId)
    requires Repeats(group, b, i)
    ensures b < |group|
  {
  }

  lemma RedundantStep(group: seq<GroupedCheck>, n: nat, i: InstId)
    requires n + 1 == |group|
    ensures RedundantIn(group, i) <==> RedundantIn(group[..n], i) || Repeats(group, n, i)
  {
    var t, last := group[..n], group[n];
    LastCall(t);
    WithCallGrows(group, n);
    assert group[..n + 1] == group;
    hide WithCall;
    if last.check.Some? {
      RedundantLast(WithCall(t), last, WithCall(group), i);
    } else {
      assert WithCall(group) == WithCall(t);
    }
    assert Repeats(group, n, i) <==> last == GroupedCheck(Some(i), READ) && exists a :: EndsWithRead(t, a);
  }

  lemma RedundantLast(g: seq<GroupedCheck>, v: GroupedCheck, h: seq<GroupedCheck>, i: InstId)
    requires h == g + [v]
    ensures (exists k :: 0 <= k < |h| && Redundant(Accesses(h), k) && h[k].check == Some(i)) <==>
            || (exists k :: 0 <= k < |g| && Redundant(Accesses(g), k) && g[k].check == Some(i))
            || (v == GroupedCheck(Some(i), READ) && g != [] && g[|g| - 1].access == READ)
  {
    forall k | 0 <= k < |g| ensures Redundant(Accesses(h), k) <==> Redundant(Accesses(g), k) {
      RedundantGrows(g, v, k);
    }
    assert Redundant(Accesses(h), |g|) <==> g != [] && g[|g| - 1].access == READ && v.access == READ;
    assert h[|g|] == v;
  }

  lemma RedundantGrows(g: seq<GroupedCheck>, v: GroupedCheck, k: nat)
    requires k < |g|
    ensures Redundant(Accesses(g + [v]), k) <==> Redundant(Accesses(g), k)
  {
  }

  /** The plain calls among some checks. */
  ghost function PlainCalls(f: Func, checks: set<InstId>): set<InstId>
  {
    set i | i in checks && i in f.insts && f.insts[i].op.Call?
  }

  class RedundantCheckEliminator {
    const remover: CheckSliceRemover
    var marked: set<InstId>
    var candidates: seq<GroupedCheck>

    constructor (remover: CheckSliceRemover)
      ensures this.remover == remover && marked == {} && candidates == []
    {
      this.remover := remover;
      marked, candidates := {}, [];
    }

    method MarkForRemoval(v: GroupedCheck)
      modifies this
      ensures marked == old(marked) + if v.check.Some? then {v.check.value} else {}
      ensures candidates == old(candidates) +
                            if v.check.Some? && v.check.value !in old(marked) then [v.(check := None)] else []
    {
      if v.check.None? {
        return;
      }
      if v.check.value in marked {
        assert marked == marked + {v.check.value};
        return;
      }
      marked := marked + {v.check.value};
      candidates := candidates + [v.(check := None)];
    }

    /** One group: exactly the READs that follow a READ are marked. */
    method MarkGroup(group: seq<GroupedCheck>)
      modifies this
      ensures forall i: InstId :: i in marked <==> i in old(marked) || RedundantIn(group, i)
    {
      var retention := new ReadRetentionState();
      for k := 0 to |group|
        invariant fresh(retention) && retention.KeepsAfter(Accesses(WithCall(group[..k])))
        invariant forall i: InstId :: i in marked <==> i in old(marked) || RedundantIn(group[..k], i)
      {
        var v := group[k];
        WithCallGrows(group, k);
        if v.check.None? {
          assert WithCall(group[..k + 1]) == WithCall(group[..k]);
        } else {
          ghost var g := WithCall(group[..k]);
          assert Accesses(g + [v]) == Accesses(g) + [v.access];
          ghost var before := marked;
          var keep := retention.ShouldKeep(v.access, Accesses(g));
          if !keep && v.access == READ {
            MarkForRemoval(v);
          }
          MarkStep(g, v, group[..k + 1], group[..k]);
        }
      }
      assert group[..|group|] == group;
    }

    /**
     The loop of eraseMarkedChecks. Exactly the marked plain calls go, unless a removal takes the entry block
     for a report block; the loop is followed no further then.
     */
    method EraseCalls(marks: set<InstId>) returns (removed: nat)
      requires Healthy(remover.fn.code) && marks <= Checks(remover.fn.code)
      modifies remover, remover.fn
      ensures var f, g := old(remover.fn.code), remover.fn.code;
        && (g.entry in g.blocks <==> Keeps(f, g, PlainCalls(f, marks)))
        && (g.entry in g.blocks ==> removed == |PlainCalls(f, marks)|)
        && (Guarded(f, marks) ==> g.entry in g.blocks)
      ensures marks != {} ==> remover.touched
    {
      hide *;
      ghost var f := remover.fn.code;
      KeepsRefl(f);
      KeepsEntry(f, f, {});
      PlainCallsAreChecks(f, marks);
      assert marks - marks == {};
      var calls := marks;
      ghost var gone: set<InstId> := {};
      removed := 0;
      while calls != {}
        invariant calls <= marks && removed == |gone| && Healthy(remover.fn.code) && Keeps(f, remover.fn.code, gone)
        invariant gone == PlainCalls(f, marks - calls) && remover.fn.code.entry in remover.fn.code.blocks
        invariant calls == marks || remover.touched
      {
        var cb :| cb in calls;
        ghost var g := remover.fn.code;
        StillThere(f, g, gone, marks, calls, cb);
        StillSafe(f, g, gone, marks, calls, cb);
        var ok := remover.RemoveCheckSlice(cb);
        removed := if ok then removed + 1 else removed;
        if remover.fn.code.entry !in remover.fn.code.blocks {
          EntryIsGone(f, remover.fn.code, PlainCalls(f, marks));
          return;
        }
        ghost var now := if ok then {cb} else {};
        KeepsTrans(f, g, remover.fn.code, gone, now);
        KeepsHealthy(g, remover.fn.code, now);
        gone := gone + now;
        calls := calls - {cb};
      }
      assert marks - calls == marks;
    }

    /**
     eraseMarkedChecks: as long as the function keeps its entry block, exactly the marked plain calls go; marked
     invokes and unmarked checks stay, and the number returned is the number of checks lost. A guarded function
     keeps its entry block.
     */
    method EraseMarkedChecks() returns (removed: nat)
      requires Healthy(remover.fn.code) && marked <= Checks(remover.fn.code)
      modifies remover, remover.fn
      ensures var f, g := old(remover.fn.code), remover.fn.code;
        && (g.entry in g.blocks <==> Keeps(f, g, PlainCalls(f, marked)))
        && (g.entry in g.blocks ==> |Checks(f)| == |Checks(g)| + removed)
        && (g.entry in g.blocks && marked != {} ==> NothingMergeable(g))
        && (Guarded(f, marked) ==> g.entry in g.blocks)
    {
      hide *;
      ghost var f := remover.fn.code;
      ghost var gone := PlainCalls(f, marked);
      removed := EraseCalls(marked);
      ghost var g := remover.fn.code;
      if remover.fn.code.entry in remover.fn.code.blocks {
        KeepsHealthy(f, g, gone);
        remover.Tidy();
        KeepsTrans(f, g, remover.fn.code, gone, {});
        assert gone + {} == gone;
        KeepsEntry(f, remover.fn.code, gone);
        PlainCallsAreChecks(f, marked);
        LostCount(f, remover.fn.code, gone);
      }
    }

    /** The whole elimination: a check disappears iff it is a plain call and redundant in its group. */
    method EliminateRedundantChecks(groups: seq<seq<GroupedCheck>>) returns (removed: nat)
      requires Healthy(remover.fn.code) && marked == {}
      requires forall n, k :: 0 <= n < |groups| && 0 <= k < |groups[n]| && groups[n][k].check.Some? ==>
                 groups[n][k].check.value in Checks(remover.fn.code)
      modifies this, remover, remover.fn
      ensures var f, g := old(remover.fn.code), remover.fn.code;
        && (g.entry in g.blocks ==>
              && Healthy(g)
              && (forall i: InstId :: i in Checks(g) <==>
                    i in Checks(f) && i in f.insts && !(f.insts[i].op.Call? && RedundantInSome(groups, i)))
              && |Checks(f)| == |Checks(g)| + removed
              && (marked != {} ==> NothingMergeable(g)))
        && (Guarded(f, RedundantChecks(f, groups)) ==> g.entry in g.blocks)
    {
      hide *;
      ghost var f := remover.fn.code;
      NoGroups(groups);
      for n := 0 to |groups|
        invariant remover.fn.code == f
        invariant forall i: InstId :: i in marked <==> RedundantInSome(groups[..n], i)
      {
        MarkGroup(groups[n]);
        SomeGrows(groups, n);
      }
      assert groups[..|groups|] == groups;
      forall i | i in marked ensures i in Checks(f) {
        SomeIsMember(groups, i);
      }
      MarkedAre(f, groups, marked);
      removed := EraseMarkedChecks();
      if remover.fn.code.entry in remover.fn.code.blocks {
        KeepsHealthy(f, remover.fn.code, PlainCalls(f, marked));
        KeepsChecks(f, remover.fn.code, marked);
      }
    }
  }

  lemma PlainCallsAreChecks(f: Func, marks: set<InstId>)
    requires marks <= Checks(f)
    ensures PlainCalls(f, marks) <= Checks(f) && PlainCalls(f, {}) == {}
  {
  }

  /** A marked check that was not removed yet is still in the function, unchanged. */
  lemma StillThere(f: Func, g: Func, gone: set<InstId>, marks: set<InstId>, calls: set<InstId>, cb: InstId)
    requires Keeps(f, g, gone) && marks <= Checks(f) && calls <= marks && cb in calls && gone == PlainCalls(f, marks - calls)
    ensures cb in Checks(g) && cb in g.insts && cb !in gone
    ensures PlainCalls(f, marks - (calls - {cb})) == gone + if g.insts[cb].op.Call? then {cb} else {}
    ensures g.insts[cb].op.Call? ==> |gone + {cb}| == |gone| + 1
    ensures gone + {} == gone
  {
    hide Healthy;
    assert marks - (calls - {cb}) == (marks - calls) + {cb};
  }

  lemma LostCount(f: Func, g: Func, gone: set<InstId>)
    requires Keeps(f, g, gone) && gone <= Checks(f)
    ensures |Checks(f)| == |Checks(g)| + |gone|
  {
    hide Healthy;
    assert Checks(f) == Checks(g) + gone;
  }

  lemma NoGroups(groups: seq<seq<GroupedCheck>>)
    ensures forall i: InstId :: !RedundantInSome(groups[..0], i)
  {
  }

  lemma SomeIsMember(groups: seq<seq<GroupedCheck>>, i: InstId)
    requires RedundantInSome(groups, i)
    ensures exists n, k :: 0 <= n < |groups| && 0 <= k < |groups[n]| && groups[n][k].check == Some(i)
  {
    var n :| 0 <= n < |groups| && RedundantIn(groups[n], i);
    RedundantIsMember(groups[n], i);
  }

  lemma KeepsChecks(f: Func, g: Func, marks: set<InstId>)
    requires Keeps(f, g, PlainCalls(f, marks))
    ensures forall i :: i in Checks(g) <==> i in Checks(f) && !(i in marks && f.insts[i].op.Call?)
    ensures forall i :: i in Checks(f) ==> i in f.insts
  {
  }

  lemma SomeGrows(groups: seq<seq<GroupedCheck>>, n: nat)
    requires n < |groups|
    ensures forall i: InstId :: RedundantInSome(groups[..n + 1], i) <==>
              RedundantInSome(groups[..n], i) || RedundantIn(groups[n], i)
  {
    forall i: InstId
      ensures RedundantInSome(groups[..n + 1], i) <==> RedundantInSome(groups[..n], i) || RedundantIn(groups[n], i)
    {
      if RedundantInSome(groups[..n], i) {
        var m :| 0 <= m < n && RedundantIn(groups[..n][m], i);
        assert RedundantIn(groups[..n + 1][m], i);
      }
      if RedundantIn(groups[n], i) {
        assert RedundantIn(groups[..n + 1][n], i);
      }
    }
  }

  lemma {:induction false} WithCallMembers(group: seq<GroupedCheck>, v: GroupedCheck)
    requires v in WithCall(group)
    ensures v in group && v.check.Some?
  {
    if group != [] && v != group[|group| - 1] {
      WithCallMembers(group[..|group| - 1], v);
    } else if group != [] && group[|group| - 1].check.None? {
      WithCallMembers(group[..|group| - 1], v);
    }
  }

  lemma RedundantIsMember(group: seq<GroupedCheck>, i: InstId)
    requires RedundantIn(group, i)
    ensures exists k :: 0 <= k < |group| && group[k].check == Some(i)
  {
    var g := WithCall(group);
    var k :| 0 <= k < |g| && Redundant(Accesses(g), k) && g[k].check == Some(i);
    WithCallMembers(group, g[k]);
  }

  lemma MarkStep(g: seq<GroupedCheck>, v: GroupedCheck, now: seq<GroupedCheck>, was: seq<GroupedCheck>)
    requires g == WithCall(was) && g + [v] == WithCall(now) && v.check.Some?
    ensures forall i: InstId :: RedundantIn(now, i) <==>
              RedundantIn(was, i) || (v.check.value == i && Redundant(Accesses(g) + [v.access], |g|))
  {
    assert Accesses(g + [v]) == Accesses(g) + [v.access];
    forall i: InstId
      ensures RedundantIn(now, i) <==>
              RedundantIn(was, i) || (v.check.value == i && Redundant(Accesses(g) + [v.access], |g|))
    {
      forall k: nat | k < |g| ensures Redundant(Accesses(g + [v]), k) <==> Redundant(Accesses(g), k) {
        RedundantGrows(g, v, k);
      }
      if RedundantIn(was, i) {
        var k :| 0 <= k < |g| && Redundant(Accesses(g), k) && g[k].check == Some(i);
        assert (g + [v])[k].check == Some(i) && Redundant(Accesses(g + [v]), k);
      }
      if v.check.value == i && Redundant(Accesses(g) + [v.access], |g|) {
        assert (g + [v])[|g|].check == Some(i);
      }
    }
  }

  /** The checks that the policy marks. */
  ghost function RedundantChecks(f: Func, groups: seq<seq<GroupedCheck>>): set<InstId>
  {
    set i | i in Checks(f) && RedundantInSome(groups, i)
  }

  lemma MarkedAre(f: Func, groups: seq<seq<GroupedCheck>>, marked: set<InstId>)
    requires marked <= Checks(f) && forall i: InstId :: i in marked <==> RedundantInSome(groups, i)
    ensures marked == RedundantChecks(f, groups)
  {
  }

  lemma EntryIsGone(f: Func, g: Func, gone: set<InstId>)
    requires g.entry !in g.blocks
    ensures !Keeps(f, g, gone)
  {
    if Keeps(f, g, gone) {
      KeepsEntry(f, g, gone);
    }
  }

  /** As long as the function is guarded for the marks, the next marked check does not report in the entry block. */
  lemma StillSafe(f: Func, g: Func, gone: set<InstId>, marks: set<InstId>, calls: set<InstId>, cb: InstId)
    requires Keeps(f, g, gone) && calls <= marks && cb in calls && gone == PlainCalls(f, marks - calls) && cb in Checks(g)
    ensures Guarded(f, marks) ==> !EntryReport(g, cb)
  {
    hide Guarded, AllReachable, IsCheck, CanBypass;
    assert gone * Checks(f) <= marks;
    if Guarded(f, marks) {
      assert Guarded(g, marks);
      GuardedCallIsSafe(g, marks, cb);
    }
  }

  lemma GuardedCallIsSafe(g: Func, marks: set<InstId>, cb: InstId)
    requires Valid(g) && Guarded(g, marks) && cb in marks && cb in Checks(g)
    ensures !EntryReport(g, cb)
  {
    hide Valid, Guarded, CanBypass;
    if EntryReport(g, cb) {
      BypassedIsCall(g, g.entry, cb);
      GuardedIsSafe(g, marks, cb);
    }
  }
}
