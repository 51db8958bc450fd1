/**
 Two functions. On the first all assumptions are met; it has one check, whose report block falls through. On the
 second the remover deletes the entry block.
 */
module Witness {
  import opened IR
  import opened Bypass
  import opened SliceSpec
  import opened Guard
  import opened Health
  import opened Semantics
  import opened BypassMeaning
  import opened Removal

  const CHECK := Callee(true, false, false, false)

  /**
   An access guarded inline: block 0 loads the shadow byte, compares it and branches to the report block 1 or
   past it; block 1 reports and falls through to block 2.
   */
  function OneCheck(): Func
  {
    Func(0,
         map[0 := [0, 1, 5], 1 := [2, 3], 2 := [4]],
         map[0 := Inst(Load(true), [Value(7)]), 1 := Inst(Pure, [Use(0)]), 5 := Inst(CondBr(1, 2), [Use(1)]),
             2 := Inst(Call(CHECK), []), 3 := Inst(Br(2), []), 4 := Inst(OtherTerm([]), [])],
         map[0 := 0, 1 := 0, 5 := 0, 2 := 1, 3 := 1, 4 := 2])
  }

  /** The last instruction is seen, reports are shown, and nothing else happens. */
  function Counting(): Machine<int>
  {
    Machine((i, args, w) =>
      Outcome(0, if i == 4 then w + 1 else w, if i == 2 then [Report(2)] else if i == 4 then [App(i)] else [], -1))
  }

  lemma OneCheckEnds(b: BlockId)
    requires b in OneCheck().blocks
    ensures EndsWell(OneCheck(), b)
  {
  }

  lemma OneCheckListed(b: BlockId, i: InstId)
    requires b in OneCheck().blocks
    ensures i in OneCheck().blocks[b] <==> i in OneCheck().parent && OneCheck().parent[i] == b
    ensures NoDup(OneCheck().blocks[b])
  {
  }

  lemma OneCheckKeys()
    ensures OneCheck().parent.Keys == OneCheck().insts.Keys && PhisBalanced(OneCheck())
    ensures forall i :: i in OneCheck().parent ==> OneCheck().parent[i] in OneCheck().blocks
  {
  }

  lemma OneCheckIsPlaced()
    ensures Placed(OneCheck()) && PhisBalanced(OneCheck())
  {
    hide Guarded, NoDup, PhisBalanced;
    OneCheckKeys();
    forall b, i | b in OneCheck().blocks
      ensures i in OneCheck().blocks[b] <==> i in OneCheck().parent && OneCheck().parent[i] == b
    {
      OneCheckListed(b, i);
    }
    forall b | b in OneCheck().blocks ensures NoDup(OneCheck().blocks[b]) {
      OneCheckListed(b, 0);
    }
    forall i | i in OneCheck().parent ensures i in OneCheck().blocks[OneCheck().parent[i]] {
      OneCheckListed(OneCheck().parent[i], i);
    }
  }

  lemma OneCheckIsValid()
    ensures Valid(OneCheck())
  {
    hide Placed, PhisBalanced, EndsWell;
    OneCheckIsPlaced();
    forall b | b in OneCheck().blocks ensures EndsWell(OneCheck(), b) {
      OneCheckEnds(b);
    }
  }

  lemma OneCheckEdges()
    ensures Edge(OneCheck(), 0, 1) && Edge(OneCheck(), 0, 2)
    ensures Term(OneCheck(), 0) == CondBr(1, 2) && Term(OneCheck(), 1) == Br(2) && Term(OneCheck(), 2) == OtherTerm([])
  {
    assert CondBr(1, 2).ifTrue in Successors(CondBr(1, 2)) && CondBr(1, 2).ifFalse in Successors(CondBr(1, 2));
  }

  lemma OneCheckIsReachable()
    ensures AllReachable(OneCheck())
  {
    hide Edge, Reaches;
    OneCheckEdges();
    ReachRefl(OneCheck(), 0);
    ReachStep(OneCheck(), 0, 0, 1);
    ReachStep(OneCheck(), 0, 0, 2);
  }

  lemma OneCheckIsUnused()
    ensures ChecksUnused(OneCheck())
  {
  }

  lemma OneCheckIsHealthy()
    ensures Healthy(OneCheck())
  {
    hide Valid, AllReachable, ChecksUnused;
    OneCheckIsValid();
    OneCheckIsReachable();
    OneCheckIsUnused();
  }

  lemma OneCheckPred(b: BlockId)
    requires Edge(OneCheck(), b, 1)
    ensures b == 0
  {
    OneCheckEdges();
  }

  lemma OneCheckCanBypass()
    ensures CanBypass(OneCheck(), 1, 2)
  {
    hide Edge, Term;
    OneCheckEdges();
    forall b | Edge(OneCheck(), b, 1) ensures SafeSucc(Term(OneCheck(), b), 1, Fallthrough(OneCheck(), 1)).Some? {
      OneCheckPred(b);
    }
  }

  lemma OneCheckIsSkippable()
    ensures Skippable(OneCheck(), 1, 2, Counting())
  {
    hide Valid, CanBypass, Term;
    OneCheckIsValid();
    OneCheckCanBypass();
    OneCheckEdges();
  }

  /** Nothing in the entry block holds it fast, but the report block is entered by a parting branch. */
  lemma OneCheckIsGuarded()
    ensures !HeldFast(OneCheck(), {2}, 0) && Guarded(OneCheck(), {2})
  {
    hide Edge, Loose, HeldFast, Term;
    OneCheckEdges();
    OneCheckLoose(0);
    OneCheckLoose(2);
    forall p, r | Loose(OneCheck(), {2}, r) && Edge(OneCheck(), p, r) ensures Parted(OneCheck(), {2}, p) {
      OneCheckLoose(r);
      OneCheckPred(p);
    }
  }

  lemma OneCheckLoose(b: BlockId)
    ensures Loose(OneCheck(), {2}, b) ==> b == 1
    ensures !HeldFast(OneCheck(), {2}, 0)
  {
  }

  // ----- the entry block as report block -----

  /** A function that begins with a check and nothing else, and goes on in another block. */
  function CheckFirst(): Func
  {
    Func(0, map[0 := [0, 1], 1 := [2]],
         map[0 := Inst(Call(CHECK), []), 1 := Inst(Br(1), []), 2 := Inst(OtherTerm([]), [])],
         map[0 := 0, 1 := 0, 2 := 1])
  }

  lemma CheckFirstListed(b: BlockId, i: InstId)
    requires b in CheckFirst().blocks
    ensures i in CheckFirst().blocks[b] <==> i in CheckFirst().parent && CheckFirst().parent[i] == b
    ensures NoDup(CheckFirst().blocks[b])
  {
  }

  lemma CheckFirstKeys()
    ensures CheckFirst().parent.Keys == CheckFirst().insts.Keys && PhisBalanced(CheckFirst())
    ensures forall i :: i in CheckFirst().parent ==> CheckFirst().parent[i] in CheckFirst().blocks
  {
  }

  lemma CheckFirstIsPlaced()
    ensures Placed(CheckFirst()) && PhisBalanced(CheckFirst())
  {
    hide CheckFirst, NoDup, PhisBalanced;
    CheckFirstKeys();
    forall b, i | b in CheckFirst().blocks
      ensures i in CheckFirst().blocks[b] <==> i in CheckFirst().parent && CheckFirst().parent[i] == b
    {
      CheckFirstListed(b, i);
    }
    forall b | b in CheckFirst().blocks ensures NoDup(CheckFirst().blocks[b]) {
      CheckFirstListed(b, 0);
    }
    forall i | i in CheckFirst().parent ensures i in CheckFirst().blocks[CheckFirst().parent[i]] {
      CheckFirstListed(CheckFirst().parent[i], i);
    }
  }

  lemma CheckFirstEnds(b: BlockId)
    requires b in CheckFirst().blocks
    ensures EndsWell(CheckFirst(), b)
  {
  }

  lemma CheckFirstEdges()
    ensures Term(CheckFirst(), 0) == Br(1) && Term(CheckFirst(), 1) == OtherTerm([])
    ensures Edge(CheckFirst(), 0, 1) && forall b :: !Edge(CheckFirst(), b, 0)
  {
    assert Br(1).dest in Successors(Br(1));
  }

  lemma CheckFirstIsHealthy()
    ensures Healthy(CheckFirst())
  {
    hide Placed, PhisBalanced, EndsWell, Edge, Reaches;
    CheckFirstIsPlaced();
    forall b | b in CheckFirst().blocks ensures EndsWell(CheckFirst(), b) {
      CheckFirstEnds(b);
    }
    CheckFirstEdges();
    ReachRefl(CheckFirst(), 0);
    ReachStep(CheckFirst(), 0, 0, 1);
  }

  lemma CheckFirstReports()
    ensures CanBypass(CheckFirst(), 0, 0) && EntryReport(CheckFirst(), 0)
  {
    hide Edge, Term;
    CheckFirstEdges();
  }

  lemma CheckFirstTakes()
    ensures 0 in Checks(CheckFirst()) && Takes(CheckFirst(), 0, WithBlock({}))
  {
    hide CanBypass, IsDeadSet, DeadKind, Bypassed;
    CheckFirstReports();
    CheckFirstAlive();
    NoneDead(Bypassed(CheckFirst(), 0));
  }

  lemma NoneDead(f: Func)
    requires forall i :: i in f.insts ==> !DeadKind(f.insts[i].op)
    ensures IsDeadSet(f, {})
  {
  }

  lemma CheckFirstAlive()
    ensures forall i :: i in Bypassed(CheckFirst(), 0).insts ==> !DeadKind(Bypassed(CheckFirst(), 0).insts[i].op)
  {
    hide Edge, SafeSucc, Fallthrough, Preds;
    CheckFirstEdges();
  }

  /** The remover takes the entry block for the report block of its check, and deletes it. */
  lemma EntryBlockIsDeleted()
    ensures Healthy(CheckFirst()) && 0 in Checks(CheckFirst()) && EntryReport(CheckFirst(), 0)
    ensures exists way :: Takes(CheckFirst(), 0, way)
    ensures forall way :: Takes(CheckFirst(), 0, way) ==> CheckFirst().entry !in After(CheckFirst(), 0, way).blocks
  {
    hide Healthy, Takes, After, Checks, EntryReport;
    CheckFirstIsHealthy();
    CheckFirstReports();
    CheckFirstTakes();
    forall way | Takes(CheckFirst(), 0, way) ensures CheckFirst().entry !in After(CheckFirst(), 0, way).blocks {
      WayDecides(CheckFirst(), 0, way);
      AfterEntry(CheckFirst(), 0, way);
    }
  }
}
