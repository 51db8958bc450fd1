/** The per-variable retention policy of `lib/RedundantCheckEliminator.cpp`. */
module Retention {

  datatype AccessType = READ | WRITE | UNKNOWN

  /** The automaton ReadRetentionState. */
  class ReadRetentionState {
    var seenAnyCheck: bool
    var keepNextRead: bool

    constructor ()
      ensures KeepsAfter([])
    {
      seenAnyCheck, keepNextRead := false, false;
    }

    /** The state reached after the accesses in past: the next READ is kept unless a READ came just before it. */
    ghost predicate KeepsAfter(past: seq<AccessType>)
      reads this
    {
      (!seenAnyCheck || keepNextRead) <==> (past == [] || past[|past| - 1] != READ)
    }

    method ShouldKeep(access: AccessType, ghost past: seq<AccessType>) returns (keep: bool)
      requires KeepsAfter(past)
      modifies this
      ensures KeepsAfter(past + [access])
      ensures keep <==> !Redundant(past + [access], |past|)
    {
      if access == UNKNOWN {
        keepNextRead := true;
        return true;
      }
      if access == WRITE {
        seenAnyCheck := true;
        keepNextRead := true;
        return true;
      }
      if !seenAnyCheck {
        seenAnyCheck := true;
        keepNextRead := false;
        return true;
      }
      if keepNextRead {
        keepNextRead := false;
        return true;
      }
      keep := false;
    }
  }

  /** The policy in closed form: a READ right after a READ of the same group is redundant. */
  predicate Redundant(s: seq<AccessType>, k: nat)
  {
    0 < k < |s| && s[k] == READ && s[k - 1] == READ
  }

  /** The accesses that survive. */
  function Kept(s: seq<AccessType>): seq<AccessType>
  {
    if s == [] then []
    else Kept(s[..|s| - 1]) + if Redundant(s, |s| - 1) then [] else [s[|s| - 1]]
  }

  lemma {:induction false} KeptEnds(s: seq<AccessType>)
    requires s != []
    ensures Kept(s) != [] && Kept(s)[|Kept(s)| - 1] == s[|s| - 1]
  {
    if Redundant(s, |s| - 1) {
      KeptEnds(s[..|s| - 1]);
    }
  }

  /** A second run of the policy removes nothing more. */
  lemma {:induction false} KeptTwice(s: seq<AccessType>)
    ensures Kept(Kept(s)) == Kept(s)
  {
    if s != [] {
      var t := s[..|s| - 1];
      KeptTwice(t);
      if Redundant(s, |s| - 1) {
        assert Kept(s) == Kept(t);
      } else {
        assert Kept(s)[..|Kept(s)| - 1] == Kept(t);
        if t != [] {
          KeptEnds(t);
          assert Kept(s)[|Kept(s)| - 2] == t[|t| - 1] == s[|s| - 2];
        }
        assert Kept(s)[|Kept(s)| - 1] == s[|s| - 1];
        assert !Redundant(Kept(s), |Kept(s)| - 1);
      }
    }
  }

  /** No two READs that follow each other survive. */
  lemma {:induction false} KeptApart(s: seq<AccessType>, k: nat)
    requires 0 < k < |Kept(s)|
    ensures !(Kept(s)[k - 1] == READ && Kept(s)[k] == READ)
  {
    var t := s[..|s| - 1];
    if k < |Kept(t)| {
      KeptApart(t, k);
    } else if t != [] {
      KeptEnds(t);
    }
  }

  /** Where no READ follows a READ, the two parts of a history are treated separately. */
  lemma {:induction false} KeptJoin(a: seq<AccessType>, b: seq<AccessType>)
    requires a != [] && b != [] ==> !(a[|a| - 1] == READ && b[0] == READ)
    ensures Kept(a + b) == Kept(a) + Kept(b)
    decreases |b|
  {
    if b == [] {
      assert a + b == a;
    } else {
      var c := b[..|b| - 1];
      assert (a + b)[..|a + b| - 1] == a + c;
      KeptJoin(a, c);
      assert Redundant(a + b, |a + b| - 1) <==> Redundant(b, |b| - 1);
    }
  }

  /** Of a run of READs exactly one survives. */
  lemma {:induction false} KeptRun(s: seq<AccessType>)
    requires s != [] && forall i :: 0 <= i < |s| ==> s[i] == READ
    ensures Kept(s) == [READ]
  {
    if |s| > 1 {
      KeptRun(s[..|s| - 1]);
    }
  }

  /** Every WRITE and every UNKNOWN survives, and a group loses no more than all but one of its READs. */
  lemma {:induction false} KeptBarriers(s: seq<AccessType>)
    ensures multiset(Kept(s))[WRITE] == multiset(s)[WRITE] && multiset(Kept(s))[UNKNOWN] == multiset(s)[UNKNOWN]
    ensures READ in s <==> READ in Kept(s)
  {
    if s != [] {
      var t := s[..|s| - 1];
      assert s == t + [s[|s| - 1]];
      KeptBarriers(t);
    }
  }

  /**
   Detection on a straight-line run: if whether the variable is bad can change
   only where a WRITE or UNKNOWN check stands, then behind every dropped check
   that would fail there is an earlier kept READ that fails, with only READs in between.
   */
  lemma {:induction false} DroppedFailureDetected(s: seq<AccessType>, fails: seq<bool>, k: nat) returns (j: nat)
    requires |fails| == |s| && Redundant(s, k) && fails[k]
    requires forall i :: 0 < i < |s| && s[i - 1] == READ && s[i] == READ ==> fails[i] == fails[i - 1]
    ensures j < k && s[j] == READ && !Redundant(s, j) && fails[j]
    ensures forall i :: j <= i <= k ==> s[i] == READ
    decreases k
  {
    if Redundant(s, k - 1) {
      j := DroppedFailureDetected(s, fails, k - 1);
    } else {
      j := k - 1;
    }
  }
}
