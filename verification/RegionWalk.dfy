/**
 * Where the answers of the tracer and of the normalizer lie: the walk from a
 * value over the operands that are followed, up to its end, a merge, a
 * repetition or the depth limit (`lib/CheckedVariableAnalyzer.cpp`).
 */
module RegionWalk {
  import opened IR
  import opened RegionTrace

  // ----- words and constants -----

  /** Offsets that fit into a signed 64-bit word are added, all others are given up. */
  lemma FitsExact(o: Option<int>)
    ensures Fits(o) <==> o.Some? && -0x8000_0000_0000_0000 <= o.value <= 0x7FFF_FFFF_FFFF_FFFF
  {
  }

  /** Starts are kept as signed 64-bit words. */
  lemma WrapExact(x: int, y: int)
    ensures Wrap(x) == y <==> -0x8000_0000_0000_0000 <= y <= 0x7FFF_FFFF_FFFF_FFFF && (y - x) % 0x1_0000_0000_0000_0000 == 0
  {
  }

  /** Instructions other than constant pointer casts and GEPs are no constants. */
  lemma ConstantExact(g: Values, v: ValueId)
    requires v in g
    ensures IsConstant(g, v) <==>
            || g[v].ConstInt? || g[v].ConstantCast?
            || ((g[v].Leaf? || g[v].PointerCast? || g[v].Gep?) && g[v].isConstant)
  {
  }

  // ----- one step -----

  /** The operand of a sum that is followed: the one that is no constant; the left one if that does not decide. */
  ghost predicate AddressOperand(g: Values, l: ValueId, r: ValueId, x: ValueId)
    requires l in g && r in g
  {
    && (x == l || x == r)
    && (IsConstant(g, x) ==> IsConstant(g, l) && IsConstant(g, r))
    && (IsConstant(g, l) == IsConstant(g, r) ==> x == l)
  }

  lemma FirstNonConstantExact(g: Values, l: ValueId, r: ValueId, x: ValueId)
    requires l in g && r in g
    ensures AddressOperand(g, l, r, x) <==> x == FirstNonConstant(g, l, r)
  {
  }

  /** x is the operand of k that the tracer follows; the normalizer also goes behind constant casts and stores. */
  ghost predicate Follows(g: Values, k: Kind, x: ValueId, norm: bool)
    requires OperandsIn(g, k)
  {
    || (norm && k.ConstantCast? && x == k.source)
    || (norm && k.Store? && x == k.pointer)
    || (k.Gep? && x == k.base)
    || (k.Load? && x == k.pointer)
    || (k.Cast? && x == k.source)
    || (k.Arith? && AddressOperand(g, k.lhs, k.rhs, x))
  }

  /** The kind of v behind its pointer casts. */
  ghost function KindOf(g: Values, v: ValueId): (k: Kind)
    requires Closed(g) && v in g
    ensures OperandsIn(g, k)
  {
    g[Strip(g, v, {v})]
  }

  /** Stripping goes from pointer cast to pointer cast and stops at the first value that is none. */
  lemma {:induction false} StripAlong(g: Values, ws: seq<ValueId>, seen: set<ValueId>)
    requires Closed(g) && ws != [] && (forall i :: 0 <= i < |ws| ==> ws[i] in g) && !g[ws[|ws| - 1]].PointerCast?
    requires forall i {:trigger ws[i]} :: 0 <= i < |ws| - 1 ==> g[ws[i]].PointerCast? && g[ws[i]].source == ws[i + 1]
    requires (forall i, j :: 0 <= i < j < |ws| ==> ws[i] != ws[j]) && forall i :: 0 < i < |ws| ==> ws[i] !in seen
    ensures Strip(g, ws[0], seen) == ws[|ws| - 1]
    decreases |ws|
  {
    if |ws| > 1 {
      assert g[ws[0]].source == ws[1] && ws[1] !in seen;
      var us := ws[1..];
      assert us[|us| - 1] == ws[|ws| - 1];
      forall i {:trigger us[i]} | 0 <= i < |us| - 1 ensures g[us[i]].PointerCast? && g[us[i]].source == us[i + 1] {
        assert us[i] == ws[i + 1] && us[i + 1] == ws[i + 2];
      }
      StripAlong(g, us, seen + {ws[1]});
    }
  }

  /** The tracer, or the normalizer, goes from vs[i] to vs[i + 1]. */
  ghost predicate StepAt(g: Values, vs: seq<ValueId>, norm: bool, i: int)
    requires Closed(g) && 0 <= i < |vs| - 1 && vs[i] in g
  {
    Follows(g, KindOf(g, vs[i]), vs[i + 1], norm)
  }

  /** The values from vs[0] on, each followed from the one before; none of them repeats, except perhaps the last. */
  ghost predicate Walk(g: Values, vs: seq<ValueId>, norm: bool)
    requires Closed(g)
  {
    && vs != [] && (forall i :: 0 <= i < |vs| ==> vs[i] in g)
    && (forall i :: 0 <= i < |vs| - 1 ==> StepAt(g, vs, norm, i))
    && (forall i, j :: 0 <= i < j < |vs| - 1 ==> vs[i] != vs[j])
  }

  function Before(vs: seq<ValueId>): set<ValueId>
    requires vs != []
  {
    set i | 0 <= i < |vs| - 1 :: vs[i]
  }

  function Last(vs: seq<ValueId>): ValueId
    requires vs != []
  {
    vs[|vs| - 1]
  }

  /** What the value adds to the list of offsets. */
  function OffsetsAt(g: Values, k: Kind): seq<ValueId>
    requires OperandsIn(g, k)
  {
    if k.Gep? then k.indices
    else if !k.Arith? || k.opcode == OtherOp then []
    else if IsConstant(g, k.lhs) then [k.lhs]
    else if IsConstant(g, k.rhs) then [k.rhs]
    else []
  }

  /** How far it lies behind the operand followed, where this is known. */
  function DeltaAt(g: Values, k: Kind): int
    requires OperandsIn(g, k)
  {
    if k.Gep? then k.byteOffset.GetOr(0)
    else if !k.Arith? || k.opcode == OtherOp then 0
    else if g[k.lhs].ConstInt? then g[k.lhs].value
    else if IsConstant(g, k.lhs) || !g[k.rhs].ConstInt? then 0
    else if k.opcode == Sub then -g[k.rhs].value
    else g[k.rhs].value
  }

  /** The offsets of a walk, the last value's first. */
  ghost function OffsetsAlong(g: Values, vs: seq<ValueId>): seq<ValueId>
    requires Closed(g) && forall i :: 0 <= i < |vs| ==> vs[i] in g
  {
    if |vs| <= 1 then [] else OffsetsAlong(g, vs[1..]) + OffsetsAt(g, KindOf(g, vs[0]))
  }

  ghost function DeltaAlong(g: Values, vs: seq<ValueId>): int
    requires Closed(g) && forall i :: 0 <= i < |vs| ==> vs[i] in g
  {
    if |vs| <= 1 then 0 else DeltaAlong(g, vs[1..]) + DeltaAt(g, KindOf(g, vs[0]))
  }

  /** Some value of the walk before its end gives the offset up. */
  ghost predicate LosesOffset(g: Values, layout: bool, vs: seq<ValueId>)
    requires Closed(g) && Walk(g, vs, false)
  {
    exists i :: 0 <= i < |vs| - 1 && GivesUp(g, layout, KindOf(g, vs[i]))
  }

  predicate InRange(x: int)
  {
    -TWO_63 <= x < TWO_63
  }

  /** r is the answer for a value of kind k when R is the answer for the operand followed. */
  ghost predicate OneFurther(g: Values, layout: bool, k: Kind, r: Region, R: Region)
    requires OperandsIn(g, k)
  {
    && r.base == R.base
    && (r.known <==> R.known && !GivesUp(g, layout, k))
    && r.offsets == R.offsets + OffsetsAt(g, k)
    && (r.known && InRange(R.start) ==> r.start == Wrap(R.start + DeltaAt(g, k)))
  }

  lemma GepFurther(g: Values, layout: bool, k: Kind, R: Region)
    requires OperandsIn(g, k) && k.Gep?
    ensures OneFurther(g, layout, k, GepRegion(R, k.indices, k.byteOffset, layout), R)
  {
  }

  lemma ArithFurther(g: Values, layout: bool, k: Kind, R: Region)
    requires OperandsIn(g, k) && k.Arith?
    ensures OneFurther(g, layout, k, ArithRegion(g, R, k.opcode, k.lhs, k.rhs), R)
  {
  }

  lemma TraceStep(g: Values, layout: bool, v: ValueId, x: ValueId, visited: set<ValueId>, depth: nat)
    requires Closed(g) && v in g && x in g && v !in visited && depth <= MAX_TRACE_DEPTH && Follows(g, KindOf(g, v), x, false)
    ensures OneFurther(g, layout, KindOf(g, v), Trace(g, layout, v, visited, depth),
                       Trace(g, layout, x, visited + {v}, depth + 1))
  {
    hide Closed, Strip, Normalize, NormalizeVariable, MergeIncoming, GepRegion, ArithRegion, OneFurther;
    var k, R := KindOf(g, v), Trace(g, layout, x, visited + {v}, depth + 1);
    match k
    case Gep(_, _, _, _) => GepFurther(g, layout, k, R);
    case Arith(_, l, r, _) =>
      FirstNonConstantExact(g, l, r, x);
      ArithFurther(g, layout, k, R);
    case Load(_) => LoadFurther(g, layout, k, R);
    case Cast(_, _) => CastFurther(g, layout, k, R);
    case _ =>
  }

  lemma LoadFurther(g: Values, layout: bool, k: Kind, R: Region)
    requires OperandsIn(g, k) && k.Load?
    ensures OneFurther(g, layout, k, Unknown(R), R)
  {
  }

  lemma CastFurther(g: Values, layout: bool, k: Kind, R: Region)
    requires OperandsIn(g, k) && k.Cast?
    ensures OneFurther(g, layout, k, R, R)
  {
  }

  // ----- the whole walk -----

  /** r is the answer for the first value of the walk when R is the answer for the last. */
  ghost predicate Carried(g: Values, layout: bool, vs: seq<ValueId>, r: Region, R: Region)
    requires Closed(g) && Walk(g, vs, false)
  {
    && r.base == R.base
    && (r.known <==> R.known && !LosesOffset(g, layout, vs))
    && r.offsets == R.offsets + OffsetsAlong(g, vs)
    && (r.known && InRange(R.start) ==> r.start == Wrap(R.start + DeltaAlong(g, vs)))
  }

  lemma WalkTail(g: Values, vs: seq<ValueId>, norm: bool)
    requires Closed(g) && Walk(g, vs, norm) && |vs| > 1
    ensures Walk(g, vs[1..], norm) && Follows(g, KindOf(g, vs[0]), vs[1], norm) && Last(vs[1..]) == Last(vs)
    ensures Before(vs) == {vs[0]} + Before(vs[1..]) && vs[0] !in Before(vs[1..])
  {
    var us := vs[1..];
    assert StepAt(g, vs, norm, 0);
    forall i | 0 <= i < |us| - 1 ensures StepAt(g, us, norm, i) {
      assert StepAt(g, vs, norm, i + 1);
    }
    forall x | x in Before(vs) ensures x in {vs[0]} + Before(us) {
      var i :| 0 <= i < |vs| - 1 && vs[i] == x;
      assert i > 0 ==> us[i - 1] == x;
    }
  }

  lemma LosesFirst(g: Values, layout: bool, vs: seq<ValueId>)
    requires Closed(g) && Walk(g, vs, false) && |vs| > 1 && Walk(g, vs[1..], false)
    ensures LosesOffset(g, layout, vs) <==> GivesUp(g, layout, KindOf(g, vs[0])) || LosesOffset(g, layout, vs[1..])
  {
    hide GivesUp, KindOf, Follows, Closed;
    var us := vs[1..];
    if LosesOffset(g, layout, vs) {
      var i :| 0 <= i < |vs| - 1 && GivesUp(g, layout, KindOf(g, vs[i]));
      assert i > 0 ==> us[i - 1] == vs[i];
    }
    if LosesOffset(g, layout, us) {
      var i :| 0 <= i < |us| - 1 && GivesUp(g, layout, KindOf(g, us[i]));
      assert us[i] == vs[i + 1];
    }
  }

  lemma CarriedOne(g: Values, layout: bool, vs: seq<ValueId>, r: Region, mid: Region, R: Region)
    requires Closed(g) && Walk(g, vs, false) && |vs| > 1 && Walk(g, vs[1..], false)
    requires OneFurther(g, layout, KindOf(g, vs[0]), r, mid) && Carried(g, layout, vs[1..], mid, R)
    ensures Carried(g, layout, vs, r, R)
  {
    hide GivesUp, KindOf, Follows, Closed, LosesOffset, OffsetsAt, DeltaAt;
    LosesFirst(g, layout, vs);
    assert r.offsets == R.offsets + (OffsetsAlong(g, vs[1..]) + OffsetsAt(g, KindOf(g, vs[0])));
    if r.known && InRange(R.start) {
      WrapTwice(R.start + DeltaAlong(g, vs[1..]), DeltaAt(g, KindOf(g, vs[0])));
    }
  }

  lemma WrapTwice(x: int, y: int)
    ensures Wrap(Wrap(x) + y) == Wrap(x + y) && InRange(Wrap(x))
    ensures InRange(x) ==> Wrap(x) == x
  {
  }

  lemma CarriedNowhere(g: Values, layout: bool, vs: seq<ValueId>, R: Region)
    requires Closed(g) && Walk(g, vs, false) && |vs| == 1
    ensures Carried(g, layout, vs, R, R)
  {
    WrapTwice(R.start, 0);
    assert R.offsets + [] == R.offsets;
  }

  /** The answer for a value is the answer for the end of its walk, with what the walk adds. */
  lemma {:induction false} TraceAlong(g: Values, layout: bool, vs: seq<ValueId>, visited: set<ValueId>, depth: nat)
    requires Closed(g) && Walk(g, vs, false) && Before(vs) !! visited && depth + |vs| <= MAX_TRACE_DEPTH + 2
    ensures Last(vs) in g
    ensures Carried(g, layout, vs, Trace(g, layout, vs[0], visited, depth),
                    Trace(g, layout, Last(vs), visited + Before(vs), depth + |vs| - 1))
    decreases |vs|
  {
    hide Closed, Trace, Carried, OneFurther, Follows, KindOf, LosesOffset;
    if |vs| == 1 {
      assert visited + Before(vs) == visited;
      CarriedNowhere(g, layout, vs, Trace(g, layout, vs[0], visited, depth));
    } else {
      WalkTail(g, vs, false);
      TraceStep(g, layout, vs[0], vs[1], visited, depth);
      TraceAlong(g, layout, vs[1..], visited + {vs[0]}, depth + 1);
      assert visited + {vs[0]} + Before(vs[1..]) == visited + Before(vs);
      CarriedOne(g, layout, vs, Trace(g, layout, vs[0], visited, depth),
                 Trace(g, layout, vs[1], visited + {vs[0]}, depth + 1),
                 Trace(g, layout, Last(vs), visited + Before(vs), depth + |vs| - 1));
    }
  }

  // ----- where a walk ends -----

  /** Nothing is followed from the value: it is a leaf, a constant, a constant expression or a merge. */
  ghost predicate Stops(g: Values, v: ValueId, norm: bool)
    requires Closed(g) && v in g
  {
    forall x :: !Follows(g, KindOf(g, v), x, norm)
  }

  /** The walk is complete: it ends, comes back to a value, or has gone 33 steps, one more than the depth limit. */
  ghost predicate Complete(g: Values, vs: seq<ValueId>, norm: bool)
    requires Closed(g) && Walk(g, vs, norm)
  {
    && |vs| <= 34
    && (Stops(g, Last(vs), norm) || Last(vs) in Before(vs) || |vs| == 34)
  }

  lemma StopKinds(g: Values, v: ValueId, norm: bool)
    requires Closed(g) && v in g
    ensures var k := KindOf(g, v);
            Stops(g, v, norm) <==> k.Leaf? || k.ConstInt? || k.PointerCast? || k.Phi? || k.Select? || (!norm && (k.ConstantCast? || k.Store?))
  {
    var k := KindOf(g, v);
    assert k.Gep? ==> Follows(g, k, k.base, norm);
    assert k.Load? ==> Follows(g, k, k.pointer, norm);
    assert k.Cast? ==> Follows(g, k, k.source, norm);
    assert norm && k.ConstantCast? ==> Follows(g, k, k.source, norm);
    assert norm && k.Store? ==> Follows(g, k, k.pointer, norm);
    if k.Arith? {
      FirstNonConstantExact(g, k.lhs, k.rhs, FirstNonConstant(g, k.lhs, k.rhs));
      assert Follows(g, k, FirstNonConstant(g, k.lhs, k.rhs), norm);
    }
  }

  lemma WalkLonger(g: Values, vs: seq<ValueId>, x: ValueId, norm: bool)
    requires Closed(g) && Walk(g, vs, norm) && Last(vs) !in Before(vs) && x in g && Follows(g, KindOf(g, Last(vs)), x, norm)
    ensures Walk(g, vs + [x], norm)
  {
    hide KindOf, Follows, Closed;
    var us := vs + [x];
    forall i | 0 <= i < |us| - 1 ensures StepAt(g, us, norm, i) {
      assert i < |vs| - 1 ==> StepAt(g, vs, norm, i);
    }
    forall i, j | 0 <= i < j < |us| - 1 ensures us[i] != us[j] {
      assert us[i] in Before(vs);
    }
  }

  /** Every value has a complete walk. */
  lemma CompleteWalk(g: Values, v: ValueId, norm: bool) returns (vs: seq<ValueId>)
    requires Closed(g) && v in g
    ensures Walk(g, vs, norm) && vs[0] == v && Complete(g, vs, norm)
  {
    hide Closed, KindOf, Follows;
    vs := [v];
    while !Complete(g, vs, norm)
      invariant Walk(g, vs, norm) && vs[0] == v && |vs| <= MAX_TRACE_DEPTH + 2
      decreases MAX_TRACE_DEPTH + 2 - |vs|
    {
      var x :| Follows(g, KindOf(g, Last(vs)), x, norm);
      FollowedIsKnown(g, KindOf(g, Last(vs)), x, norm);
      WalkLonger(g, vs, x, norm);
      vs := vs + [x];
    }
  }

  lemma FollowedIsKnown(g: Values, k: Kind, x: ValueId, norm: bool)
    requires OperandsIn(g, k) && Follows(g, k, x, norm)
    ensures x in g
  {
  }

  /** The answer at a leaf. */
  lemma LeafAnswer(g: Values, layout: bool, v: ValueId, visited: set<ValueId>, depth: nat)
    requires Closed(g) && v in g && v !in visited && depth <= MAX_TRACE_DEPTH && (KindOf(g, v).Leaf? || KindOf(g, v).ConstInt?)
    ensures Trace(g, layout, v, visited, depth) == Region(Strip(g, v, {v}), [], true, 0)
  {
    hide Closed, Strip, NormalizeVariable;
    LeafNormal(g, Strip(g, v, {v}));
  }

  /**
   Where the answer lies: its base is the leaf at the end of the walk, or the
   value at which the walk repeats or reaches the depth limit; the offset is
   unknown iff a load, a GEP without a constant offset or a sum that gives up lies
   on the walk; the offsets are those met on the way; and a known start is
   the sum of theirs as a 64-bit word.
   */
  lemma WalkDecides(g: Values, layout: bool, vs: seq<ValueId>)
    requires Closed(g) && Walk(g, vs, false) && Complete(g, vs, false)
    requires var e := Last(vs); var cut := e in Before(vs) || |vs| == 34;
             cut || KindOf(g, e).Leaf? || KindOf(g, e).ConstInt?
    ensures var r, e := Trace(g, layout, vs[0], {}, 0), Last(vs);
            && r.base == (if e in Before(vs) || |vs| == 34 then e else Strip(g, e, {e}))
            && (r.known <==> !LosesOffset(g, layout, vs))
            && r.offsets == OffsetsAlong(g, vs)
            && (r.known ==> r.start == Wrap(DeltaAlong(g, vs)))
  {
    hide *;
    LastKnown(g, vs, false);
    var e := Last(vs);
    CompleteLength(g, vs);
    TraceAlong(g, layout, vs, {}, 0);
    if e in Before(vs) || |vs| == 34 {
      CutAnswer(g, layout, e, {} + Before(vs), |vs| - 1);
    } else {
      LeafAnswer(g, layout, e, {} + Before(vs), |vs| - 1);
    }
    CarriedFrom(g, layout, vs, Trace(g, layout, vs[0], {}, 0), Trace(g, layout, e, {} + Before(vs), 0 + |vs| - 1));
  }

  lemma CompleteLength(g: Values, vs: seq<ValueId>)
    requires Closed(g) && Walk(g, vs, false) && Complete(g, vs, false)
    ensures |vs| <= 34 == MAX_TRACE_DEPTH + 2
  {
  }

  /** What a walk makes of an answer that knows its offset to be zero. */
  lemma CarriedFrom(g: Values, layout: bool, vs: seq<ValueId>, r: Region, R: Region)
    requires Closed(g) && Walk(g, vs, false) && Carried(g, layout, vs, r, R) && R.offsets == [] && R.known && R.start == 0
    ensures forall i :: 0 <= i < |vs| ==> vs[i] in g
    ensures r.base == R.base && (r.known <==> !LosesOffset(g, layout, vs))
    ensures r.offsets == OffsetsAlong(g, vs) && (r.known ==> r.start == Wrap(DeltaAlong(g, vs)))
  {
    hide LosesOffset, OffsetsAlong, DeltaAlong, KindOf, Follows;
    assert [] + OffsetsAlong(g, vs) == OffsetsAlong(g, vs);
  }

  lemma LastKnown(g: Values, vs: seq<ValueId>, norm: bool)
    requires Closed(g) && Walk(g, vs, norm)
    ensures vs != [] && Last(vs) in g && forall i :: 0 <= i < |vs| ==> vs[i] in g
  {
  }

  lemma CutAnswer(g: Values, layout: bool, v: ValueId, visited: set<ValueId>, depth: nat)
    requires Closed(g) && v in g && (v in visited || depth > MAX_TRACE_DEPTH)
    ensures Trace(g, layout, v, visited, depth) == Region(v, [], true, 0)
  {
  }

  /** Two loads through one pointer get one base and one list of offsets, and the offset is unknown for both. */
  lemma LoadsShareABase(g: Values, layout: bool, u: ValueId, v: ValueId, p: ValueId, vs: seq<ValueId>)
    requires Closed(g) && u in g && v in g && KindOf(g, u) == Kind.Load(p) && KindOf(g, v) == Kind.Load(p)
    requires Walk(g, vs, false) && vs[0] == p && u !in vs && v !in vs && |vs| <= MAX_TRACE_DEPTH
    requires Last(vs) !in Before(vs) && (KindOf(g, Last(vs)).Leaf? || KindOf(g, Last(vs)).ConstInt?)
    ensures var a, b := Trace(g, layout, u, {}, 0), Trace(g, layout, v, {}, 0);
            a == b == Region(Strip(g, Last(vs), {Last(vs)}), OffsetsAlong(g, vs), false, 0)
  {
    hide Closed, KindOf, Trace, Strip, OffsetsAlong, LosesOffset, DeltaAlong;
    LastKnown(g, vs, false);
    LoadAnswer(g, layout, u, p, vs);
    LoadAnswer(g, layout, v, p, vs);
  }

  lemma LoadAnswer(g: Values, layout: bool, v: ValueId, p: ValueId, vs: seq<ValueId>)
    requires Closed(g) && v in g && KindOf(g, v) == Kind.Load(p)
    requires Walk(g, vs, false) && vs[0] == p && v !in vs && |vs| <= MAX_TRACE_DEPTH
    requires Last(vs) !in Before(vs) && (KindOf(g, Last(vs)).Leaf? || KindOf(g, Last(vs)).ConstInt?)
    ensures Last(vs) in g
    ensures Trace(g, layout, v, {}, 0) == Region(Strip(g, Last(vs), {Last(vs)}), OffsetsAlong(g, vs), false, 0)
  {
    hide *;
    LastKnown(g, vs, false);
    LoadOpens(g, layout, v, p);
    BeforeMembers(vs, v);
    TraceAlong(g, layout, vs, {v}, 1);
    LeafAnswer(g, layout, Last(vs), {v} + Before(vs), 1 + |vs| - 1);
    CarriedFrom(g, layout, vs, Trace(g, layout, p, {v}, 1), Trace(g, layout, Last(vs), {v} + Before(vs), 1 + |vs| - 1));
  }

  lemma BeforeMembers(vs: seq<ValueId>, v: ValueId)
    requires vs != [] && v !in vs
    ensures v !in Before(vs) && Last(vs) != v
  {
  }

  lemma LoadOpens(g: Values, layout: bool, v: ValueId, p: ValueId)
    requires Closed(g) && v in g && KindOf(g, v) == Kind.Load(p)
    ensures p in g && Trace(g, layout, v, {}, 0) == Trace(g, layout, p, {v}, 1).(known := false, start := 0)
  {
    hide Strip;
    assert {} + {v} == {v};
  }

  // ----- merges -----

  /** Two inputs agree: one normalized base, the same offsets, and the same start or none. */
  ghost predicate Agree(g: Values, a: Region, b: Region)
    requires Closed(g) && a.base in g && b.base in g
  {
    && NormalizeVariable(g, a.base) == NormalizeVariable(g, b.base) && a.offsets == b.offsets
    && a.known == b.known && (a.known ==> a.start == b.start)
  }

  /** The inputs of a PHI are merged iff all agree with the first. */
  lemma {:induction false} MergeExact(g: Values, layout: bool, ins: seq<ValueId>, k: nat, visited: set<ValueId>, depth: nat)
    requires Closed(g) && 0 < k <= |ins| && depth <= MAX_TRACE_DEPTH && forall j :: 0 <= j < |ins| ==> ins[j] in g
    ensures var first := Trace(g, layout, ins[0], visited, depth + 1);
            var m := MergeIncoming(g, layout, ins, k, visited, depth);
            && (m.Some? <==> forall j :: 0 <= j < k ==> Agree(g, first, Trace(g, layout, ins[j], visited, depth + 1)))
            && (m.Some? ==> m.value == first.(base := NormalizeVariable(g, first.base)))
  {
    hide Closed, Trace, NormalizeVariable, Normalize;
    if k > 1 {
      MergeExact(g, layout, ins, k - 1, visited, depth);
    }
  }

  /** The regions of the inputs of a merge at v. */
  ghost predicate AllAgree(g: Values, layout: bool, ins: seq<ValueId>, seen: set<ValueId>, depth: nat)
    requires Closed(g) && ins != [] && forall j :: 0 <= j < |ins| ==> ins[j] in g
  {
    forall j :: 0 <= j < |ins| ==> Agree(g, Trace(g, layout, ins[0], seen, depth), Trace(g, layout, ins[j], seen, depth))
  }

  /** The answer at a PHI: what its inputs agree on, or the PHI itself with unknown offset. */
  lemma PhiAnswer(g: Values, layout: bool, v: ValueId, visited: set<ValueId>, depth: nat)
    requires Closed(g) && v in g && v !in visited && depth <= MAX_TRACE_DEPTH && KindOf(g, v).Phi?
    ensures var ins, seen := KindOf(g, v).incoming, visited + {v};
            Trace(g, layout, v, visited, depth) ==
            if ins != [] && AllAgree(g, layout, ins, seen, depth + 1) then
              var first := Trace(g, layout, ins[0], seen, depth + 1); first.(base := NormalizeVariable(g, first.base))
            else Region(Strip(g, v, {v}), [], false, 0)
  {
    var ins := KindOf(g, v).incoming;
    NothingMerged(g, layout, ins, visited + {v}, depth);
    hide Closed, Strip, Normalize, NormalizeVariable, MergeIncoming, Agree;
    if ins != [] {
      MergeExact(g, layout, ins, |ins|, visited + {v}, depth);
    }
  }

  /** The same at a select. */
  lemma SelectAnswer(g: Values, layout: bool, v: ValueId, visited: set<ValueId>, depth: nat)
    requires Closed(g) && v in g && v !in visited && depth <= MAX_TRACE_DEPTH && KindOf(g, v).Select?
    ensures var seen := visited + {v};
            var yes := Trace(g, layout, KindOf(g, v).yes, seen, depth + 1);
            Trace(g, layout, v, visited, depth) ==
            if Agree(g, yes, Trace(g, layout, KindOf(g, v).no, seen, depth + 1)) then yes.(base := NormalizeVariable(g, yes.base))
            else Region(Strip(g, v, {v}), [], false, 0)
  {
    hide Closed, Strip, Normalize, NormalizeVariable, MergeIncoming;
  }

  /** A merge all of whose inputs get one region at a leaf answers with this region. */
  lemma MergeOfOneRegion(g: Values, layout: bool, v: ValueId, visited: set<ValueId>, depth: nat, R: Region)
    requires Closed(g) && v in g && v !in visited && depth <= MAX_TRACE_DEPTH && R.base in g && (g[R.base].Leaf? || g[R.base].ConstInt?)
    requires var k, seen := KindOf(g, v), visited + {v};
             || (k.Phi? && k.incoming != [] &&
                 forall j :: 0 <= j < |k.incoming| ==> Trace(g, layout, k.incoming[j], seen, depth + 1) == R)
             || (k.Select? && Trace(g, layout, k.yes, seen, depth + 1) == R && Trace(g, layout, k.no, seen, depth + 1) == R)
    ensures Trace(g, layout, v, visited, depth) == R
  {
    hide Closed, Strip, Trace, Normalize, NormalizeVariable;
    LeafNormal(g, R.base);
    if KindOf(g, v).Phi? {
      PhiAnswer(g, layout, v, visited, depth);
    } else {
      SelectAnswer(g, layout, v, visited, depth);
    }
  }

  // ----- the normalizer -----

  lemma NormalizeStep(g: Values, v: ValueId, x: ValueId, visited: set<ValueId>, depth: nat)
    requires Closed(g) && v in g && x in g && v !in visited && depth <= MAX_TRACE_DEPTH && Follows(g, KindOf(g, v), x, true)
    ensures Normalize(g, v, visited, depth) == Normalize(g, x, visited + {v}, depth + 1)
  {
    hide Closed, Strip, NormalizeIncoming, AddressOperand, IsConstant;
    if KindOf(g, v).Arith? {
      FirstNonConstantExact(g, KindOf(g, v).lhs, KindOf(g, v).rhs, x);
    }
  }

  /** The normalizer goes along the walk and remembers every value it has passed. */
  lemma {:induction false} NormalizeAlong(g: Values, vs: seq<ValueId>, visited: set<ValueId>, depth: nat)
    requires Closed(g) && Walk(g, vs, true) && Before(vs) !! visited && depth + |vs| <= MAX_TRACE_DEPTH + 2
    ensures vs[0] in g && Last(vs) in g
    ensures Normalize(g, vs[0], visited, depth) == Normalize(g, Last(vs), visited + Before(vs), depth + |vs| - 1)
    decreases |vs|
  {
    hide Closed, Normalize, Follows, KindOf;
    if |vs| == 1 {
      assert visited + Before(vs) == visited;
    } else {
      WalkTail(g, vs, true);
      NormalizeStep(g, vs[0], vs[1], visited, depth);
      NormalizeAlong(g, vs[1..], visited + {vs[0]}, depth + 1);
      assert visited + {vs[0]} + Before(vs[1..]) == visited + Before(vs);
    }
  }

  /** The end of a walk at which nothing is merged. */
  ghost predicate AtLeaf(g: Values, vs: seq<ValueId>)
    requires Closed(g) && Walk(g, vs, true)
  {
    Last(vs) !in Before(vs) && (KindOf(g, Last(vs)).Leaf? || KindOf(g, Last(vs)).ConstInt?)
  }

  ghost function LeafOf(g: Values, vs: seq<ValueId>): ValueId
    requires Closed(g) && Walk(g, vs, true)
  {
    Strip(g, Last(vs), {Last(vs)})
  }

  lemma NormalizeEnd(g: Values, e: ValueId, visited: set<ValueId>, depth: nat)
    requires Closed(g) && e in g
    ensures e in visited || depth > MAX_TRACE_DEPTH ==> Normalize(g, e, visited, depth) == (e, visited)
    ensures e !in visited && depth <= MAX_TRACE_DEPTH && (KindOf(g, e).Leaf? || KindOf(g, e).ConstInt?) ==>
              Normalize(g, e, visited, depth) == (Strip(g, e, {e}), visited + {e})
  {
  }

  function Members(vs: seq<ValueId>): set<ValueId>
  {
    set x | x in vs
  }

  lemma BeforeAndLast(vs: seq<ValueId>)
    requires vs != []
    ensures Members(vs) == Before(vs) + {Last(vs)}
  {
    forall x | x in vs ensures x in Before(vs) || x == Last(vs) {
      var i :| 0 <= i < |vs| && vs[i] == x;
    }
  }

  lemma NormalizeToLeaf(g: Values, vs: seq<ValueId>, visited: set<ValueId>, depth: nat)
    requires Closed(g) && Walk(g, vs, true) && AtLeaf(g, vs) && Members(vs) !! visited && depth + |vs| <= MAX_TRACE_DEPTH + 1
    ensures vs[0] in g && Normalize(g, vs[0], visited, depth) == (LeafOf(g, vs), visited + Members(vs))
  {
    hide Closed, Normalize, KindOf, Strip, Walk;
    LastKnown(g, vs, true);
    BeforeAndLast(vs);
    NormalizeAlong(g, vs, visited, depth);
    NormalizeEnd(g, Last(vs), visited + Before(vs), depth + |vs| - 1);
    assert visited + Before(vs) + {Last(vs)} == visited + Members(vs);
  }

  /** The variable of a value is the leaf at the end of its walk, or where the walk repeats or is cut off. */
  lemma NormalizeDecides(g: Values, vs: seq<ValueId>)
    requires Closed(g) && Walk(g, vs, true) && Complete(g, vs, true)
    ensures var cut := Last(vs) in Before(vs) || |vs| == 34;
            && vs[0] in g
            && (cut ==> NormalizeVariable(g, vs[0]) == Last(vs))
            && (!cut && AtLeaf(g, vs) ==> NormalizeVariable(g, vs[0]) == LeafOf(g, vs))
  {
    hide Closed, Normalize, KindOf, Strip, Walk;
    LastKnown(g, vs, true);
    NormalizeAlong(g, vs, {}, 0);
    NormalizeEnd(g, Last(vs), {} + Before(vs), |vs| - 1);
  }

  lemma WalkPrefix(g: Values, us: seq<ValueId>, n: nat)
    requires Closed(g) && Walk(g, us, true) && 0 < n <= |us|
    ensures Walk(g, us[..n], true) && us[..n][0] == us[0] && Last(us[..n]) == us[n - 1]
    ensures forall x :: x in Before(us[..n]) ==> exists i :: 0 <= i < n - 1 && us[i] == x
  {
    hide Follows, KindOf, Closed;
    var ws := us[..n];
    forall i | 0 <= i < |ws| - 1 ensures StepAt(g, ws, true, i) {
      assert StepAt(g, us, true, i);
    }
  }

  /** From a set that already holds us[k], and nothing of us before it, the walk us ends at us[k]. */
  lemma NormalizeMeets(g: Values, us: seq<ValueId>, k: nat, visited: set<ValueId>, depth: nat)
    requires Closed(g) && Walk(g, us, true) && k < |us| && us[k] in visited && (forall i :: 0 <= i < k ==> us[i] !in visited)
    requires depth + |us| <= MAX_TRACE_DEPTH + 2
    ensures us[0] in g && Normalize(g, us[0], visited, depth).0 == us[k]
  {
    hide Closed, Normalize, KindOf, Strip, Walk;
    WalkPrefix(g, us, k + 1);
    var ws := us[..k + 1];
    LastKnown(g, ws, true);
    NormalizeAlong(g, ws, visited, depth);
    NormalizeEnd(g, us[k], visited + Before(ws), depth + |ws| - 1);
  }

  /**
   A select whose operands lead to leaves over vs and us.  The two searches share
   their visited set, so us counts only up to the first value us[k] that is on
   vs: when they meet before the leaf, the select keeps its own name, although
   both lead to one variable.
   */
  lemma SelectVariable(g: Values, v: ValueId, vs: seq<ValueId>, us: seq<ValueId>, k: nat)
    requires Closed(g) && v in g && KindOf(g, v).Select? && Walk(g, vs, true) && Walk(g, us, true)
    requires vs[0] == KindOf(g, v).yes && us[0] == KindOf(g, v).no && AtLeaf(g, vs) && AtLeaf(g, us)
    requires v !in vs && v !in us && |vs| <= MAX_TRACE_DEPTH && |us| <= MAX_TRACE_DEPTH
    requires k <= |us| && (k < |us| ==> us[k] in vs) && (forall i :: 0 <= i < k ==> us[i] !in vs)
    ensures var a, b := LeafOf(g, vs), if k < |us| then us[k] else LeafOf(g, us);
            NormalizeVariable(g, v) == if a == b then a else Strip(g, v, {v})
  {
    hide Closed, Normalize, KindOf, Strip, Walk, AtLeaf, LeafOf;
    SelectOpens(g, v);
    NormalizeToLeaf(g, vs, {v}, 1);
    var visited := {v} + Members(vs);
    if k < |us| {
      NormalizeMeets(g, us, k, visited, 1);
    } else {
      NormalizeToLeaf(g, us, visited, 1);
    }
  }

  lemma SelectOpens(g: Values, v: ValueId)
    requires Closed(g) && v in g && KindOf(g, v).Select?
    ensures var a := Normalize(g, KindOf(g, v).yes, {v}, 1);
            var b := Normalize(g, KindOf(g, v).no, a.1, 1);
            NormalizeVariable(g, v) == if a.0 == b.0 then a.0 else Strip(g, v, {v})
  {
    hide *;
    assert {} + {v} == {v};
    NormalizeIs(g, v);
    SelectUnfold(g, v, {}, 0);
  }

  lemma NormalizeIs(g: Values, v: ValueId)
    requires Closed(g) && v in g
    ensures NormalizeVariable(g, v) == Normalize(g, v, {}, 0).0 && 0 <= MAX_TRACE_DEPTH
  {
    hide Closed, Normalize;
  }

  lemma SelectUnfold(g: Values, v: ValueId, visited: set<ValueId>, depth: nat)
    requires Closed(g) && v in g && KindOf(g, v).Select? && v !in visited && depth <= MAX_TRACE_DEPTH
    ensures var a := Normalize(g, KindOf(g, v).yes, visited + {v}, depth + 1);
            var b := Normalize(g, KindOf(g, v).no, a.1, depth + 1);
            Normalize(g, v, visited, depth).0 == if a.0 == b.0 then a.0 else Strip(g, v, {v})
  {
    hide Closed, Strip;
  }

  lemma LeafIsLast(g: Values, vs: seq<ValueId>)
    requires Closed(g) && Walk(g, vs, true) && AtLeaf(g, vs)
    ensures LeafOf(g, vs) in g && (LeafOf(g, vs) in vs ==> LeafOf(g, vs) == Last(vs))
  {
    var c := LeafOf(g, vs);
    if i: nat :| i < |vs| - 1 && vs[i] == c && StepAt(g, vs, true, i) {
      assert false;
    }
  }

  /** The same, when the leaf itself may have been visited before. */
  lemma NormalizeToVariable(g: Values, vs: seq<ValueId>, visited: set<ValueId>, depth: nat)
    requires Closed(g) && Walk(g, vs, true) && AtLeaf(g, vs) && depth + |vs| <= MAX_TRACE_DEPTH + 1
    requires forall x :: x in vs && x in visited ==> x == LeafOf(g, vs)
    ensures vs[0] in g && Normalize(g, vs[0], visited, depth) == (LeafOf(g, vs), visited + Members(vs))
  {
    hide Closed, Normalize, KindOf, Strip, Walk, AtLeaf, LeafOf;
    LastKnown(g, vs, true);
    LeafIsLast(g, vs);
    if LeafOf(g, vs) in vs && LeafOf(g, vs) in visited {
      BeforeAndLast(vs);
      LastIsNew(g, vs);
      NormalizeAlong(g, vs, visited, depth);
      NormalizeEnd(g, Last(vs), visited + Before(vs), depth + |vs| - 1);
      assert visited + Before(vs) == visited + Members(vs);
    } else {
      NormalizeToLeaf(g, vs, visited, depth);
    }
  }

  lemma LastIsNew(g: Values, vs: seq<ValueId>)
    requires Closed(g) && Walk(g, vs, true) && AtLeaf(g, vs)
    ensures Last(vs) !in Before(vs) && forall x :: x in Before(vs) ==> x in vs
  {
  }

  /** Two walks have nothing in common but perhaps the variable c. */
  ghost predicate MeetOnlyAt(c: ValueId, vs: seq<ValueId>, us: seq<ValueId>)
  {
    forall x :: x in vs && x in us ==> x == c
  }

  ghost predicate LeadsTo(g: Values, vs: seq<ValueId>, x: ValueId, c: ValueId)
    requires Closed(g)
  {
    Walk(g, vs, true) && AtLeaf(g, vs) && LeafOf(g, vs) == c && vs[0] == x && |vs| <= MAX_TRACE_DEPTH
  }

  /** The inputs of a PHI from the i-th on lead to the variables cs; those before lead to c. */
  lemma {:induction false} PhiOnwards(g: Values, phi: ValueId, ins: seq<ValueId>, i: nat, c: ValueId, cs: seq<ValueId>,
                                      walks: seq<seq<ValueId>>, visited: set<ValueId>)
    requires Closed(g) && phi in g && c in g && |cs| == |walks| == |ins| && i <= |ins| && forall j :: 0 <= j < |ins| ==> ins[j] in g
    requires forall j :: i <= j < |ins| ==> LeadsTo(g, walks[j], ins[j], cs[j])
    requires forall j, x :: i <= j < |ins| && x in walks[j] && x in visited ==> x == cs[j]
    requires forall j, l :: i <= j < l < |ins| ==> MeetOnlyAt(cs[l], walks[j], walks[l])
    ensures NormalizeIncoming(g, phi, ins, i, Some(c), visited, 0).0 ==
            if forall j :: i <= j < |ins| ==> cs[j] == c then c else phi
    decreases |ins| - i
  {
    hide Closed, Normalize, KindOf, Strip, Walk, LeafOf, AtLeaf;
    if i < |ins| {
      assert LeadsTo(g, walks[i], ins[i], cs[i]);
      NormalizeToVariable(g, walks[i], visited, 1);
      assert forall l :: i < l < |ins| ==> MeetOnlyAt(cs[l], walks[i], walks[l]);
      if cs[i] == c {
        PhiOnwards(g, phi, ins, i + 1, c, cs, walks, visited + Members(walks[i]));
      }
    }
  }

  /** A PHI whose inputs lead to variables over walks that meet nowhere else has that variable if it is one, and is its own otherwise. */
  lemma PhiVariable(g: Values, v: ValueId, cs: seq<ValueId>, walks: seq<seq<ValueId>>)
    requires Closed(g) && v in g && KindOf(g, v).Phi? && |cs| == |walks| == |KindOf(g, v).incoming| > 0
    requires forall j :: 0 <= j < |walks| ==> LeadsTo(g, walks[j], KindOf(g, v).incoming[j], cs[j]) && v !in walks[j]
    requires forall j, l :: 0 <= j < l < |walks| ==> MeetOnlyAt(cs[l], walks[j], walks[l])
    ensures NormalizeVariable(g, v) == if forall j :: 0 <= j < |cs| ==> cs[j] == cs[0] then cs[0] else Strip(g, v, {v})
  {
    hide Closed, Normalize, NormalizeIncoming, KindOf, Strip, Walk, LeafOf, AtLeaf;
    var ins, phi := KindOf(g, v).incoming, Strip(g, v, {v});
    PhiOpens(g, v);
    assert LeadsTo(g, walks[0], ins[0], cs[0]);
    NormalizeToVariable(g, walks[0], {v}, 1);
    LeafIsLast(g, walks[0]);
    PhiOnwards(g, phi, ins, 1, cs[0], cs, walks, {v} + Members(walks[0]));
  }

  lemma PhiOpens(g: Values, v: ValueId)
    requires Closed(g) && v in g && KindOf(g, v).Phi? && KindOf(g, v).incoming != []
    ensures var ins, phi := KindOf(g, v).incoming, Strip(g, v, {v});
            var b := Normalize(g, ins[0], {v}, 1);
            NormalizeVariable(g, v) == NormalizeIncoming(g, phi, ins, 1, Some(b.0), b.1, 0).0
  {
    hide *;
    assert {} + {v} == {v};
    NormalizeIs(g, v);
    PhiUnfold(g, v, {}, 0);
  }

  lemma PhiUnfold(g: Values, v: ValueId, visited: set<ValueId>, depth: nat)
    requires Closed(g) && v in g && KindOf(g, v).Phi? && KindOf(g, v).incoming != [] && v !in visited && depth <= MAX_TRACE_DEPTH
    ensures var ins, phi := KindOf(g, v).incoming, Strip(g, v, {v});
            var b := Normalize(g, ins[0], visited + {v}, depth + 1);
            Normalize(g, v, visited, depth).0 == NormalizeIncoming(g, phi, ins, 1, Some(b.0), b.1, depth).0
  {
    hide Closed, Strip;
  }
}
