/**
 * The ASan address tracer of `lib/CheckedVariableAnalyzer.cpp`: from a checked
 * address to a base value and, when it claims to know it, a static byte offset.
 */
module RegionTrace {
  import opened IR

  type ValueId = nat

  datatype Opcode = Add | Sub | OtherOp

  /**
   What a cast instruction does to the word: nothing (pointer casts and zero extension), keep the lowest bits, or
   extend the sign of an integer with that many bits.
   */
  datatype CastKind = SameWord | Truncate(bits: nat) | SignExtend(bits: nat)

  /** What the tracer can see of a value. A narrow integer stands for its word without a sign. */
  datatype Kind =
    | Leaf(isConstant: bool)
    | ConstInt(value: int, bits: nat)
    | PointerCast(source: ValueId, isConstant: bool)
    | Cast(source: ValueId, how: CastKind)
    | ConstantCast(source: ValueId)
    | Gep(base: ValueId, indices: seq<ValueId>, byteOffset: Option<int>, isConstant: bool)
    | Load(pointer: ValueId)
    | Store(pointer: ValueId)
    | Phi(incoming: seq<ValueId>)
    | Select(yes: ValueId, no: ValueId)
    | Arith(opcode: Opcode, lhs: ValueId, rhs: ValueId, width: nat)

  type Values = map<ValueId, Kind>

  const MAX_TRACE_DEPTH := 32

  const TWO_64: int := 0x1_0000_0000_0000_0000
  const TWO_63: int := 0x8000_0000_0000_0000

  /** The operands are values of the graph, and constants are as wide as the sum they stand in. */
  predicate OperandsIn(g: Values, k: Kind)
  {
    match k
    case Leaf(_) => true
    case ConstInt(_, _) => true
    case PointerCast(x, _) => x in g
    case Cast(x, _) => x in g
    case ConstantCast(x) => x in g
    case Gep(b, _, _, _) => b in g
    case Load(p) => p in g
    case Store(p) => p in g
    case Phi(ins) => forall j :: 0 <= j < |ins| ==> ins[j] in g
    case Select(t, e) => t in g && e in g
    case Arith(_, l, r, width) =>
      l in g && r in g && (g[l].ConstInt? ==> g[l].bits == width) && (g[r].ConstInt? ==> g[r].bits == width)
  }

  predicate Closed(g: Values)
  {
    forall v :: v in g ==> OperandsIn(g, g[v])
  }

  predicate IsConstant(g: Values, v: ValueId)
    requires v in g
  {
    match g[v]
    case Leaf(c) => c
    case ConstInt(_, _) => true
    case PointerCast(_, c) => c
    case ConstantCast(_) => true
    case Gep(_, _, _, c) => c
    case _ => false
  }

  function FirstNonConstant(g: Values, l: ValueId, r: ValueId): ValueId
    requires l in g && r in g
  {
    if !IsConstant(g, l) then l else if !IsConstant(g, r) then r else l
  }

  /** stripPointerCasts, which stops at a value it has already seen. */
  function Strip(g: Values, v: ValueId, seen: set<ValueId>): (w: ValueId)
    requires Closed(g) && v in g
    ensures w in g
    decreases g.Keys - seen
  {
    match g[v]
    case PointerCast(x, _) => if x in seen then x else Strip(g, x, seen + {x})
    case _ => v
  }

  // ----- normalizeVariable -----

  function Left(depth: nat): nat
  {
    if depth > MAX_TRACE_DEPTH then 0 else MAX_TRACE_DEPTH + 1 - depth
  }

  /** The normalized value, and the visited set as the call leaves it. */
  function Normalize(g: Values, v: ValueId, visited: set<ValueId>, depth: nat): (r: (ValueId, set<ValueId>))
    requires Closed(g) && v in g
    ensures r.0 in g
    decreases Left(depth), 1, 0
  {
    if depth > MAX_TRACE_DEPTH || v in visited then (v, visited)
    else
      var seen := visited + {v};
      var w := Strip(g, v, {v});
      match g[w]
      case Gep(b, _, _, _) => Normalize(g, b, seen, depth + 1)
      case Cast(x, _) => Normalize(g, x, seen, depth + 1)
      case ConstantCast(x) => Normalize(g, x, seen, depth + 1)
      case Load(p) => Normalize(g, p, seen, depth + 1)
      case Store(p) => Normalize(g, p, seen, depth + 1)
      case Phi(ins) => NormalizeIncoming(g, w, ins, 0, None, seen, depth)
      case Select(t, e) =>
        var a := Normalize(g, t, seen, depth + 1);
        var b := Normalize(g, e, a.1, depth + 1);
        (if a.0 == b.0 then a.0 else w, b.1)
      case Arith(_, l, r, _) => Normalize(g, FirstNonConstant(g, l, r), seen, depth + 1)
      case _ => (w, seen)
  }

  /** The incoming values of a PHI from index i on; the first disagreement ends the search. */
  function NormalizeIncoming(g: Values, phi: ValueId, ins: seq<ValueId>, i: nat, common: Option<ValueId>,
                             visited: set<ValueId>, depth: nat): (r: (ValueId, set<ValueId>))
    requires Closed(g) && phi in g && i <= |ins| && depth <= MAX_TRACE_DEPTH
    requires (forall j :: 0 <= j < |ins| ==> ins[j] in g) && (common.Some? ==> common.value in g)
    ensures r.0 in g
    decreases Left(depth), 0, |ins| - i
  {
    if i == |ins| then (common.GetOr(phi), visited)
    else
      var b := Normalize(g, ins[i], visited, depth + 1);
      if common.Some? && common.value != b.0 then (phi, b.1)
      else NormalizeIncoming(g, phi, ins, i + 1, Some(b.0), b.1, depth)
  }

  function NormalizeVariable(g: Values, v: ValueId): (w: ValueId)
    requires Closed(g) && v in g
    ensures w in g
  {
    Normalize(g, v, {}, 0).0
  }

  // ----- regions -----

  /** Base, Offsets, HasStaticByteOffset and StaticByteOffset of a CheckedVariable. */
  datatype Region = Region(base: ValueId, offsets: seq<ValueId>, known: bool, start: int)

  /** The signed 64-bit value of x. */
  function Wrap(x: int): int
  {
    (x + TWO_63) % TWO_64 - TWO_63
  }

  function BaseRegion(v: ValueId): Region
  {
    Region(v, [], true, 0)
  }

  function Unknown(r: Region): Region
  {
    r.(known := false, start := 0)
  }

  function Shifted(r: Region, delta: int): Region
  {
    if r.known then r.(start := Wrap(r.start + delta)) else r
  }

  function Noted(r: Region, offset: ValueId): Region
  {
    r.(offsets := r.offsets + [offset])
  }

  predicate Fits(o: Option<int>)
  {
    o.Some? && -TWO_63 <= o.value < TWO_63
  }

  /** appendGEPRegion; `layout` says whether a DataLayout is known. */
  function GepRegion(r: Region, indices: seq<ValueId>, byteOffset: Option<int>, layout: bool): Region
  {
    var noted := r.(offsets := r.offsets + indices);
    if layout && r.known && Fits(byteOffset) then Shifted(noted, byteOffset.value) else Unknown(noted)
  }

  /** The add and sub arm, applied to the region of the address operand. */
  function ArithRegion(g: Values, r: Region, opcode: Opcode, lhs: ValueId, rhs: ValueId): Region
    requires lhs in g && rhs in g
  {
    if opcode == OtherOp then r
    else if IsConstant(g, lhs) then
      if g[lhs].ConstInt? && opcode == Add then Shifted(Noted(r, lhs), g[lhs].value) else Unknown(Noted(r, lhs))
    else if IsConstant(g, rhs) then
      if g[rhs].ConstInt? then Shifted(Noted(r, rhs), if opcode == Sub then -g[rhs].value else g[rhs].value)
      else Unknown(Noted(r, rhs))
    else r
  }

  predicate SameRegionStart(a: Region, b: Region)
  {
    a.known == b.known && (a.known ==> a.start == b.start)
  }

  /** One incoming region r with normalized base b joins the region agreed on so far. */
  function MergeOne(m: Option<Region>, first: bool, r: Region, b: ValueId): Option<Region>
  {
    if first then Some(r.(base := b))
    else if m.Some? && m.value.base == b && m.value.offsets == r.offsets && SameRegionStart(m.value, r) then m
    else None
  }

  /** traceASanCheckedAddressImpl. */
  function Trace(g: Values, layout: bool, v: ValueId, visited: set<ValueId>, depth: nat): (r: Region)
    requires Closed(g) && v in g
    ensures r.base in g
    decreases Left(depth), 1, 0
  {
    if depth > MAX_TRACE_DEPTH || v in visited then BaseRegion(v)
    else
      var seen := visited + {v};
      var w := Strip(g, v, {v});
      match g[w]
      case Gep(b, indices, byteOffset, _) => GepRegion(Trace(g, layout, b, seen, depth + 1), indices, byteOffset, layout)
      case Load(p) => Unknown(Trace(g, layout, p, seen, depth + 1))
      case Cast(x, _) => Trace(g, layout, x, seen, depth + 1)
      case Phi(ins) =>
        var merged := MergeIncoming(g, layout, ins, |ins|, seen, depth);
        merged.GetOr(Region(w, [], false, 0))
      case Select(t, e) =>
        var a := Trace(g, layout, t, seen, depth + 1);
        var b := Trace(g, layout, e, seen, depth + 1);
        var common := NormalizeVariable(g, a.base);
        if common == NormalizeVariable(g, b.base) && a.offsets == b.offsets && SameRegionStart(a, b)
        then a.(base := common) else Region(w, [], false, 0)
      case Arith(opcode, l, r, _) =>
        ArithRegion(g, Trace(g, layout, FirstNonConstant(g, l, r), seen, depth + 1), opcode, l, r)
      case _ => BaseRegion(NormalizeVariable(g, w))
  }

  /** The region the first k incoming values agree on, with their bases normalized. */
  function MergeIncoming(g: Values, layout: bool, ins: seq<ValueId>, k: nat, visited: set<ValueId>, depth: nat):
      (r: Option<Region>)
    requires Closed(g) && k <= |ins| && depth <= MAX_TRACE_DEPTH && forall j :: 0 <= j < |ins| ==> ins[j] in g
    ensures r.Some? ==> r.value.base in g
    decreases Left(depth), 0, k
  {
    if k == 0 then None
    else
      var r := Trace(g, layout, ins[k - 1], visited, depth + 1);
      var b := NormalizeVariable(g, r.base);
      MergeOne(MergeIncoming(g, layout, ins, k - 1, visited, depth), k == 1, r, b)
  }

  // ----- what values mean -----

  /** Equal as 64-bit words. */
  predicate Same(a: int, b: int)
  {
    (a - b) % TWO_64 == 0
  }

  /** x as a 64-bit word. */
  function Word(x: int): (w: nat)
    ensures w < TWO_64
  {
    x % TWO_64
  }

  function Pow2(n: nat): (p: nat)
    ensures p > 0
  {
    if n == 0 then 1 else 2 * Pow2(n - 1)
  }

  /** The result x of an operation on integers of the given width. */
  function Cut(x: int, bits: nat): int
  {
    if bits >= 64 then x else Word(x) % Pow2(bits)
  }

  ghost predicate Holds(g: Values, env: ValueId -> int, v: ValueId)
    requires v in g
  {
    match g[v]
    case ConstInt(c, bits) => Same(env(v), Cut(c, bits))
    case PointerCast(x, _) => Same(env(v), env(x))
    case Cast(x, SameWord) => Same(env(v), env(x))
    case Cast(x, Truncate(bits)) => Same(env(v), Word(env(x)) % Pow2(bits))
    case Cast(x, SignExtend(bits)) =>
      && Word(env(x)) < Pow2(bits)
      && Same(env(v), if 2 * Word(env(x)) < Pow2(bits) then Word(env(x)) else Word(env(x)) - Pow2(bits))
    case ConstantCast(x) => Same(env(v), env(x))
    case Gep(b, _, o, _) => o.Some? ==> Same(env(v), env(b) + o.value)
    case Phi(ins) => ins != [] ==> exists j :: 0 <= j < |ins| && Same(env(v), env(ins[j]))
    case Select(t, e) => Same(env(v), env(t)) || Same(env(v), env(e))
    case Arith(OtherOp, _, _, _) => true
    case Arith(o, l, r, width) => Same(env(v), Cut(if o == Add then env(l) + env(r) else env(l) - env(r), width))
    case _ => true
  }

  /** An environment gives every value a word, and the words fit the instructions; PHIs and selects take any input. */
  ghost predicate Consistent(g: Values, env: ValueId -> int)
  {
    forall v :: v in g ==> Holds(g, env, v)
  }

  /** The claim the tracer makes with HasStaticByteOffset. */
  ghost predicate Claim(env: ValueId -> int, v: ValueId, r: Region)
  {
    r.known ==> Same(env(v), env(r.base) + r.start)
  }

  // ----- the loops -----

  method NormalizeImpl(g: Values, v: ValueId, visited: set<ValueId>, depth: nat)
      returns (base: ValueId, seen: set<ValueId>)
    requires Closed(g) && v in g
    ensures (base, seen) == Normalize(g, v, visited, depth)
    decreases Left(depth)
  {
    if depth > MAX_TRACE_DEPTH || v in visited {
      return v, visited;
    }
    seen := visited + {v};
    var w := Strip(g, v, {v});
    match g[w] {
      case Gep(b, _, _, _) => base, seen := NormalizeImpl(g, b, seen, depth + 1);
      case Cast(x, _) => base, seen := NormalizeImpl(g, x, seen, depth + 1);
      case ConstantCast(x) => base, seen := NormalizeImpl(g, x, seen, depth + 1);
      case Load(p) => base, seen := NormalizeImpl(g, p, seen, depth + 1);
      case Store(p) => base, seen := NormalizeImpl(g, p, seen, depth + 1);
      case Phi(ins) =>
        var common: Option<ValueId> := None;
        for i := 0 to |ins|
          invariant common.Some? ==> common.value in g
          invariant NormalizeIncoming(g, w, ins, i, common, seen, depth) == Normalize(g, v, visited, depth)
        {
          var incomingBase;
          incomingBase, seen := NormalizeImpl(g, ins[i], seen, depth + 1);
          if common.None? {
            common := Some(incomingBase);
          } else if common.value != incomingBase {
            return w, seen;
          }
        }
        base := common.GetOr(w);
      case Select(t, e) =>
        var yesBase, noBase;
        yesBase, seen := NormalizeImpl(g, t, seen, depth + 1);
        noBase, seen := NormalizeImpl(g, e, seen, depth + 1);
        base := if yesBase == noBase then yesBase else w;
      case Arith(_, l, r, _) => base, seen := NormalizeImpl(g, FirstNonConstant(g, l, r), seen, depth + 1);
      case _ => base := w;
    }
  }

  lemma KnownOperands(g: Values, v: ValueId)
    requires Closed(g) && v in g
    ensures OperandsIn(g, g[v])
  {
  }

  method TraceImpl(g: Values, layout: bool, v: ValueId, visited: set<ValueId>, depth: nat) returns (r: Region)
    requires Closed(g) && v in g
    ensures r == Trace(g, layout, v, visited, depth)
    decreases Left(depth)
  {
    hide Closed, Normalize, MergeIncoming, GepRegion, ArithRegion, Strip;
    if depth > MAX_TRACE_DEPTH || v in visited {
      return BaseRegion(v);
    }
    var seen := visited + {v};
    var w := Strip(g, v, {v});
    KnownOperands(g, w);
    match g[w] {
      case Gep(b, indices, byteOffset, _) =>
        r := TraceImpl(g, layout, b, seen, depth + 1);
        r := GepRegion(r, indices, byteOffset, layout);
      case Load(p) =>
        r := TraceImpl(g, layout, p, seen, depth + 1);
        r := Unknown(r);
      case Cast(x, _) => r := TraceImpl(g, layout, x, seen, depth + 1);
      case Phi(ins) =>
        var merged := TraceIncoming(g, layout, ins, seen, depth);
        r := if merged.Some? then merged.value else Region(w, [], false, 0);
      case Select(t, e) =>
        var a := TraceImpl(g, layout, t, seen, depth + 1);
        var b := TraceImpl(g, layout, e, seen, depth + 1);
        var yesBase, _ := NormalizeImpl(g, a.base, {}, 0);
        var noBase, _ := NormalizeImpl(g, b.base, {}, 0);
        r := Region(w, [], false, 0);
        if yesBase == noBase && a.offsets == b.offsets && SameRegionStart(a, b) {
          r := Region(yesBase, a.offsets, a.known, a.start);
        }
      case Arith(opcode, lhs, rhs, _) =>
        r := TraceImpl(g, layout, FirstNonConstant(g, lhs, rhs), seen, depth + 1);
        r := ArithRegion(g, r, opcode, lhs, rhs);
      case _ =>
        var base, _ := NormalizeImpl(g, w, {}, 0);
        r := BaseRegion(base);
    }
  }

  lemma NothingMerged(g: Values, layout: bool, ins: seq<ValueId>, visited: set<ValueId>, depth: nat)
    requires Closed(g) && depth <= MAX_TRACE_DEPTH && forall j :: 0 <= j < |ins| ==> ins[j] in g
    ensures MergeIncoming(g, layout, ins, 0, visited, depth) == None
  {
  }

  lemma MergeUnfold(g: Values, layout: bool, ins: seq<ValueId>, k: nat, visited: set<ValueId>, depth: nat)
    requires Closed(g) && k < |ins| && depth <= MAX_TRACE_DEPTH && forall j :: 0 <= j < |ins| ==> ins[j] in g
    ensures
      var r := Trace(g, layout, ins[k], visited, depth + 1);
      MergeIncoming(g, layout, ins, k + 1, visited, depth)
        == MergeOne(MergeIncoming(g, layout, ins, k, visited, depth), k == 0, r, Normalize(g, r.base, {}, 0).0)
  {
  }

  /** The merge loop over a PHI's incoming values; every value is traced from the same visited set. */
  method TraceIncoming(g: Values, layout: bool, ins: seq<ValueId>, visited: set<ValueId>, depth: nat)
      returns (r: Option<Region>)
    requires Closed(g) && depth <= MAX_TRACE_DEPTH && forall j :: 0 <= j < |ins| ==> ins[j] in g
    ensures r == MergeIncoming(g, layout, ins, |ins|, visited, depth)
    decreases Left(depth), 0
  {
    hide Closed, Normalize, Trace, MergeIncoming;
    NothingMerged(g, layout, ins, visited, depth);
    var merged := Region(0, [], false, 0);
    var hasIncoming, sameBase := false, true;
    for k := 0 to |ins|
      invariant (hasIncoming <==> k > 0) && (sameBase || hasIncoming)
      invariant MergeIncoming(g, layout, ins, k, visited, depth) == if hasIncoming && sameBase then Some(merged) else None
    {
      var incoming := TraceImpl(g, layout, ins[k], visited, depth + 1);
      var incomingBase, _ := NormalizeImpl(g, incoming.base, {}, 0);
      MergeUnfold(g, layout, ins, k, visited, depth);
      if !hasIncoming {
        merged := Region(incomingBase, incoming.offsets, incoming.known, incoming.start);
        hasIncoming := true;
      } else if merged.base != incomingBase || merged.offsets != incoming.offsets || !SameRegionStart(merged, incoming) {
        sameBase := false;
      }
    }
    r := if hasIncoming && sameBase then Some(merged) else None;
  }

  // ----- soundness -----

  /** The one operand that is a ConstantInt beside an operand that is no constant. */
  predicate OneConstInt(g: Values, l: ValueId, r: ValueId)
    requires l in g && r in g
  {
    (IsConstant(g, l) != IsConstant(g, r)) && (IsConstant(g, l) ==> g[l].ConstInt?) && (IsConstant(g, r) ==> g[r].ConstInt?)
  }

  /** The tracer gives the offset up at this value, whatever lies behind it. */
  predicate GivesUp(g: Values, layout: bool, k: Kind)
    requires OperandsIn(g, k)
  {
    match k
    case Load(_) => true
    case Gep(_, _, o, _) => !layout || !Fits(o)
    case Phi(ins) => ins == []
    case Arith(o, l, r, _) =>
      || (o == Sub && IsConstant(g, l))
      || (o == Add && IsConstant(g, l) && !g[l].ConstInt?)
      || (o != OtherOp && !IsConstant(g, l) && IsConstant(g, r) && !g[r].ConstInt?)
    case _ => false
  }

  /**
   How far the value lies behind the one it normalizes to, if only casts that keep the word and GEPs with a known
   byte offset are passed. A constant expression passes nothing else.
   */
  function Slip(g: Values, v: ValueId, visited: set<ValueId>, depth: nat): Option<int>
    requires Closed(g) && v in g
    decreases Left(depth)
  {
    if depth > MAX_TRACE_DEPTH || v in visited then Some(0)
    else
      var seen := visited + {v};
      match g[Strip(g, v, {v})]
      case Leaf(_) => Some(0)
      case ConstInt(_, _) => Some(0)
      case ConstantCast(x) => Slip(g, x, seen, depth + 1)
      case Cast(x, SameWord) => Slip(g, x, seen, depth + 1)
      case Gep(b, _, o, _) =>
        var d := Slip(g, b, seen, depth + 1);
        if d.Some? && o.Some? then Some(d.value + o.value) else None
      case _ => None
  }

  /** A constant cast that stands on the leaf it normalizes to: the offsets between them cancel. */
  predicate Level(g: Values, v: ValueId)
    requires Closed(g) && v in g
  {
    && g[v].ConstantCast? && Slip(g, v, {}, 0).Some? && Same(Slip(g, v, {}, 0).value, 0)
    && var base := NormalizeVariable(g, v); (g[base].Leaf? || g[base].ConstInt?)
  }

  /**
   * The values the offset claim is made for, at most n levels deep: leaves, pointer casts,
   * value-preserving casts, constant GEPs, PHIs, selects, 64-bit sums with one constant operand, and constant
   * casts whose byte offsets cancel.
   * What lies behind a value at which the tracer gives up does not matter.
   */
  predicate Traceable(g: Values, layout: bool, v: ValueId, n: nat)
    requires Closed(g) && v in g
    decreases n
  {
    var w := Strip(g, v, {v});
    || g[w].Leaf? || g[w].ConstInt? || GivesUp(g, layout, g[w]) || Level(g, w)
    || (n > 0 &&
        match g[w]
        case Cast(x, how) => how.SameWord? && Traceable(g, layout, x, n - 1)
        case Gep(b, _, _, _) => Traceable(g, layout, b, n - 1)
        case Phi(ins) => forall j :: 0 <= j < |ins| ==> Traceable(g, layout, ins[j], n - 1)
        case Select(t, e) => Traceable(g, layout, t, n - 1) && Traceable(g, layout, e, n - 1)
        case Arith(o, l, r, width) =>
          width >= 64 && o != OtherOp && OneConstInt(g, l, r) && Traceable(g, layout, FirstNonConstant(g, l, r), n - 1)
        case _ => false)
  }

  lemma {:induction false} TraceableDeeper(g: Values, layout: bool, v: ValueId, n: nat, m: nat)
    requires Closed(g) && v in g && n <= m && Traceable(g, layout, v, n)
    ensures Traceable(g, layout, v, m)
    decreases n
  {
    var w := Strip(g, v, {v});
    if n > 0 {
      match g[w]
      case Cast(x, _) => if Traceable(g, layout, x, n - 1) { TraceableDeeper(g, layout, x, n - 1, m - 1); }
      case Gep(b, _, _, _) => if Traceable(g, layout, b, n - 1) { TraceableDeeper(g, layout, b, n - 1, m - 1); }
      case Phi(ins) =>
        forall j | 0 <= j < |ins| && Traceable(g, layout, ins[j], n - 1) ensures Traceable(g, layout, ins[j], m - 1) {
          TraceableDeeper(g, layout, ins[j], n - 1, m - 1);
        }
      case Select(t, e) =>
        if Traceable(g, layout, t, n - 1) { TraceableDeeper(g, layout, t, n - 1, m - 1); }
        if Traceable(g, layout, e, n - 1) { TraceableDeeper(g, layout, e, n - 1, m - 1); }
      case Arith(_, l, r, _) =>
        var x := FirstNonConstant(g, l, r);
        if Traceable(g, layout, x, n - 1) { TraceableDeeper(g, layout, x, n - 1, m - 1); }
      case _ =>
    }
  }

  ghost predicate Least(g: Values, layout: bool, v: ValueId, n: nat)
    requires Closed(g) && v in g
  {
    Traceable(g, layout, v, n) && (n > 0 ==> !Traceable(g, layout, v, n - 1))
  }

  lemma LeastMeans(g: Values, layout: bool, v: ValueId, n: nat)
    requires Closed(g) && v in g && Least(g, layout, v, n)
    ensures Traceable(g, layout, v, n) && (n > 0 ==> !Traceable(g, layout, v, n - 1))
  {
  }

  lemma {:induction false} LeastDepth(g: Values, layout: bool, v: ValueId, n: nat) returns (m: nat)
    requires Closed(g) && v in g && Traceable(g, layout, v, n)
    ensures m <= n && Least(g, layout, v, m)
    decreases n
  {
    if n > 0 && Traceable(g, layout, v, n - 1) {
      m := LeastDepth(g, layout, v, n - 1);
    } else {
      m := n;
    }
  }

  lemma {:induction false} StripSame(g: Values, env: ValueId -> int, v: ValueId, seen: set<ValueId>)
    requires Closed(g) && v in g && Consistent(g, env)
    ensures Same(env(v), env(Strip(g, v, seen)))
    decreases g.Keys - seen
  {
    match g[v]
    case PointerCast(x, _) =>
      assert Holds(g, env, v);
      if x !in seen {
        StripSame(g, env, x, seen + {x});
      }
    case _ =>
  }

  /** What one level of the normalizer passes over. */
  function Passed(g: Values, w: ValueId): (p: Option<(ValueId, int)>)
    requires Closed(g) && w in g
    ensures p.Some? ==> p.value.0 in g
  {
    match g[w]
    case ConstantCast(x) => Some((x, 0))
    case Cast(x, SameWord) => Some((x, 0))
    case Gep(b, _, Some(o), _) => Some((b, o))
    case _ => None
  }

  lemma PassedWord(g: Values, env: ValueId -> int, w: ValueId)
    requires Closed(g) && w in g && Consistent(g, env) && Passed(g, w).Some?
    ensures Same(env(w), env(Passed(g, w).value.0) + Passed(g, w).value.1)
  {
    hide Same, Consistent, Closed;
    WordFits(g, env, w);
  }

  lemma SlipStep(g: Values, v: ValueId, visited: set<ValueId>, depth: nat)
    requires Closed(g) && v in g && depth <= MAX_TRACE_DEPTH && v !in visited && Slip(g, v, visited, depth).Some?
    ensures var w, seen := Strip(g, v, {v}), visited + {v};
      var p := Passed(g, w);
      if p.Some? then
        && Slip(g, p.value.0, seen, depth + 1).Some?
        && Slip(g, v, visited, depth).value == Slip(g, p.value.0, seen, depth + 1).value + p.value.1
        && Normalize(g, v, visited, depth) == Normalize(g, p.value.0, seen, depth + 1)
      else Slip(g, v, visited, depth) == Some(0) && Normalize(g, v, visited, depth).0 == w
  {
    hide Closed, Strip, NormalizeIncoming;
  }

  lemma SameChain(v: int, w: int, x: int, base: int, d: int, o: int)
    requires Same(v, w) && Same(w, x + o) && Same(x, base + d)
    ensures Same(v, base + (d + o))
  {
  }

  /** The normalizer loses exactly the slip. */
  lemma {:induction false} SlipSound(g: Values, env: ValueId -> int, v: ValueId, visited: set<ValueId>, depth: nat)
    requires Closed(g) && v in g && Consistent(g, env)
    ensures var d := Slip(g, v, visited, depth);
      d.Some? ==> Same(env(v), env(Normalize(g, v, visited, depth).0) + d.value)
    decreases Left(depth)
  {
    hide Closed, Consistent, Same, Passed, Strip;
    if depth > MAX_TRACE_DEPTH || v in visited {
      SameSelf(env(v));
    } else if Slip(g, v, visited, depth).Some? {
      hide Slip, Normalize;
      SlipStep(g, v, visited, depth);
      var w, seen := Strip(g, v, {v}), visited + {v};
      StripSame(g, env, v, {v});
      var p := Passed(g, w);
      if p.Some? {
        PassedWord(g, env, w);
        SlipSound(g, env, p.value.0, seen, depth + 1);
        SameChain(env(v), env(w), env(p.value.0), env(Normalize(g, p.value.0, seen, depth + 1).0),
                  Slip(g, p.value.0, seen, depth + 1).value, p.value.1);
      }
    }
  }

  lemma SameSelf(x: int)
    ensures Same(x, x + 0)
  {
  }

  /** What the tracer may answer: a known region starts at a leaf, and the word of v is the claimed one. */
  ghost predicate Sound(g: Values, env: ValueId -> int, v: ValueId, r: Region)
  {
    r.known ==>
      && r.base in g && (g[r.base].Leaf? || g[r.base].ConstInt?)
      && Same(env(v), env(r.base) + r.start) && -TWO_63 <= r.start < TWO_63
  }

  lemma WordFits(g: Values, env: ValueId -> int, v: ValueId)
    requires Closed(g) && v in g && Consistent(g, env)
    ensures Holds(g, env, v) && OperandsIn(g, g[v])
  {
  }

  lemma NotedSound(g: Values, env: ValueId -> int, v: ValueId, r: Region, offset: ValueId)
    requires Sound(g, env, v, r)
    ensures Sound(g, env, v, Noted(r, offset))
  {
  }

  lemma UnknownSound(g: Values, env: ValueId -> int, v: ValueId, r: Region)
    ensures Sound(g, env, v, Unknown(r))
  {
  }

  lemma LeafNormal(g: Values, v: ValueId)
    requires Closed(g) && v in g && (g[v].Leaf? || g[v].ConstInt?)
    ensures NormalizeVariable(g, v) == v
  {
  }

  lemma ShiftSound(g: Values, env: ValueId -> int, x: ValueId, v: ValueId, r: Region, delta: int)
    requires Sound(g, env, x, r) && Same(env(v), env(x) + delta)
    ensures Sound(g, env, v, Shifted(r, delta))
  {
  }

  /** The values v may take at a merge are all at the start that the merged region claims. */
  lemma {:induction false} MergeSound(g: Values, layout: bool, env: ValueId -> int, ins: seq<ValueId>, k: nat,
                                      visited: set<ValueId>, depth: nat)
    requires Closed(g) && k <= |ins| && depth <= MAX_TRACE_DEPTH && forall j :: 0 <= j < |ins| ==> ins[j] in g
    requires forall j :: 0 <= j < |ins| ==> Sound(g, env, ins[j], Trace(g, layout, ins[j], visited, depth + 1))
    ensures
      var m := MergeIncoming(g, layout, ins, k, visited, depth);
      m.Some? ==> forall j :: 0 <= j < k ==> Sound(g, env, ins[j], m.value)
    decreases k
  {
    if k > 0 {
      MergeSound(g, layout, env, ins, k - 1, visited, depth);
      var r := Trace(g, layout, ins[k - 1], visited, depth + 1);
      if r.known {
        LeafNormal(g, r.base);
      }
    }
  }

  ghost predicate OperandSound(g: Values, layout: bool, env: ValueId -> int, x: ValueId, seen: set<ValueId>, depth: nat)
    requires Closed(g) && x in g
  {
    Sound(g, env, x, Trace(g, layout, x, seen, depth + 1))
  }

  ghost predicate OperandsSound(g: Values, layout: bool, env: ValueId -> int, k: Kind, seen: set<ValueId>, depth: nat)
    requires Closed(g) && OperandsIn(g, k)
  {
    match k
    case Cast(x, how) => how.SameWord? && OperandSound(g, layout, env, x, seen, depth)
    case Gep(b, _, _, _) => OperandSound(g, layout, env, b, seen, depth)
    case Phi(ins) => forall j :: 0 <= j < |ins| ==> OperandSound(g, layout, env, ins[j], seen, depth)
    case Select(t, e) => OperandSound(g, layout, env, t, seen, depth) && OperandSound(g, layout, env, e, seen, depth)
    case Arith(o, l, r, width) =>
      width >= 64 && o != OtherOp && OneConstInt(g, l, r) && OperandSound(g, layout, env, FirstNonConstant(g, l, r), seen, depth)
    case _ => false
  }

  lemma OperandIsSound(g: Values, layout: bool, env: ValueId -> int, x: ValueId, seen: set<ValueId>, depth: nat)
    requires Closed(g) && x in g && Sound(g, env, x, Trace(g, layout, x, seen, depth + 1))
    ensures OperandSound(g, layout, env, x, seen, depth)
  {
  }

  lemma GepSound(g: Values, layout: bool, env: ValueId -> int, v: ValueId, seen: set<ValueId>, depth: nat)
    requires Closed(g) && v in g && Consistent(g, env) && g[v].Gep? && OperandSound(g, layout, env, g[v].base, seen, depth)
    ensures Sound(g, env, v, GepRegion(Trace(g, layout, g[v].base, seen, depth + 1), g[v].indices, g[v].byteOffset, layout))
  {
    hide Trace, Consistent;
    WordFits(g, env, v);
    var r := Trace(g, layout, g[v].base, seen, depth + 1);
    if layout && r.known && Fits(g[v].byteOffset) {
      ShiftSound(g, env, g[v].base, v, r.(offsets := r.offsets + g[v].indices), g[v].byteOffset.value);
    }
  }

  lemma SameTrans(a: int, b: int, c: int)
    requires Same(a, b) && Same(b, c)
    ensures Same(a, c)
  {
  }

  lemma SameSum(v: int, x: int, y: int, c: int)
    requires Same(y, c)
    ensures Same(v, x + y) ==> Same(v, x + c)
    ensures Same(v, x - y) ==> Same(v, x - c)
  {
  }

  lemma ArithSound(g: Values, env: ValueId -> int, v: ValueId, r: Region)
    requires Closed(g) && v in g && Consistent(g, env) && g[v].Arith? && g[v].width >= 64 && g[v].opcode != OtherOp
    requires OneConstInt(g, g[v].lhs, g[v].rhs) && Sound(g, env, FirstNonConstant(g, g[v].lhs, g[v].rhs), r)
    ensures Sound(g, env, v, ArithRegion(g, r, g[v].opcode, g[v].lhs, g[v].rhs))
  {
    hide Consistent, Closed, Same, Sound, Shifted;
    var l, c := g[v].lhs, g[v].rhs;
    WordFits(g, env, v);
    if IsConstant(g, l) {
      WordFits(g, env, l);
      SameSum(env(v), env(c), env(l), g[l].value);
      NotedSound(g, env, c, r, l);
      if g[v].opcode == Add {
        assert env(l) + env(c) == env(c) + env(l);
        ShiftSound(g, env, c, v, Noted(r, l), g[l].value);
      } else {
        UnknownSound(g, env, v, Noted(r, l));
      }
    } else {
      WordFits(g, env, c);
      SameSum(env(v), env(l), env(c), g[c].value);
      NotedSound(g, env, l, r, c);
      ShiftSound(g, env, l, v, Noted(r, c), if g[v].opcode == Sub then -g[c].value else g[c].value);
    }
  }

  lemma PhiSound(g: Values, layout: bool, env: ValueId -> int, v: ValueId, seen: set<ValueId>, depth: nat)
    requires Closed(g) && v in g && Consistent(g, env) && g[v].Phi? && depth <= MAX_TRACE_DEPTH
    requires forall j :: 0 <= j < |g[v].incoming| ==> OperandSound(g, layout, env, g[v].incoming[j], seen, depth)
    ensures
      var m := MergeIncoming(g, layout, g[v].incoming, |g[v].incoming|, seen, depth);
      m.Some? ==> Sound(g, env, v, m.value)
  {
    hide Consistent, Trace, MergeIncoming;
    WordFits(g, env, v);
    var ins := g[v].incoming;
    forall j | 0 <= j < |ins| ensures Sound(g, env, ins[j], Trace(g, layout, ins[j], seen, depth + 1)) {
      assert OperandSound(g, layout, env, ins[j], seen, depth);
    }
    MergeSound(g, layout, env, ins, |ins|, seen, depth);
    NothingMerged(g, layout, ins, seen, depth);
  }

  lemma SelectSound(g: Values, layout: bool, env: ValueId -> int, v: ValueId, seen: set<ValueId>, depth: nat)
    requires Closed(g) && v in g && Consistent(g, env) && g[v].Select?
    requires OperandSound(g, layout, env, g[v].yes, seen, depth) && OperandSound(g, layout, env, g[v].no, seen, depth)
    ensures
      var a := Trace(g, layout, g[v].yes, seen, depth + 1);
      var b := Trace(g, layout, g[v].no, seen, depth + 1);
      (NormalizeVariable(g, a.base) == NormalizeVariable(g, b.base) && SameRegionStart(a, b))
      ==> Sound(g, env, v, a.(base := NormalizeVariable(g, a.base)))
  {
    hide Consistent, Trace, NormalizeVariable;
    WordFits(g, env, v);
    var a := Trace(g, layout, g[v].yes, seen, depth + 1);
    var b := Trace(g, layout, g[v].no, seen, depth + 1);
    if a.known && b.known {
      LeafNormal(g, a.base);
      LeafNormal(g, b.base);
    }
  }

  lemma CastSound(g: Values, env: ValueId -> int, v: ValueId, r: Region)
    requires Closed(g) && v in g && Consistent(g, env) && g[v].Cast? && g[v].how.SameWord? && Sound(g, env, g[v].source, r)
    ensures Sound(g, env, v, r)
  {
    hide Consistent, Closed, Same;
    WordFits(g, env, v);
    if r.known {
      SameTrans(env(v), env(g[v].source), env(r.base) + r.start);
    }
  }

  /** One level of the tracer keeps soundness, at the value w behind the pointer casts. */
  lemma ArmSound(g: Values, layout: bool, env: ValueId -> int, v: ValueId, visited: set<ValueId>, depth: nat)
    requires Closed(g) && v in g && Consistent(g, env) && depth <= MAX_TRACE_DEPTH && v !in visited
    requires OperandsSound(g, layout, env, g[Strip(g, v, {v})], visited + {v}, depth)
    ensures Sound(g, env, Strip(g, v, {v}), Trace(g, layout, v, visited, depth))
  {
    hide Consistent, Closed, Sound, Strip, Normalize, MergeIncoming, GepRegion, ArithRegion;
    var w := Strip(g, v, {v});
    var seen := visited + {v};
    WordFits(g, env, w);
    UnknownSound(g, env, w, Region(w, [], false, 0));
    match g[w]
    case Gep(_, _, _, _) => GepSound(g, layout, env, w, seen, depth);
    case Phi(_) => PhiSound(g, layout, env, w, seen, depth);
    case Select(_, _) => SelectSound(g, layout, env, w, seen, depth);
    case Arith(_, l, r, _) => ArithSound(g, env, w, Trace(g, layout, FirstNonConstant(g, l, r), seen, depth + 1));
    case Cast(x, _) => CastSound(g, env, w, Trace(g, layout, x, seen, depth + 1));
    case _ =>
  }

  lemma LevelSound(g: Values, env: ValueId -> int, w: ValueId)
    requires Closed(g) && w in g && Consistent(g, env) && Level(g, w)
    ensures Sound(g, env, w, BaseRegion(NormalizeVariable(g, w)))
  {
    hide Closed, Consistent, Slip, Normalize;
    SlipSound(g, env, w, {}, 0);
  }

  lemma LeafSound(g: Values, env: ValueId -> int, w: ValueId)
    requires Closed(g) && w in g && (g[w].Leaf? || g[w].ConstInt?)
    ensures Sound(g, env, w, BaseRegion(NormalizeVariable(g, w)))
  {
    hide Closed, NormalizeVariable;
    LeafNormal(g, w);
  }

  /** The last arm, and the arms that give the offset up. */
  lemma EndTrace(g: Values, layout: bool, v: ValueId, visited: set<ValueId>, depth: nat)
    requires Closed(g) && v in g && depth <= MAX_TRACE_DEPTH && v !in visited
    ensures var w := Strip(g, v, {v});
      && (g[w].Leaf? || g[w].ConstInt? || g[w].ConstantCast? ==>
            Trace(g, layout, v, visited, depth) == BaseRegion(NormalizeVariable(g, w)))
      && (GivesUp(g, layout, g[w]) ==> !Trace(g, layout, v, visited, depth).known)
  {
    hide Strip, Normalize, NormalizeVariable;
  }

  lemma EndSound(g: Values, layout: bool, env: ValueId -> int, v: ValueId, visited: set<ValueId>, depth: nat)
    requires Closed(g) && v in g && Consistent(g, env) && depth <= MAX_TRACE_DEPTH && v !in visited
    requires Ends(g, layout, v)
    ensures Sound(g, env, Strip(g, v, {v}), Trace(g, layout, v, visited, depth))
  {
    hide Closed, Consistent, Trace, Strip, NormalizeVariable, Slip, GivesUp, Same;
    var w := Strip(g, v, {v});
    EndTrace(g, layout, v, visited, depth);
    if g[w].Leaf? || g[w].ConstInt? {
      LeafSound(g, env, w);
    } else if Level(g, w) {
      LevelSound(g, env, w);
    }
  }

  /** Soundness of a stripped value is soundness of the value. */
  lemma SoundBehindCasts(g: Values, env: ValueId -> int, v: ValueId, r: Region)
    requires Closed(g) && v in g && Consistent(g, env) && Sound(g, env, Strip(g, v, {v}), r)
    ensures Sound(g, env, v, r)
  {
    hide Closed, Consistent, Same, Strip;
    var w := Strip(g, v, {v});
    StripSame(g, env, v, {v});
    if r.known {
      SameTrans(env(v), env(w), env(r.base) + r.start);
    }
  }

  ghost predicate Ends(g: Values, layout: bool, v: ValueId)
    requires Closed(g) && v in g
  {
    var k := g[Strip(g, v, {v})];
    k.Leaf? || k.ConstInt? || GivesUp(g, layout, k) || Level(g, Strip(g, v, {v}))
  }

  /** Behind a traceable value that goes on, every operand the tracer follows is traceable one level less deep. */
  lemma OperandsTraced(g: Values, layout: bool, env: ValueId -> int, v: ValueId, n: nat, seen: set<ValueId>, depth: nat)
    requires Closed(g) && v in g && Traceable(g, layout, v, n) && !Ends(g, layout, v)
    requires n > 0 ==> forall x :: x in g && Traceable(g, layout, x, n - 1) ==> OperandSound(g, layout, env, x, seen, depth)
    ensures n > 0 && OperandsSound(g, layout, env, g[Strip(g, v, {v})], seen, depth)
  {
    hide Strip, GivesUp, OperandSound, OneConstInt;
  }

  /**
   * The induction behind soundness. No value on the way to v can be v itself, because each of them
   * is deeper than v; so the visited set never stops the tracer early.
   */
  lemma {:induction false} TraceSound(g: Values, layout: bool, env: ValueId -> int, v: ValueId,
                                      visited: set<ValueId>, depth: nat, n: nat)
    requires Closed(g) && v in g && Consistent(g, env)
    requires Traceable(g, layout, v, n) && depth + n <= MAX_TRACE_DEPTH
    requires forall u :: u in visited ==> u in g && !Traceable(g, layout, u, n)
    ensures Sound(g, env, v, Trace(g, layout, v, visited, depth))
    decreases n
  {
    hide *;
    if Ends(g, layout, v) {
      EndSound(g, layout, env, v, visited, depth);
    } else {
      var m := LeastDepth(g, layout, v, n);
      LeastMeans(g, layout, v, m);
      var seen := visited + {v};
      if m > 0 {
        forall u | u in seen ensures !Traceable(g, layout, u, m - 1) {
          if Traceable(g, layout, u, m - 1) {
            TraceableDeeper(g, layout, u, m - 1, n);
          }
        }
        forall x | x in g && Traceable(g, layout, x, m - 1) ensures OperandSound(g, layout, env, x, seen, depth) {
          TraceSound(g, layout, env, x, seen, depth + 1, m - 1);
          OperandIsSound(g, layout, env, x, seen, depth);
        }
      }
      OperandsTraced(g, layout, env, v, m, seen, depth);
      ArmSound(g, layout, env, v, visited, depth);
    }
    SoundBehindCasts(g, env, v, Trace(g, layout, v, visited, depth));
  }

  /** The static byte offset is right in every environment, for every traceable value at most 32 levels deep. */
  lemma StaticOffsetIsSound(g: Values, layout: bool, env: ValueId -> int, v: ValueId)
    requires Closed(g) && v in g && Consistent(g, env) && Traceable(g, layout, v, MAX_TRACE_DEPTH)
    ensures Sound(g, env, v, Trace(g, layout, v, {}, 0))
  {
    TraceSound(g, layout, env, v, {}, 0, MAX_TRACE_DEPTH);
  }

  /** traceASanCheckedAddress. */
  method TraceAddress(g: Values, layout: bool, v: ValueId) returns (r: Region)
    requires Closed(g) && v in g
    ensures r == Trace(g, layout, v, {}, 0)
    ensures Traceable(g, layout, v, MAX_TRACE_DEPTH) ==> forall env :: Consistent(g, env) ==> Sound(g, env, v, r)
  {
    r := TraceImpl(g, layout, v, {}, 0);
    if Traceable(g, layout, v, MAX_TRACE_DEPTH) {
      forall env | Consistent(g, env) ensures Sound(g, env, v, r) {
        StaticOffsetIsSound(g, layout, env, v);
      }
    }
  }

  /** Two addresses traced to one base are equal exactly when their static offsets are. */
  lemma SameStartSameAddress(g: Values, layout: bool, env: ValueId -> int, u: ValueId, v: ValueId)
    requires Closed(g) && u in g && v in g && Consistent(g, env)
    requires Traceable(g, layout, u, MAX_TRACE_DEPTH) && Traceable(g, layout, v, MAX_TRACE_DEPTH)
    ensures
      var a := Trace(g, layout, u, {}, 0);
      var b := Trace(g, layout, v, {}, 0);
      a.known && b.known && a.base == b.base ==> (Same(env(u), env(v)) <==> a.start == b.start)
  {
    hide Trace, Traceable, Consistent;
    StaticOffsetIsSound(g, layout, env, u);
    StaticOffsetIsSound(g, layout, env, v);
  }

  /** Pointer and integer casts, constant GEPs and sums with one constant integer, without merges. */
  predicate Direct(g: Values, layout: bool, v: ValueId, n: nat)
    requires Closed(g) && v in g
    decreases n
  {
    var w := Strip(g, v, {v});
    || g[w].Leaf? || g[w].ConstInt?
    || (n > 0 &&
        match g[w]
        case Cast(x, _) => Direct(g, layout, x, n - 1)
        case Gep(b, _, o, _) => layout && Fits(o) && Direct(g, layout, b, n - 1)
        case Arith(o, l, r, _) =>
          OneConstInt(g, l, r) && (o == Add || (o == Sub && IsConstant(g, r))) &&
          Direct(g, layout, FirstNonConstant(g, l, r), n - 1)
        case _ => false)
  }

  /** The tracer does answer: on such values it always knows the offset. */
  lemma {:induction false} DirectIsKnown(g: Values, layout: bool, v: ValueId, visited: set<ValueId>, depth: nat, n: nat)
    requires Closed(g) && v in g && Direct(g, layout, v, n)
    ensures Trace(g, layout, v, visited, depth).known
    decreases n
  {
    if n > 0 && depth <= MAX_TRACE_DEPTH && v !in visited {
      match g[Strip(g, v, {v})]
      case Cast(x, _) => DirectIsKnown(g, layout, x, visited + {v}, depth + 1, n - 1);
      case Gep(b, _, _, _) => DirectIsKnown(g, layout, b, visited + {v}, depth + 1, n - 1);
      case Arith(_, l, r, _) => DirectIsKnown(g, layout, FirstNonConstant(g, l, r), visited + {v}, depth + 1, n - 1);
      case _ =>
    }
  }

  // ----- where the claim fails -----

  /** The one operand that the tracer follows without touching the offset. */
  function FollowedAsIs(g: Values, v: ValueId): (x: Option<ValueId>)
    requires Closed(g) && v in g
    ensures x.Some? ==> x.value in g
  {
    match g[v]
    case Cast(x, _) => Some(x)
    case Arith(o, l, r, _) =>
      if o == OtherOp || (!IsConstant(g, l) && !IsConstant(g, r)) then Some(FirstNonConstant(g, l, r)) else None
    case _ => None
  }

  /** The answer for the operand x of v is known and right. */
  ghost predicate Right(g: Values, layout: bool, env: ValueId -> int, v: ValueId, x: ValueId)
    requires Closed(g) && x in g
  {
    Trace(g, layout, x, {v}, 1).known && Claim(env, x, Trace(g, layout, x, {v}, 1))
  }

  /** It is right whenever it is known and x is traceable. */
  lemma TraceableIsRight(g: Values, layout: bool, env: ValueId -> int, v: ValueId, x: ValueId)
    requires Closed(g) && v in g && x in g && Consistent(g, env) && Trace(g, layout, x, {v}, 1).known
    requires Traceable(g, layout, x, MAX_TRACE_DEPTH - 1) && !Traceable(g, layout, v, MAX_TRACE_DEPTH - 1)
    ensures Right(g, layout, env, v, x)
  {
    hide Trace, Traceable, Consistent;
    TraceSound(g, layout, env, x, {v}, 1, MAX_TRACE_DEPTH - 1);
  }

  /** The operand's flag and offset are kept, so the claim says that the value is the operand. */
  lemma FollowedClaim(g: Values, layout: bool, env: ValueId -> int, v: ValueId)
    requires Closed(g) && v in g && FollowedAsIs(g, v).Some? && Right(g, layout, env, v, FollowedAsIs(g, v).value)
    ensures Claim(env, v, Trace(g, layout, v, {}, 0)) <==> Same(env(v), env(FollowedAsIs(g, v).value))
  {
    hide Trace, FollowedAsIs, Closed, Same;
    var x := FollowedAsIs(g, v).value;
    var r := Trace(g, layout, x, {v}, 1);
    FollowedTrace(g, layout, v);
    ClaimMeans(env, x, r);
    ClaimMeans(env, v, r);
    SameEnds(env(v), env(x), env(r.base) + r.start);
  }

  /** Across a truncation the claim holds exactly when the operand fits. */
  lemma TruncationClaim(g: Values, layout: bool, env: ValueId -> int, v: ValueId)
    requires Closed(g) && v in g && Consistent(g, env) && g[v].Cast? && g[v].how.Truncate?
    requires OperandsIn(g, g[v]) && Right(g, layout, env, v, g[v].source)
    ensures Claim(env, v, Trace(g, layout, v, {}, 0)) <==> Word(env(g[v].source)) < Pow2(g[v].how.bits)
  {
    hide Trace, Consistent, Closed, Same, Word, Pow2, Right;
    var x := g[v].source;
    WordFits(g, env, v);
    FollowedClaim(g, layout, env, v);
    CutKeeps(env(v), env(x), g[v].how.bits);
  }

  /** Across a sign extension it holds exactly when the sign bit of the operand is clear. */
  lemma SignExtensionClaim(g: Values, layout: bool, env: ValueId -> int, v: ValueId)
    requires Closed(g) && v in g && Consistent(g, env) && g[v].Cast? && g[v].how.SignExtend? && g[v].how.bits < 64
    requires OperandsIn(g, g[v]) && Right(g, layout, env, v, g[v].source)
    ensures Claim(env, v, Trace(g, layout, v, {}, 0)) <==> 2 * Word(env(g[v].source)) < Pow2(g[v].how.bits)
  {
    hide Trace, Consistent, Closed, Pow2, Right, Same, Word;
    WordFits(g, env, v);
    FollowedClaim(g, layout, env, v);
    SignKeeps(env(v), env(g[v].source), g[v].how.bits);
  }

  /** For a 64-bit sum or difference of two unknowns it holds exactly when the right side is zero. */
  lemma UnknownSumClaim(g: Values, layout: bool, env: ValueId -> int, v: ValueId)
    requires Closed(g) && v in g && Consistent(g, env) && g[v].Arith? && g[v].opcode != OtherOp && g[v].width >= 64
    requires OperandsIn(g, g[v]) && !IsConstant(g, g[v].lhs) && !IsConstant(g, g[v].rhs)
    requires Right(g, layout, env, v, g[v].lhs)
    ensures Claim(env, v, Trace(g, layout, v, {}, 0)) <==> Same(env(g[v].rhs), 0)
  {
    hide Trace, Consistent, Closed, Same, Right;
    WordFits(g, env, v);
    FollowedClaim(g, layout, env, v);
    SumIsLeft(env(v), env(g[v].lhs), env(g[v].rhs));
  }

  /** The constant that the tracer adds at a sum with one constant integer. */
  function Addend(g: Values, v: ValueId): int
    requires Closed(g) && v in g && g[v].Arith? && OperandsIn(g, g[v]) && OneConstInt(g, g[v].lhs, g[v].rhs)
  {
    if IsConstant(g, g[v].lhs) then g[g[v].lhs].value
    else if g[v].opcode == Sub then -g[g[v].rhs].value
    else g[g[v].rhs].value
  }

  /** For a narrow sum with one constant it holds exactly when the sum does not overflow its width. */
  lemma NarrowSumClaim(g: Values, layout: bool, env: ValueId -> int, v: ValueId)
    requires Closed(g) && v in g && Consistent(g, env) && g[v].Arith? && OperandsIn(g, g[v]) && g[v].width < 64
    requires OneConstInt(g, g[v].lhs, g[v].rhs)
    requires g[v].opcode == Add || (g[v].opcode == Sub && IsConstant(g, g[v].rhs))
    requires Right(g, layout, env, v, FirstNonConstant(g, g[v].lhs, g[v].rhs))
    ensures Claim(env, v, Trace(g, layout, v, {}, 0)) <==>
      Word(env(FirstNonConstant(g, g[v].lhs, g[v].rhs)) + Addend(g, v)) < Pow2(g[v].width)
  {
    hide Trace, Consistent, Closed, Same, Word, Pow2;
    var x := FirstNonConstant(g, g[v].lhs, g[v].rhs);
    var r := Trace(g, layout, x, {v}, 1);
    var d := Addend(g, v);
    NarrowSumTrace(g, layout, v);
    WordFits(g, env, v);
    WordFits(g, env, if IsConstant(g, g[v].lhs) then g[v].lhs else g[v].rhs);
    ShiftMeans(env(v), env(x), env(r.base), r.start, d);
    if IsConstant(g, g[v].lhs) {
      CutCongruent(env(x), env(g[v].lhs), g[g[v].lhs].value, g[v].width);
      assert env(g[v].lhs) + env(x) == env(x) + env(g[v].lhs);
    } else {
      CutCongruent(env(x), env(g[v].rhs), g[g[v].rhs].value, g[v].width);
    }
    CutKeeps(env(v), env(x) + d, g[v].width);
  }

  lemma NarrowSumTrace(g: Values, layout: bool, v: ValueId)
    requires Closed(g) && v in g && g[v].Arith? && OperandsIn(g, g[v]) && OneConstInt(g, g[v].lhs, g[v].rhs)
    requires g[v].opcode == Add || (g[v].opcode == Sub && IsConstant(g, g[v].rhs))
    ensures var r, now := Trace(g, layout, FirstNonConstant(g, g[v].lhs, g[v].rhs), {v}, 1), Trace(g, layout, v, {}, 0);
      r.known ==> now.known && now.base == r.base && now.start == Wrap(r.start + Addend(g, v))
  {
    hide Trace, ArithRegion, Wrap, Closed, Addend, IsConstant;
    ArithTrace(g, layout, v);
    ArithAdds(g, Trace(g, layout, FirstNonConstant(g, g[v].lhs, g[v].rhs), {v}, 1), v);
  }

  lemma ArithAdds(g: Values, r: Region, v: ValueId)
    requires Closed(g) && v in g && g[v].Arith? && OperandsIn(g, g[v]) && OneConstInt(g, g[v].lhs, g[v].rhs)
    requires g[v].opcode == Add || (g[v].opcode == Sub && IsConstant(g, g[v].rhs))
    ensures var now := ArithRegion(g, r, g[v].opcode, g[v].lhs, g[v].rhs);
      r.known ==> now.known && now.base == r.base && now.start == Wrap(r.start + Addend(g, v))
  {
    hide Closed, Wrap;
  }

  lemma ArithTrace(g: Values, layout: bool, v: ValueId)
    requires Closed(g) && v in g && g[v].Arith? && OperandsIn(g, g[v])
    ensures Trace(g, layout, v, {}, 0)
      == ArithRegion(g, Trace(g, layout, FirstNonConstant(g, g[v].lhs, g[v].rhs), {v}, 1), g[v].opcode, g[v].lhs, g[v].rhs)
  {
    hide ArithRegion, FirstNonConstant, GepRegion, Normalize, MergeIncoming;
    assert {} + {v} == {v};
    assert Strip(g, v, {v}) == v;
  }

  lemma ShiftMeans(v: int, x: int, base: int, start: int, d: int)
    requires Same(x, base + start)
    ensures Same(v, base + Wrap(start + d)) <==> Same(v, x + d)
  {
  }

  /** For a 64-bit sum of two constant integers it holds exactly when they are equal: the left one counts twice. */
  lemma ConstantSumClaim(g: Values, layout: bool, env: ValueId -> int, v: ValueId)
    requires Closed(g) && v in g && Consistent(g, env) && g[v].Arith? && g[v].opcode == Add && g[v].width >= 64
    requires OperandsIn(g, g[v]) && g[g[v].lhs].ConstInt? && g[g[v].rhs].ConstInt?
    ensures Claim(env, v, Trace(g, layout, v, {}, 0)) <==> Same(g[g[v].lhs].value, g[g[v].rhs].value)
  {
    var l, c := g[v].lhs, g[v].rhs;
    assert {} + {v} == {v};
    assert Strip(g, v, {v}) == v && Strip(g, l, {l}) == l;
    assert Trace(g, layout, v, {}, 0) == Region(l, [l], true, Wrap(g[l].value)) by {
      assert l != v;
      LeafNormal(g, l);
      assert [] + [l] == [l];
    }
    WordFits(g, env, v);
    WordFits(g, env, l);
    WordFits(g, env, c);
    hide *;
    TwiceLeft(env(v), env(l), env(c), g[l].value, g[c].value);
    ConstantSumMeans(env, v, l, g[l].value);
  }

  lemma ConstantSumMeans(env: ValueId -> int, v: ValueId, l: ValueId, a: int)
    ensures Claim(env, v, Region(l, [l], true, Wrap(a))) <==> Same(env(v), env(l) + Wrap(a))
  {
  }

  lemma TwiceLeft(v: int, l: int, r: int, a: int, b: int)
    requires Same(v, l + r) && Same(l, a) && Same(r, b)
    ensures Same(v, l + Wrap(a)) <==> Same(a, b)
  {
  }

  /**
   * A constant cast is answered with what it normalizes to and offset zero. For a chain of casts and GEPs with
   * known offsets, which is all that a constant expression is made of, that is right exactly when the offsets
   * add up to zero.
   */
  lemma ConstantCastClaim(g: Values, layout: bool, env: ValueId -> int, v: ValueId)
    requires Closed(g) && v in g && Consistent(g, env) && g[v].ConstantCast? && Slip(g, v, {}, 0).Some?
    ensures Trace(g, layout, v, {}, 0) == Region(NormalizeVariable(g, v), [], true, 0)
    ensures Claim(env, v, Trace(g, layout, v, {}, 0)) <==> Same(Slip(g, v, {}, 0).value, 0)
  {
    hide *;
    ConstantCastTrace(g, layout, v);
    SlipMeans(g, env, v);
    var base := NormalizeVariable(g, v);
    ClaimMeans(env, v, Region(base, [], true, 0));
    SlipDecides(env(v), env(base), Slip(g, v, {}, 0).value);
  }

  lemma ConstantCastTrace(g: Values, layout: bool, v: ValueId)
    requires Closed(g) && v in g && g[v].ConstantCast?
    ensures Trace(g, layout, v, {}, 0) == Region(NormalizeVariable(g, v), [], true, 0)
  {
    hide Closed, NormalizeVariable, Normalize;
    assert Strip(g, v, {v}) == v;
  }

  lemma SlipDecides(v: int, base: int, d: int)
    requires Same(v, base + d)
    ensures Same(v, base + 0) <==> Same(d, 0)
  {
  }

  /** Constants are built from constants, constant GEPs have known offsets, and no pointer casts form a cycle. */
  ghost predicate ConstantsWellMade(g: Values)
    requires Closed(g)
  {
    && (forall v :: v in g && IsConstant(g, v) ==>
          match g[v]
          case PointerCast(x, _) => x in g && IsConstant(g, x)
          case ConstantCast(x) => x in g && IsConstant(g, x)
          case Gep(b, _, o, _) => b in g && IsConstant(g, b) && o.Some?
          case _ => true)
    && forall v :: v in g ==> !g[Strip(g, v, {v})].PointerCast?
  }

  lemma {:induction false} StripConstant(g: Values, v: ValueId, seen: set<ValueId>)
    requires Closed(g) && v in g && ConstantsWellMade(g) && IsConstant(g, v)
    ensures IsConstant(g, Strip(g, v, seen))
    decreases g.Keys - seen
  {
    match g[v]
    case PointerCast(x, _) =>
      if x !in seen {
        StripConstant(g, x, seen + {x});
      }
    case _ =>
  }

  /** So the slip of a constant is always known, and the condition above covers every constant cast. */
  lemma {:induction false} ConstantHasSlip(g: Values, v: ValueId, visited: set<ValueId>, depth: nat)
    requires Closed(g) && v in g && ConstantsWellMade(g) && IsConstant(g, v)
    ensures Slip(g, v, visited, depth).Some?
    decreases Left(depth)
  {
    if depth <= MAX_TRACE_DEPTH && v !in visited {
      var w, seen := Strip(g, v, {v}), visited + {v};
      StripConstant(g, v, {v});
      assert !g[w].PointerCast?;
      match g[w]
      case ConstantCast(x) => ConstantHasSlip(g, x, seen, depth + 1);
      case Gep(b, _, _, _) => ConstantHasSlip(g, b, seen, depth + 1);
      case _ =>
    }
  }

  /** Two constant casts that normalize to one base get the same region; their addresses differ as their slips do. */
  lemma ConstantCastsCollide(g: Values, layout: bool, env: ValueId -> int, u: ValueId, v: ValueId)
    requires Closed(g) && u in g && v in g && Consistent(g, env) && g[u].ConstantCast? && g[v].ConstantCast?
    requires Slip(g, u, {}, 0).Some? && Slip(g, v, {}, 0).Some? && NormalizeVariable(g, u) == NormalizeVariable(g, v)
    ensures Trace(g, layout, u, {}, 0) == Trace(g, layout, v, {}, 0)
    ensures Same(env(u), env(v)) <==> Same(Slip(g, u, {}, 0).value, Slip(g, v, {}, 0).value)
  {
    hide *;
    SlipMeans(g, env, u);
    SlipMeans(g, env, v);
    ConstantCastClaim(g, layout, env, u);
    ConstantCastClaim(g, layout, env, v);
    SameGap(env(u), env(v), env(NormalizeVariable(g, u)), Slip(g, u, {}, 0).value, Slip(g, v, {}, 0).value);
  }

  lemma SlipMeans(g: Values, env: ValueId -> int, v: ValueId)
    requires Closed(g) && v in g && Consistent(g, env) && Slip(g, v, {}, 0).Some?
    ensures Same(env(v), env(NormalizeVariable(g, v)) + Slip(g, v, {}, 0).value)
  {
    hide Normalize, Slip, Consistent, Closed, Same;
    SlipSound(g, env, v, {}, 0);
  }

  lemma SameGap(a: int, b: int, base: int, d: int, e: int)
    requires Same(a, base + d) && Same(b, base + e)
    ensures Same(a, b) <==> Same(d, e)
  {
  }

  /** A global, the addresses of its fields at offsets 4 and 8, and both addresses as integers. */
  function GlobalFields(): (g: Values)
    ensures Closed(g)
  {
    map[0 := Leaf(true), 1 := Gep(0, [], Some(4), true), 2 := ConstantCast(1),
        3 := Gep(0, [], Some(8), true), 4 := ConstantCast(3)]
  }

  /** The tracer answers both with the global and offset zero, which is wrong for both, and they are not equal. */
  lemma GlobalFieldsFail(env: ValueId -> int)
    requires Consistent(GlobalFields(), env)
    ensures Trace(GlobalFields(), true, 2, {}, 0) == Trace(GlobalFields(), true, 4, {}, 0) == Region(0, [], true, 0)
    ensures !Claim(env, 2, Region(0, [], true, 0)) && !Claim(env, 4, Region(0, [], true, 0)) && !Same(env(2), env(4))
  {
    var g := GlobalFields();
    FieldSlip(2, 1, 4);
    FieldSlip(4, 3, 8);
    hide *;
    ConstantCastClaim(g, true, env, 2);
    ConstantCastClaim(g, true, env, 4);
    ConstantCastsCollide(g, true, env, 2, 4);
    Eight();
  }

  lemma Eight()
    ensures !Same(4, 0) && !Same(8, 0) && !Same(4, 8)
  {
  }

  lemma FieldSlip(c: ValueId, p: ValueId, d: int)
    requires (c == 2 && p == 1 && d == 4) || (c == 4 && p == 3 && d == 8)
    ensures c in GlobalFields() && GlobalFields()[c].ConstantCast?
    ensures Slip(GlobalFields(), c, {}, 0) == Some(d) && NormalizeVariable(GlobalFields(), c) == 0
  {
    var g := GlobalFields();
    assert Strip(g, c, {c}) == c && Strip(g, p, {p}) == p && Strip(g, 0, {0}) == 0;
    assert Slip(g, 0, {} + {c} + {p}, 2) == Some(0) && Normalize(g, 0, {} + {c} + {p}, 2).0 == 0;
    assert Slip(g, p, {} + {c}, 1) == Some(d) && Normalize(g, p, {} + {c}, 1).0 == 0;
  }

  // ----- environments that break the claim -----

  predicate UsesValue(k: Kind, x: ValueId)
  {
    match k
    case PointerCast(y, _) => y == x
    case Cast(y, _) => y == x
    case ConstantCast(y) => y == x
    case Gep(b, _, _, _) => b == x
    case Load(p) => p == x
    case Store(p) => p == x
    case Phi(ins) => x in ins
    case Select(t, e) => t == x || e == x
    case Arith(_, l, r, _) => l == x || r == x
    case _ => false
  }

  ghost predicate UsedOnlyBy(g: Values, x: ValueId, users: set<ValueId>)
  {
    forall u :: u in g && UsesValue(g[u], x) ==> u in users
  }

  function Changed(env: ValueId -> int, v: ValueId, word: int): ValueId -> int
  {
    (u: ValueId) => if u == v then word else env(u)
  }

  lemma HoldsAfter(g: Values, env: ValueId -> int, env': ValueId -> int, u: ValueId)
    requires u in g && Holds(g, env, u) && env'(u) == env(u)
    requires forall x :: UsesValue(g[u], x) ==> env'(x) == env(x)
    ensures Holds(g, env', u)
  {
    hide Same, Word, Pow2, Cut;
  }

  /** An operator other than add and sub on which nothing else depends: some environment breaks the claim. */
  lemma OtherOperatorBreaks(g: Values, layout: bool, env: ValueId -> int, v: ValueId) returns (env': ValueId -> int)
    requires Closed(g) && v in g && Consistent(g, env) && g[v].Arith? && OperandsIn(g, g[v]) && g[v].opcode == OtherOp
    requires var x := FirstNonConstant(g, g[v].lhs, g[v].rhs);
      Right(g, layout, env, v, x) && Trace(g, layout, x, {v}, 1).base != v
    requires UsedOnlyBy(g, v, {})
    ensures Consistent(g, env') && !Claim(env', v, Trace(g, layout, v, {}, 0))
  {
    hide Trace, Closed, IsConstant;
    var x := FirstNonConstant(g, g[v].lhs, g[v].rhs);
    FollowedTrace(g, layout, v);
    env' := Changed(env, v, env(x) + 1);
    assert UsesValue(g[v], x);
    forall u | u in g ensures Holds(g, env', u) {
      if u != v {
        HoldsAfter(g, env, env', u);
      }
    }
  }

  /** So does one for a 64-bit sum whose right side is a leaf that nothing else uses. */
  lemma UnknownSumBreaks(g: Values, layout: bool, env: ValueId -> int, v: ValueId) returns (env': ValueId -> int)
    requires Closed(g) && v in g && Consistent(g, env) && g[v].Arith? && OperandsIn(g, g[v])
    requires g[v].opcode != OtherOp && g[v].width >= 64 && !IsConstant(g, g[v].lhs) && g[g[v].rhs] == Leaf(false)
    requires Right(g, layout, env, v, g[v].lhs) && Trace(g, layout, g[v].lhs, {v}, 1).base !in {v, g[v].rhs}
    requires UsedOnlyBy(g, v, {}) && UsedOnlyBy(g, g[v].rhs, {v}) && g[v].lhs != g[v].rhs
    ensures Consistent(g, env') && !Claim(env', v, Trace(g, layout, v, {}, 0))
  {
    hide Trace, Closed;
    var x, y := g[v].lhs, g[v].rhs;
    FollowedTrace(g, layout, v);
    env' := Changed(Changed(env, y, 1), v, if g[v].opcode == Add then env(x) + 1 else env(x) - 1);
    assert UsesValue(g[v], x) && UsesValue(g[v], y);
    forall u | u in g ensures Holds(g, env', u) {
      if u != v && u != y {
        HoldsAfter(g, env, env', u);
      }
    }
  }

  // ----- arithmetic on words -----

  lemma CutKeeps(v: int, x: int, bits: nat)
    requires Same(v, Word(x) % Pow2(bits))
    ensures Same(v, x) <==> Word(x) < Pow2(bits)
  {
    var p := Pow2(bits);
    hide Pow2;
    var w := Word(x);
    if w < p {
      ModUnique(w, p, 0, w);
    }
    CutIsSmall(w, p);
    assert Same(w, x);
    if Same(v, x) {
      SmallWords(w % p, w, v, x);
    }
  }

  lemma SignKeeps(v: int, x: int, bits: nat)
    requires bits < 64 && Word(x) < Pow2(bits)
    requires Same(v, if 2 * Word(x) < Pow2(bits) then Word(x) else Word(x) - Pow2(bits))
    ensures Same(v, x) <==> 2 * Word(x) < Pow2(bits)
  {
    hide Pow2, Same, Word;
    Narrow(bits);
    var w, p := Word(x), Pow2(bits);
    WordSame(x);
    if 2 * w < p {
      SameTrans(v, w, x);
    } else if Same(v, x) {
      NotAPeriod(v, x, w, p);
    }
  }

  lemma WordSame(x: int)
    ensures Same(Word(x), x)
  {
  }

  lemma NotAPeriod(v: int, x: int, w: int, p: int)
    requires 0 < p < TWO_64 && Same(v, w - p) && Same(w, x)
    ensures !Same(v, x)
  {
  }

  lemma CutIsSmall(w: nat, p: nat)
    requires p > 0
    ensures w % p < p && w % p <= w
  {
    assert w == (w / p) * p + w % p;
    assert w / p >= 0;
    assert (w / p) * p >= 0;
  }

  lemma SmallWords(a: nat, b: nat, v: int, x: int)
    requires a < TWO_64 && b < TWO_64 && Same(v, a) && Same(b, x) && Same(v, x)
    ensures a == b
  {
  }

  lemma ModUnique(x: int, p: int, q: int, r: int)
    requires 0 <= r < p && x == q * p + r
    ensures x % p == r
  {
    var q1, r1 := x / p, x % p;
    assert x == q1 * p + r1;
    assert (q - q1) * p == r1 - r;
    ScaleBoth(q - q1, p);
  }

  lemma Scale(k: int, p: int)
    requires k >= 1 && p > 0
    ensures k * p >= p
  {
    assert k * p == p + (k - 1) * p;
  }

  lemma ScaleBoth(k: int, p: int)
    requires p > 0
    ensures k == 0 || k * p >= p || k * p <= -p
  {
    if k > 0 {
      Scale(k, p);
    } else if k < 0 {
      Scale(-k, p);
      assert (-k) * p == -(k * p);
    }
  }

  lemma ModAdd(x: int, k: int, p: int)
    requires p > 0
    ensures (x + k * p) % p == x % p
  {
    var q, r := x / p, x % p;
    assert x == q * p + r;
    assert x + k * p == (q + k) * p + r;
    ModUnique(x + k * p, p, q + k, r);
  }

  lemma {:induction false} Pow2Splits(a: nat, b: nat)
    ensures Pow2(a + b) == Pow2(a) * Pow2(b)
    decreases a
  {
    if a > 0 {
      Pow2Splits(a - 1, b);
      assert 2 * (Pow2(a - 1) * Pow2(b)) == (2 * Pow2(a - 1)) * Pow2(b);
    }
  }

  lemma WholeWord()
    ensures Pow2(64) == TWO_64
  {
    assert Pow2(8) == 256;
    Pow2Splits(8, 8);
    Pow2Splits(16, 16);
    Pow2Splits(32, 32);
  }

  lemma Narrow(bits: nat)
    requires bits < 64
    ensures Pow2(bits) < TWO_64 && Pow2(64 - bits) * Pow2(bits) == TWO_64
  {
    Pow2Splits(64 - bits, bits);
    WholeWord();
    assert Pow2(64 - bits) >= 2;
    Scale(Pow2(64 - bits) - 1, Pow2(bits));
    assert Pow2(64 - bits) * Pow2(bits) == Pow2(bits) + (Pow2(64 - bits) - 1) * Pow2(bits);
  }

  lemma WordMod(x: int, bits: nat)
    requires bits < 64
    ensures Word(x) % Pow2(bits) == x % Pow2(bits)
  {
    Narrow(bits);
    var p, k := Pow2(bits), Pow2(64 - bits);
    hide Pow2;
    var q := x / TWO_64;
    assert x == q * TWO_64 + Word(x);
    assert q * TWO_64 == (q * k) * p;
    ModAdd(Word(x), q * k, p);
  }

  /** Replacing a cut constant by the constant itself does not change the cut sum. */
  lemma CutCongruent(x: int, e: int, c: int, bits: nat)
    requires bits < 64 && Same(e, Cut(c, bits))
    ensures Word(x + e) % Pow2(bits) == Word(x + c) % Pow2(bits)
    ensures Word(x - e) % Pow2(bits) == Word(x - c) % Pow2(bits)
  {
    var p := Pow2(bits);
    var k := CutDiffers(e, c, bits);
    WordMod(x + e, bits);
    WordMod(x - e, bits);
    WordMod(x + c, bits);
    WordMod(x - c, bits);
    hide Pow2, Word;
    ModAdd(x + c, k, p);
    ModAdd(x - c, -k, p);
    assert (-k) * p == -(k * p);
  }

  lemma CutDiffers(e: int, c: int, bits: nat) returns (k: int)
    requires bits < 64 && Same(e, Cut(c, bits))
    ensures e == c + k * Pow2(bits)
  {
    hide Pow2, Word;
    var p, n := Pow2(bits), Pow2(64 - bits);
    Narrow(bits);
    WordMod(c, bits);
    k := Gap(e, c, p, n);
  }

  lemma Gap(e: int, c: int, p: int, n: int) returns (k: int)
    requires p > 0 && n * p == TWO_64 && (e - c % p) % TWO_64 == 0
    ensures e == c + k * p
  {
    var q, d := (e - c % p) / TWO_64, c / p;
    assert c == d * p + c % p;
    assert e - c % p == q * TWO_64;
    assert q * TWO_64 == q * (n * p);
    assert q * (n * p) == (q * n) * p;
    k := q * n - d;
    assert k * p == (q * n) * p - d * p;
  }

  lemma ClaimMeans(env: ValueId -> int, v: ValueId, r: Region)
    requires r.known
    ensures Claim(env, v, r) <==> Same(env(v), env(r.base) + r.start)
  {
  }

  lemma FollowedTrace(g: Values, layout: bool, v: ValueId)
    requires Closed(g) && v in g && FollowedAsIs(g, v).Some?
    ensures OperandsIn(g, g[v]) && FollowedAsIs(g, v).value in g
    ensures Trace(g, layout, v, {}, 0) == Trace(g, layout, FollowedAsIs(g, v).value, {v}, 1)
    ensures g[v].Arith? && g[v].opcode != OtherOp ==> FollowedAsIs(g, v).value == g[v].lhs
  {
    assert {} + {v} == {v};
    assert Strip(g, v, {v}) == v;
  }

  lemma SameEnds(a: int, b: int, c: int)
    requires Same(b, c)
    ensures Same(a, c) <==> Same(a, b)
  {
  }

  lemma SumIsLeft(v: int, l: int, r: int)
    requires Same(v, l + r) || Same(v, l - r)
    ensures Same(v, l) <==> Same(r, 0)
  {
  }

  // ----- the depth limit -----

  function Link(k: nat, i: nat): Kind
  {
    if i == 0 then Leaf(false) else if i <= k then Gep(i - 1, [], Some(1), false) else Kind.Phi([k])
  }

  /** A leaf, k GEPs of one byte each on top of it, and a PHI with the last of them as its one input. */
  function Chain(k: nat): (g: Values)
    ensures Closed(g) && forall i: nat :: i in g <==> i <= k + 1
    ensures forall i :: i in g ==> g[i] == Link(k, i)
  {
    var nodes := Below(k + 2);
    var g := map i | i in nodes :: Link(k, i);
    assert g.Keys == nodes;
    g
  }

  function Below(n: nat): (s: set<nat>)
    ensures forall i: nat :: i in s <==> i < n
  {
    if n == 0 then {} else Below(n - 1) + {n - 1}
  }

  /** Where the tracer or the normalizer stops that starts at node j of the chain at depth d. */
  function Stop(j: nat, d: nat): nat
  {
    if j + d <= MAX_TRACE_DEPTH + 1 then 0 else j + d - MAX_TRACE_DEPTH - 1
  }

  lemma ChainLevel(k: nat, j: nat, visited: set<ValueId>, d: nat)
    requires j <= k && j !in visited
    ensures Trace(Chain(k), true, j, visited, d)
      == if d > MAX_TRACE_DEPTH || j == 0 then BaseRegion(j)
         else Shifted(Trace(Chain(k), true, j - 1, visited + {j}, d + 1), 1)
  {
    hide Chain, Closed, OperandsIn, MergeIncoming, NormalizeIncoming;
    assert Strip(Chain(k), j, {j}) == j;
    var r := Trace(Chain(k), true, if j == 0 then 0 else j - 1, visited + {j}, d + 1);
    assert r.(offsets := r.offsets + []) == r;
  }

  lemma {:induction false} ChainTrace(k: nat, j: nat, visited: set<ValueId>, d: nat)
    requires j <= k && d <= MAX_TRACE_DEPTH + 1 && forall u :: u in visited ==> u > j
    ensures Trace(Chain(k), true, j, visited, d) == Region(Stop(j, d), [], true, j - Stop(j, d))
    decreases j
  {
    hide Chain, Closed, Trace;
    ChainLevel(k, j, visited, d);
    if d <= MAX_TRACE_DEPTH && j > 0 {
      ChainTrace(k, j - 1, visited + {j}, d + 1);
    }
  }

  lemma {:induction false} ChainNormal(k: nat, j: nat, visited: set<ValueId>, d: nat)
    requires j <= k && d <= MAX_TRACE_DEPTH + 1 && forall u :: u in visited ==> u > j
    ensures Normalize(Chain(k), j, visited, d).0 == Stop(j, d)
    decreases j
  {
    hide Chain, Closed, OperandsIn;
    assert Strip(Chain(k), j, {j}) == j;
    if d <= MAX_TRACE_DEPTH && j > 0 {
      ChainNormal(k, j - 1, visited + {j}, d + 1);
    }
  }

  lemma ChainWord(k: nat, env: ValueId -> int, j: nat)
    requires Consistent(Chain(k), env) && 0 < j <= k + 1
    ensures Same(env(j), if j <= k then env(j - 1) + 1 else env(k))
  {
    hide Chain, Closed, Same;
    assert Holds(Chain(k), env, j);
  }

  lemma {:induction false} ChainWords(k: nat, env: ValueId -> int, i: nat, j: nat)
    requires Consistent(Chain(k), env) && i <= j <= k
    ensures Same(env(j), env(i) + j - i)
    decreases j
  {
    hide Consistent, Chain, Closed;
    if i < j {
      ChainWord(k, env, j);
      ChainWords(k, env, i, j - 1);
    }
  }

  /** A PHI with one input. */
  lemma OnePhi(g: Values, layout: bool, v: ValueId, x: ValueId)
    requires Closed(g) && v in g && x in g && g[v] == Kind.Phi([x])
    ensures var r := Trace(g, layout, x, {v}, 1);
      Trace(g, layout, v, {}, 0) == r.(base := NormalizeVariable(g, r.base))
  {
    assert {} + {v} == {v};
    assert Strip(g, v, {v}) == v;
    MergeUnfold(g, layout, [x], 0, {v}, 0);
    hide Normalize, Closed;
  }

  lemma ChainAnswer(k: nat)
    ensures Trace(Chain(k), true, k + 1, {}, 0) == Region(Stop(Stop(k, 1), 0), [], true, k - Stop(k, 1))
  {
    hide Chain, Closed, OperandsIn, Normalize, Trace;
    OnePhi(Chain(k), true, k + 1, k);
    ChainTrace(k, k, {k + 1}, 1);
    ChainNormal(k, Stop(k, 1), {}, 0);
  }

  /**
   * The depth limit is sharp. Deeper than 32 the tracer answers with the node it stopped at, and
   * normalizing that node at the merge loses the bytes below it.
   */
  lemma DepthLimitIsSharp(k: nat, env: ValueId -> int)
    requires Consistent(Chain(k), env)
    ensures Trace(Chain(k), true, k + 1, {}, 0).known
    ensures Claim(env, k + 1, Trace(Chain(k), true, k + 1, {}, 0)) <==> k <= 32
  {
    hide Trace, Consistent, Chain, Closed, Same;
    ChainAnswer(k);
    var base := Stop(Stop(k, 1), 0);
    ChainWords(k, env, base, k);
    ChainWord(k, env, k + 1);
    SameTrans(env(k + 1), env(k), env(base) + k - base);
    SmallGap(env(k + 1), env(base), k - base, k - Stop(k, 1));
  }

  lemma SmallGap(v: int, base: int, d: int, e: int)
    requires Same(v, base + d) && 0 <= d - e < TWO_64
    ensures Same(v, base + e) <==> d == e
  {
  }
}
