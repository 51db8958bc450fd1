/** Grouping of checks by the variable they guard, from `lib/CheckGraphBuilder.cpp`. */
module VariableGroups {
  import opened IR
  import RegionTrace
  import RegionWalk
  import Retention

  /** A VariableKey; values are compared by address, so they are their addresses here. */
  datatype Key = Key(sanitizer: nat, base: nat, offsets: seq<nat>, hasStart: bool, start: int)

  datatype CheckedVariable = CheckedVariable(check: nat, sanitizer: nat, base: nat, offsets: seq<nat>, hasStart: bool, start: int)

  /** The two command-line switches of makeVariableKey. */
  datatype Options = Options(groupDynamicOffsetsByBase: bool, distinguishStaticOffsets: bool)

  // ----- the order of keys -----

  predicate LessOffsets(a: seq<nat>, b: seq<nat>)
    requires |a| == |b|
  {
    if a == [] then false
    else if a[0] != b[0] then a[0] < b[0]
    else LessOffsets(a[1..], b[1..])
  }

  /** VariableKeyLess. */
  predicate Less(a: Key, b: Key)
  {
    if a.sanitizer != b.sanitizer then a.sanitizer < b.sanitizer
    else if a.base != b.base then a.base < b.base
    else if |a.offsets| != |b.offsets| then |a.offsets| < |b.offsets|
    else if a.offsets != b.offsets then LessOffsets(a.offsets, b.offsets)
    else if a.hasStart != b.hasStart then !a.hasStart
    else a.hasStart && a.start < b.start
  }

  lemma {:induction false} LessOffsetsOrder(a: seq<nat>, b: seq<nat>, c: seq<nat>)
    requires |a| == |b| == |c|
    ensures !(LessOffsets(a, b) && LessOffsets(b, a))
    ensures LessOffsets(a, b) || LessOffsets(b, a) <==> a != b
    ensures LessOffsets(a, b) && LessOffsets(b, c) ==> LessOffsets(a, c)
  {
    if a != [] {
      assert a == [a[0]] + a[1..] && b == [b[0]] + b[1..];
      LessOffsetsOrder(a[1..], b[1..], c[1..]);
    }
  }

  /** What the order sees of a key: a start only under its flag. */
  function Seen(k: Key): Key
  {
    if k.hasStart then k else k.(start := 0)
  }

  ghost predicate SameKey(a: Key, b: Key)
  {
    !Less(a, b) && !Less(b, a)
  }

  /** A strict order that is total up to the unused start. */
  lemma KeyOrder(a: Key, b: Key, c: Key)
    ensures !(Less(a, b) && Less(b, a))
    ensures Less(a, b) && Less(b, c) ==> Less(a, c)
    ensures SameKey(a, b) <==> Seen(a) == Seen(b)
  {
    if |a.offsets| == |b.offsets| {
      LessOffsetsOrder(a.offsets, b.offsets, if |c.offsets| == |b.offsets| then c.offsets else a.offsets);
    }
  }

  // ----- keys of variables -----

  function MakeKey(o: Options, v: CheckedVariable): Key
  {
    var located := o.distinguishStaticOffsets && v.hasStart;
    Key(v.sanitizer, v.base, if !v.hasStart && !o.groupDynamicOffsetsByBase then v.offsets else [],
        located, if located then v.start else 0)
  }

  /** When two variables share a group. */
  lemma SameGroup(o: Options, a: CheckedVariable, b: CheckedVariable)
    ensures SameKey(MakeKey(o, a), MakeKey(o, b)) <==> MakeKey(o, a) == MakeKey(o, b)
    ensures o == Options(true, false) ==>
      (MakeKey(o, a) == MakeKey(o, b) <==> a.sanitizer == b.sanitizer && a.base == b.base)
    ensures o.distinguishStaticOffsets && MakeKey(o, a) == MakeKey(o, b) ==>
      a.hasStart == b.hasStart && (a.hasStart ==> a.start == b.start)
    ensures MakeKey(o, a) == MakeKey(o, b) <==>
      && a.sanitizer == b.sanitizer && a.base == b.base
      && (o.distinguishStaticOffsets ==> a.hasStart == b.hasStart && (a.hasStart ==> a.start == b.start))
      && (o.groupDynamicOffsetsByBase || (if a.hasStart then [] else a.offsets) == (if b.hasStart then [] else b.offsets))
  {
    KeyOrder(MakeKey(o, a), MakeKey(o, b), MakeKey(o, a));
  }

  // ----- the groups -----

  datatype Group = Group(key: Key, vars: seq<CheckedVariable>)

  /** The variables with key k, in order. */
  function WithKey(o: Options, vars: seq<CheckedVariable>, k: Key): seq<CheckedVariable>
  {
    if vars == [] then []
    else
      var last := vars[|vars| - 1];
      WithKey(o, vars[..|vars| - 1], k) + if MakeKey(o, last) == k then [last] else []
  }

  ghost predicate Sorted(gs: seq<Group>)
  {
    forall i, j :: 0 <= i < j < |gs| ==> Less(gs[i].key, gs[j].key)
  }

  ghost predicate HasKey(gs: seq<Group>, k: Key)
  {
    exists g :: g in gs && g.key == k
  }

  /** The map from keys to variables, in key order. */
  ghost predicate Grouped(o: Options, gs: seq<Group>, vars: seq<CheckedVariable>)
  {
    && Sorted(gs)
    && (forall g :: g in gs ==> g.vars == WithKey(o, vars, g.key) && g.vars != [])
    && (forall v :: v in vars ==> HasKey(gs, MakeKey(o, v)))
  }

  function All(gs: seq<Group>): seq<CheckedVariable>
  {
    if gs == [] then [] else All(gs[..|gs| - 1]) + gs[|gs| - 1].vars
  }

  lemma {:induction false} AllJoin(a: seq<Group>, b: seq<Group>)
    ensures All(a + b) == All(a) + All(b)
    decreases |b|
  {
    if b == [] {
      assert a + b == a;
    } else {
      var c, last := b[..|b| - 1], b[|b| - 1].vars;
      AllJoin(a, c);
      assert (a + b)[..|a + b| - 1] == a + c;
      assert All(a) + All(c) + last == All(a) + (All(c) + last);
    }
  }

  lemma {:induction false} WithKeyMembers(o: Options, vars: seq<CheckedVariable>, k: Key)
    ensures forall v :: v in WithKey(o, vars, k) <==> v in vars && MakeKey(o, v) == k
  {
    if vars != [] {
      WithKeyMembers(o, vars[..|vars| - 1], k);
      assert vars == vars[..|vars| - 1] + [vars[|vars| - 1]];
    }
  }

  /** A group lists its variables in the order in which they were found. */
  lemma {:induction false} WithKeyJoin(o: Options, a: seq<CheckedVariable>, b: seq<CheckedVariable>, k: Key)
    ensures WithKey(o, a + b, k) == WithKey(o, a, k) + WithKey(o, b, k)
    decreases |b|
  {
    hide MakeKey;
    if b == [] {
      assert a + b == a;
    } else {
      WithKeyJoin(o, a, b[..|b| - 1], k);
      assert (a + b)[..|a + b| - 1] == a + b[..|b| - 1];
    }
  }

  lemma WithKeyNext(o: Options, vars: seq<CheckedVariable>, v: CheckedVariable, k: Key)
    ensures WithKey(o, vars + [v], k) == WithKey(o, vars, k) + if MakeKey(o, v) == k then [v] else []
  {
    assert (vars + [v])[..|vars + [v]| - 1] == vars;
  }

  /** The key of a group is the key of its first variable. */
  lemma GroupKey(o: Options, gs: seq<Group>, vars: seq<CheckedVariable>, g: Group)
    requires Grouped(o, gs, vars) && g in gs
    ensures g.vars != [] && g.key == MakeKey(o, g.vars[0])
  {
    WithKeyMembers(o, vars, g.key);
    assert g.vars[0] in WithKey(o, vars, g.key);
  }

  /** All groups of a come before key k, all groups of b after it. */
  ghost predicate Around(a: seq<Group>, k: Key, b: seq<Group>)
  {
    (forall g :: g in a ==> Less(g.key, k)) && (forall g :: g in b ==> Less(k, g.key))
  }

  lemma SortedPut(a: seq<Group>, x: Group, b: seq<Group>)
    requires Sorted(a) && Sorted(b) && Around(a, x.key, b)
    ensures Sorted(a + [x] + b)
  {
    hide Less;
    forall g, h | g in a && h in b ensures Less(g.key, h.key) {
      KeyOrder(g.key, x.key, h.key);
    }
  }

  /** The group with key k at its place between a and b, or the room for it, becomes the group x. */
  ghost predicate Puts(o: Options, a: seq<Group>, here: Option<Group>, b: seq<Group>, v: CheckedVariable, x: Group)
  {
    && x.key == MakeKey(o, v) && Around(a, x.key, b)
    && (here.Some? ==> here.value.key == x.key)
    && x.vars == (if here.Some? then here.value.vars else []) + [v]
  }

  function Optional(here: Option<Group>): seq<Group>
  {
    if here.Some? then [here.value] else []
  }

  lemma KeyElsewhere(a: seq<Group>, here: Option<Group>, b: seq<Group>, k: Key, g: Group)
    requires Around(a, k, b) && (here.Some? ==> here.value.key == k) && g in a + Optional(here) + b
    ensures g.key == k ==> here == Some(g)
    ensures here != Some(g) ==> g in a || g in b
  {
    hide Less;
    KeyOrder(k, k, k);
  }

  lemma PutGroups(o: Options, a: seq<Group>, here: Option<Group>, b: seq<Group>,
                  v: CheckedVariable, x: Group, vars: seq<CheckedVariable>)
    requires Grouped(o, a + Optional(here) + b, vars) && Sorted(a) && Sorted(b) && Puts(o, a, here, b, v, x)
    ensures Grouped(o, a + [x] + b, vars + [v])
  {
    hide Less, MakeKey, WithKey, Around;
    var gs, r := a + Optional(here) + b, a + [x] + b;
    SortedPut(a, x, b);
    WithKeyMembers(o, vars, x.key);
    forall g | g in r ensures g.vars == WithKey(o, vars + [v], g.key) && g.vars != [] {
      WithKeyNext(o, vars, v, g.key);
      if g == x {
        PutVars(o, a, here, b, vars, x.key);
      } else {
        assert g in gs;
        ElsewhereOther(a, b, g, x.key);
      }
    }
    forall u | u in vars + [v] ensures HasKey(r, MakeKey(o, u)) {
      if MakeKey(o, u) == x.key {
        assert x in r;
      } else {
        assert u in vars && HasKey(gs, MakeKey(o, u));
        var g :| g in gs && g.key == MakeKey(o, u);
        assert g in r;
      }
    }
  }

  lemma ElsewhereOther(a: seq<Group>, b: seq<Group>, g: Group, k: Key)
    requires Around(a, k, b) && (g in a || g in b)
    ensures g.key != k
  {
    hide Less;
    KeyOrder(k, k, k);
  }

  lemma SomeMember(vars: seq<CheckedVariable>)
    ensures vars == [] || exists v :: v in vars
  {
    if vars != [] {
      assert vars[0] in vars;
    }
  }

  /** What key k listed before: the variables of its group, or nothing. */
  lemma PutVars(o: Options, a: seq<Group>, here: Option<Group>, b: seq<Group>, vars: seq<CheckedVariable>, k: Key)
    requires Grouped(o, a + Optional(here) + b, vars) && Around(a, k, b) && (here.Some? ==> here.value.key == k)
    ensures WithKey(o, vars, k) == if here.Some? then here.value.vars else []
  {
    hide Less, MakeKey, WithKey, Sorted;
    var gs := a + Optional(here) + b;
    if here.Some? {
      assert here.value in gs;
    } else {
      WithKeyMembers(o, vars, k);
      forall v | v in WithKey(o, vars, k) ensures exists g :: g in gs && g.key == k {
        assert HasKey(gs, MakeKey(o, v));
      }
      forall g | g in gs ensures g.key != k {
        KeyElsewhere(a, here, b, k, g);
      }
      SomeMember(WithKey(o, vars, k));
    }
  }

  /** Listing the groups in turn: a group more or a longer group lists one variable more. */
  lemma PutAll(o: Options, a: seq<Group>, here: Option<Group>, b: seq<Group>, v: CheckedVariable, x: Group)
    requires Puts(o, a, here, b, v, x)
    ensures multiset(All(a + [x] + b)) == multiset(All(a + Optional(here) + b)) + multiset{v}
  {
    hide All, Around, MakeKey;
    AllJoin(a + [x], b);
    AllJoin(a, [x]);
    AllOne(x);
    AllJoin(a + Optional(here), b);
    AllJoin(a, Optional(here));
    if here.Some? {
      AllOne(here.value);
    }
    AllNone();
  }

  lemma AllNone()
    ensures All([]) == []
  {
  }

  lemma AllOne(g: Group)
    ensures All([g]) == g.vars
  {
    assert All([g][..0]) == [];
  }

  /** Where the map keeps key k: the first group whose key is not before it. */
  method LowerBound(gs: seq<Group>, k: Key) returns (i: nat)
    requires Sorted(gs)
    ensures i <= |gs| && (forall g :: g in gs[..i] ==> Less(g.key, k)) && (i < |gs| ==> !Less(gs[i].key, k))
  {
    i := 0;
    while i < |gs| && Less(gs[i].key, k)
      invariant i <= |gs| && forall g :: g in gs[..i] ==> Less(g.key, k)
    {
      i := i + 1;
    }
  }

  /** From the place of key k on, the groups other than its own come after it. */
  lemma RestAfter(gs: seq<Group>, k: Key, i: nat)
    requires Sorted(gs) && i < |gs| && (Less(k, gs[i].key) || k == gs[i].key)
    ensures forall g :: g in gs[i + 1..] ==> Less(k, g.key)
  {
    hide Less;
    forall j | i < j < |gs| ensures Less(k, gs[j].key) {
      KeyOrder(k, gs[i].key, gs[j].key);
    }
  }

  lemma SortedParts(gs: seq<Group>, i: nat, j: nat)
    requires Sorted(gs) && i <= |gs| && j <= |gs|
    ensures Sorted(gs[..i]) && Sorted(gs[j..])
  {
    hide Less;
  }

  lemma GroupedIsSorted(o: Options, gs: seq<Group>, vars: seq<CheckedVariable>)
    requires Grouped(o, gs, vars)
    ensures Sorted(gs)
  {
  }

  /** Groups[key].push_back(v), on a map that compares keys with Less only. */
  method Push(o: Options, gs: seq<Group>, v: CheckedVariable, ghost vars: seq<CheckedVariable>) returns (r: seq<Group>)
    requires Grouped(o, gs, vars)
    ensures Grouped(o, r, vars + [v]) && multiset(All(r)) == multiset(All(gs)) + multiset{v}
  {
    hide Less, MakeKey, WithKey, All, Sorted, Grouped;
    GroupedIsSorted(o, gs, vars);
    var k := MakeKey(o, v);
    var i := LowerBound(gs, k);
    ghost var here: Option<Group>;
    ghost var b;
    var x: Group;
    if i < |gs| && !Less(k, gs[i].key) {
      GroupKey(o, gs, vars, gs[i]);
      SameGroup(o, gs[i].vars[0], v);
      RestAfter(gs, k, i);
      x := Group(gs[i].key, gs[i].vars + [v]);
      r := gs[..i] + [x] + gs[i + 1..];
      here, b := Some(gs[i]), gs[i + 1..];
    } else {
      if i < |gs| {
        RestAfter(gs, k, i);
      }
      x := Group(k, [v]);
      r := gs[..i] + [x] + gs[i..];
      here, b := None, gs[i..];
    }
    assert gs == gs[..i] + Optional(here) + b;
    SortedParts(gs, i, |gs| - |b|);
    assert gs[|gs| - |b|..] == b;
    PutGroups(o, gs[..i], here, b, v, x, vars);
    PutAll(o, gs[..i], here, b, v, x);
  }

  // ----- the builder -----

  /** A call site as the builder sees it: its check, if it is one, and the variable the analyzer finds for it. */
  datatype CallSite = CallSite(check: Option<(nat, string)>, variable: Option<CheckedVariable>)

  /** A function of the module; a declaration has no body. */
  datatype FunctionBody = FunctionBody(declaration: bool, calls: seq<CallSite>)

  predicate IsCore(core: set<(nat, string)>, check: (nat, string))
  {
    core == {} || check in core
  }

  function VariableOf(core: set<(nat, string)>, c: CallSite): seq<CheckedVariable>
  {
    if c.check.Some? && IsCore(core, c.check.value) && c.variable.Some? then [c.variable.value] else []
  }

  /** The analyzable core checks of a list of call sites, in order. */
  function Selected(core: set<(nat, string)>, calls: seq<CallSite>): seq<CheckedVariable>
  {
    if calls == [] then [] else Selected(core, calls[..|calls| - 1]) + VariableOf(core, calls[|calls| - 1])
  }

  lemma SelectedNone(core: set<(nat, string)>, calls: seq<CallSite>, before: seq<CheckedVariable>)
    ensures before + Selected(core, calls[..0]) == before
  {
  }

  lemma SelectedNext(core: set<(nat, string)>, calls: seq<CallSite>, i: nat, before: seq<CheckedVariable>)
    requires i < |calls|
    ensures before + Selected(core, calls[..i + 1]) == before + Selected(core, calls[..i]) + VariableOf(core, calls[i])
  {
    hide VariableOf;
    assert calls[..i + 1][..i] == calls[..i];
  }

  /** The selection keeps the order of the call sites. */
  lemma {:induction false} SelectedJoin(core: set<(nat, string)>, a: seq<CallSite>, b: seq<CallSite>)
    ensures Selected(core, a + b) == Selected(core, a) + Selected(core, b)
    decreases |b|
  {
    hide VariableOf;
    if b == [] {
      assert a + b == a;
    } else {
      SelectedJoin(core, a, b[..|b| - 1]);
      assert (a + b)[..|a + b| - 1] == a + b[..|b| - 1];
    }
  }

  /** A call site is selected iff it is a check that has a variable and, when core checks are given, is one of these. */
  lemma SelectedOne(core: set<(nat, string)>, c: CallSite)
    ensures Selected(core, [c]) ==
            if c.check.Some? && c.variable.Some? && (core != {} ==> c.check.value in core) then [c.variable.value] else []
  {
    assert [c][..0] == [];
  }

  /** The analyzable core checks of the module, in module order. */
  function InModule(core: set<(nat, string)>, m: seq<FunctionBody>): seq<CheckedVariable>
  {
    if m == [] then []
    else
      var last := m[|m| - 1];
      InModule(core, m[..|m| - 1]) + if last.declaration then [] else Selected(core, last.calls)
  }

  /** The module order: function after function, and a declaration has none. */
  lemma {:induction false} InModuleJoin(core: set<(nat, string)>, a: seq<FunctionBody>, b: seq<FunctionBody>)
    ensures InModule(core, a + b) == InModule(core, a) + InModule(core, b)
    decreases |b|
  {
    hide Selected;
    if b == [] {
      assert a + b == a;
    } else {
      InModuleJoin(core, a, b[..|b| - 1]);
      assert (a + b)[..|a + b| - 1] == a + b[..|b| - 1];
    }
  }

  /** What is selected in a whole module. */
  lemma {:induction false} InModuleExact(core: set<(nat, string)>, m: seq<FunctionBody>, v: CheckedVariable)
    ensures v in InModule(core, m) <==> exists f :: f in m && !f.declaration && exists c :: c in f.calls && Guards(core, c, v)
  {
    hide Selected, Guards;
    if m != [] {
      var last := m[|m| - 1];
      InModuleExact(core, m[..|m| - 1], v);
      SelectedExact(core, last.calls, v);
      assert m == m[..|m| - 1] + [last];
    }
  }

  /** The call c is a check of v, and one of the core checks if there are any. */
  ghost predicate Guards(core: set<(nat, string)>, c: CallSite, v: CheckedVariable)
  {
    c.check.Some? && c.variable == Some(v) && (core != {} ==> c.check.value in core)
  }

  lemma {:induction false} SelectedExact(core: set<(nat, string)>, calls: seq<CallSite>, v: CheckedVariable)
    ensures v in Selected(core, calls) <==> exists c :: c in calls && Guards(core, c, v)
  {
    if calls != [] {
      var last := calls[|calls| - 1];
      var most := calls[..|calls| - 1];
      SelectedExact(core, most, v);
      assert calls == most + [last];
      assert forall c :: c in calls <==> c in most || c == last;
      assert v in VariableOf(core, last) <==> Guards(core, last, v);
    }
  }

  class CheckGraphBuilder {
    const m: seq<FunctionBody>
    const coreChecks: set<(nat, string)>
    const options: Options
    var groups: seq<Group>
    var groupsComputed: bool

    ghost predicate Valid()
      reads this
    {
      groupsComputed ==> IsGrouping(options, groups, InModule(coreChecks, m))
    }

    constructor (m: seq<FunctionBody>, coreChecks: set<(nat, string)>, options: Options)
      ensures Valid() && !groupsComputed && this.m == m && this.coreChecks == coreChecks && this.options == options
    {
      this.m, this.coreChecks, this.options := m, coreChecks, options;
      groups, groupsComputed := [], false;
    }

    method GroupCall(c: CallSite, ghost before: seq<CheckedVariable>)
      requires IsGrouping(options, groups, before)
      modifies `groups
      ensures IsGrouping(options, groups, before + VariableOf(coreChecks, c))
    {
      hide Grouped, All;
      assert before + [] == before;
      if c.check.None? || !IsCore(coreChecks, c.check.value) {
        return;
      }
      if c.variable.None? {
        return;
      }
      groups := Push(options, groups, c.variable.value, before);
    }

    method GroupFunction(calls: seq<CallSite>, ghost before: seq<CheckedVariable>)
      requires IsGrouping(options, groups, before)
      modifies `groups
      ensures IsGrouping(options, groups, before + Selected(coreChecks, calls))
    {
      hide *;
      SelectedNone(coreChecks, calls, before);
      for i := 0 to |calls|
        invariant IsGrouping(options, groups, before + Selected(coreChecks, calls[..i]))
      {
        SelectedNext(coreChecks, calls, i, before);
        GroupCall(calls[i], before + Selected(coreChecks, calls[..i]));
      }
      assert calls[..|calls|] == calls;
    }

    method GroupChecksByVariable()
      requires Valid()
      modifies this
      ensures Valid() && groupsComputed && IsGrouping(options, groups, InModule(coreChecks, m))
      ensures old(groupsComputed) ==> groups == old(groups)
    {
      if groupsComputed {
        return;
      }
      groups := [];
      assert IsGrouping(options, groups, InModule(coreChecks, m[..0]));
      for i := 0 to |m|
        invariant IsGrouping(options, groups, InModule(coreChecks, m[..i])) && !groupsComputed
      {
        assert m[..i + 1][..i] == m[..i];
        if m[i].declaration {
          assert InModule(coreChecks, m[..i]) + [] == InModule(coreChecks, m[..i]);
          continue;
        }
        GroupFunction(m[i].calls, InModule(coreChecks, m[..i]));
      }
      assert m[..|m|] == m;
      groupsComputed := true;
    }
  }

  /** The groups are the partition of the variables by key, each group in order. */
  ghost predicate IsGrouping(o: Options, gs: seq<Group>, vars: seq<CheckedVariable>)
  {
    Grouped(o, gs, vars) && multiset(All(gs)) == multiset(vars)
  }

  /** Two groups never share a key. */
  lemma KeysApart(gs: seq<Group>, i: nat, j: nat)
    requires Sorted(gs) && i < |gs| && j < |gs| && i != j
    ensures gs[i].key != gs[j].key
  {
    hide Less;
    KeyOrder(gs[i].key, gs[j].key, gs[i].key);
    assert Less(gs[if i < j then i else j].key, gs[if i < j then j else i].key);
    KeyOrder(gs[i].key, gs[i].key, gs[i].key);
  }

  /** Every check is in exactly one group, the one with its key. */
  lemma OneGroupEach(o: Options, gs: seq<Group>, vars: seq<CheckedVariable>, v: CheckedVariable) returns (i: nat)
    requires IsGrouping(o, gs, vars) && v in vars
    ensures i < |gs| && gs[i].key == MakeKey(o, v) && v in gs[i].vars
    ensures forall j: nat :: j < |gs| && v in gs[j].vars ==> j == i
  {
    hide Less, WithKey, MakeKey, All, Sorted;
    var k := MakeKey(o, v);
    assert HasKey(gs, k);
    i :| i < |gs| && gs[i].key == k;
    WithKeyMembers(o, vars, k);
    assert gs[i] in gs;
    forall j: nat | j < |gs| && v in gs[j].vars ensures j == i {
      assert gs[j] in gs;
      WithKeyMembers(o, vars, gs[j].key);
      if j != i {
        KeysApart(gs, i, j);
      }
    }
  }

  /** The variable v was traced from the address u. */
  ghost predicate TracedFrom(v: CheckedVariable, g: RegionTrace.Values, layout: bool, u: nat)
  {
    && RegionTrace.Closed(g) && u in g
    && RegionTrace.Trace(g, layout, u, {}, 0) == RegionTrace.Region(v.base, v.offsets, v.hasStart, v.start)
  }

  /** Its address is one for which the tracer's answer is sound. */
  ghost predicate Soundly(v: CheckedVariable, g: RegionTrace.Values, layout: bool, u: nat)
  {
    TracedFrom(v, g, layout, u) && RegionTrace.Traceable(g, layout, u, RegionTrace.MAX_TRACE_DEPTH)
  }

  /**
   * With static offsets told apart, two checks of one group whose offsets are known guard the same
   * address in every environment: the tracer's answers are sound and the key compares all of them.
   */
  lemma SameGroupSameAddress(o: Options, a: CheckedVariable, b: CheckedVariable,
                             g: RegionTrace.Values, layout: bool, env: nat -> int, u: nat, v: nat)
    requires Soundly(a, g, layout, u) && Soundly(b, g, layout, v) && RegionTrace.Consistent(g, env)
    requires o.distinguishStaticOffsets && SameKey(MakeKey(o, a), MakeKey(o, b)) && a.hasStart
    ensures RegionTrace.Same(env(u), env(v))
  {
    hide RegionTrace.Trace, RegionTrace.Traceable, RegionTrace.Consistent, RegionTrace.Closed, Less, SameKey;
    SameGroup(o, a, b);
    RegionTrace.SameStartSameAddress(g, layout, env, u, v);
  }

  /** Checks of two constant casts over one base share a group under every switch; their addresses differ as their slips do. */
  lemma ConstantCastsShareAGroup(o: Options, a: CheckedVariable, b: CheckedVariable,
                                 g: RegionTrace.Values, layout: bool, env: nat -> int, u: nat, v: nat)
    requires TracedFrom(a, g, layout, u) && TracedFrom(b, g, layout, v) && RegionTrace.Consistent(g, env)
    requires a.sanitizer == b.sanitizer && g[u].ConstantCast? && g[v].ConstantCast?
    requires RegionTrace.Slip(g, u, {}, 0).Some? && RegionTrace.Slip(g, v, {}, 0).Some?
    requires RegionTrace.NormalizeVariable(g, u) == RegionTrace.NormalizeVariable(g, v)
    ensures SameKey(MakeKey(o, a), MakeKey(o, b))
    ensures RegionTrace.Same(env(u), env(v)) <==>
      RegionTrace.Same(RegionTrace.Slip(g, u, {}, 0).value, RegionTrace.Slip(g, v, {}, 0).value)
  {
    hide RegionTrace.Trace, RegionTrace.Slip, RegionTrace.NormalizeVariable, RegionTrace.Consistent, RegionTrace.Closed, Less, SameKey;
    RegionTrace.ConstantCastsCollide(g, layout, env, u, v);
    SameGroup(o, a, b);
  }

  /** Checks of two loads through one pointer share a group under every switch, although neither offset is known. */
  lemma LoadsShareAGroup(o: Options, a: CheckedVariable, b: CheckedVariable,
                         g: RegionTrace.Values, layout: bool, u: nat, v: nat, p: nat, walk: seq<nat>)
    requires TracedFrom(a, g, layout, u) && TracedFrom(b, g, layout, v) && a.sanitizer == b.sanitizer
    requires RegionWalk.KindOf(g, u) == RegionTrace.Kind.Load(p) && RegionWalk.KindOf(g, v) == RegionTrace.Kind.Load(p)
    requires RegionWalk.Walk(g, walk, false) && walk[0] == p && u !in walk && v !in walk && |walk| <= RegionTrace.MAX_TRACE_DEPTH
    requires var e := RegionWalk.Last(walk);
             e !in RegionWalk.Before(walk) && (RegionWalk.KindOf(g, e).Leaf? || RegionWalk.KindOf(g, e).ConstInt?)
    ensures SameKey(MakeKey(o, a), MakeKey(o, b)) && !a.hasStart && !b.hasStart
  {
    hide RegionTrace.Trace, RegionTrace.Closed, Less, SameKey;
    RegionWalk.LoadsShareABase(g, layout, u, v, p, walk);
    SameGroup(o, a, b);
  }

  /** Two fields of a global get one key although static offsets are told apart, and lie at different addresses. */
  lemma GlobalFieldsShareAGroup(o: Options, a: CheckedVariable, b: CheckedVariable, env: nat -> int)
    requires a.sanitizer == b.sanitizer && RegionTrace.Consistent(RegionTrace.GlobalFields(), env)
    requires TracedFrom(a, RegionTrace.GlobalFields(), true, 2) && TracedFrom(b, RegionTrace.GlobalFields(), true, 4)
    ensures SameKey(MakeKey(o, a), MakeKey(o, b)) && !RegionTrace.Same(env(2), env(4))
  {
    hide RegionTrace.Trace, RegionTrace.GlobalFields, RegionTrace.Consistent, RegionTrace.Closed, Less, SameKey;
    RegionTrace.GlobalFieldsFail(env);
    SameGroup(o, a, b);
  }

  /**
   * The policy and the tracer together. With static offsets told apart, a READ that the policy drops from a group
   * and whose offset is known guards the address that an earlier, kept READ of the group guards.
   */
  lemma DroppedReadIsCovered(o: Options, group: seq<CheckedVariable>, accesses: seq<Retention.AccessType>, k: nat,
                             g: RegionTrace.Values, layout: bool, env: nat -> int, addresses: seq<nat>) returns (j: nat)
    requires o.distinguishStaticOffsets && |accesses| == |group| == |addresses| && RegionTrace.Consistent(g, env)
    requires forall i, l :: 0 <= i < l < |group| ==> SameKey(MakeKey(o, group[i]), MakeKey(o, group[l]))
    requires forall i :: 0 <= i < |group| ==> Soundly(group[i], g, layout, addresses[i])
    requires Retention.Redundant(accesses, k) && group[k].hasStart
    ensures j < k && accesses[j] == Retention.READ && !Retention.Redundant(accesses, j)
    ensures forall i :: j <= i <= k ==> accesses[i] == Retention.READ
    ensures RegionTrace.Same(env(addresses[j]), env(addresses[k]))
  {
    hide Soundly, SameKey, MakeKey, RegionTrace.Consistent, RegionTrace.Same;
    j := Retention.DroppedFailureDetected(accesses, seq(|accesses|, _ => true), k);
    SameGroup(o, group[j], group[k]);
    SameGroupSameAddress(o, group[j], group[k], g, layout, env, addresses[j], addresses[k]);
  }
}
