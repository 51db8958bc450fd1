/** The bounded search through users that classifies an access, from `lib/CheckedVariableAnalyzer.cpp`. */
module UseSearch {
  import opened IR
  import opened RegionTrace

  datatype Access = Read | Write | Undecided

  datatype UserKind =
    | LoadFrom(pointer: ValueId)
    | StoreTo(pointer: ValueId)
    | MemTransfer(dest: ValueId, source: ValueId)
    | MemSet(dest: ValueId)
    | TraceThrough
    | OtherUser

  /** A user of a value; only an instruction stands in a function. */
  datatype User = User(id: ValueId, func: Option<nat>, kind: UserKind)

  datatype Check = Check(id: ValueId, func: nat)

  type Uses = map<ValueId, seq<User>>

  const MAX_USE_TRACE_DEPTH := 12

  predicate KnownUser(g: Values, u: User)
  {
    match u.kind
    case LoadFrom(p) => p in g
    case StoreTo(p) => p in g
    case MemTransfer(d, s) => d in g && s in g
    case MemSet(d) => d in g
    case TraceThrough => u.id in g
    case OtherUser => true
  }

  ghost predicate KnownUses(g: Values, uses: Uses)
  {
    Closed(g) && forall v, u :: v in uses && u in uses[v] ==> KnownUser(g, u)
  }

  function UsersOf(uses: Uses, v: ValueId): seq<User>
  {
    if v in uses then uses[v] else []
  }

  /** The search passes over users in other functions and over the check itself. */
  predicate Counts(check: Option<Check>, u: User)
  {
    check.Some? ==> (u.func.Some? ==> u.func.value == check.value.func) && u.id != check.value.id
  }

  predicate Alias(g: Values, a: ValueId, b: ValueId)
  {
    Closed(g) && a in g && b in g && NormalizeVariable(g, a) == NormalizeVariable(g, b)
  }

  predicate Reads(g: Values, check: Option<Check>, v: ValueId, u: User)
  {
    && Counts(check, u)
    && match u.kind
       case LoadFrom(p) => Alias(g, p, v)
       case MemTransfer(_, s) => Alias(g, s, v)
       case _ => false
  }

  predicate Writes(g: Values, check: Option<Check>, v: ValueId, u: User)
  {
    && Counts(check, u)
    && match u.kind
       case StoreTo(p) => Alias(g, p, v)
       case MemTransfer(d, _) => Alias(g, d, v)
       case MemSet(d) => Alias(g, d, v)
       case _ => false
  }

  predicate Leads(check: Option<Check>, u: User)
  {
    Counts(check, u) && u.kind.TraceThrough?
  }

  ghost predicate ReadAt(g: Values, uses: Uses, check: Option<Check>, v: ValueId)
  {
    exists u :: u in UsersOf(uses, v) && Reads(g, check, v, u)
  }

  ghost predicate WrittenAt(g: Values, uses: Uses, check: Option<Check>, v: ValueId)
  {
    exists u :: u in UsersOf(uses, v) && Writes(g, check, v, u)
  }

  ghost predicate StepTo(uses: Uses, check: Option<Check>, v: ValueId, w: ValueId)
  {
    exists u :: u in UsersOf(uses, v) && Leads(check, u) && u.id == w
  }

  /** v is at most n trace-through steps away from the root. */
  ghost predicate Within(uses: Uses, check: Option<Check>, root: ValueId, v: ValueId, n: nat)
    decreases n
  {
    v == root || (n > 0 && exists u :: Within(uses, check, root, u, n - 1) && StepTo(uses, check, u, v))
  }

  ghost predicate ReadWithin(g: Values, uses: Uses, check: Option<Check>, root: ValueId, n: nat)
  {
    exists v :: Within(uses, check, root, v, n) && ReadAt(g, uses, check, v)
  }

  ghost predicate WrittenWithin(g: Values, uses: Uses, check: Option<Check>, root: ValueId, n: nat)
  {
    exists v :: Within(uses, check, root, v, n) && WrittenAt(g, uses, check, v)
  }

  lemma {:induction false} WithinMore(uses: Uses, check: Option<Check>, root: ValueId, v: ValueId, n: nat, m: nat)
    requires Within(uses, check, root, v, n) && n <= m
    ensures Within(uses, check, root, v, m)
    decreases n
  {
    if v != root {
      var u :| Within(uses, check, root, u, n - 1) && StepTo(uses, check, u, v);
      WithinMore(uses, check, root, u, n - 1, m - 1);
    }
  }

  /**
   Which users count, kind by kind: a load or the source of a transfer reads, a
   store, a memset or the destination of a transfer writes, if the pointer has
   the variable of v; casts and the like lead on; the check itself and users in
   other functions do nothing.
   */
  lemma UserExact(g: Values, check: Option<Check>, v: ValueId, u: User)
    requires Closed(g) && KnownUser(g, u) && v in g
    ensures Counts(check, u) <==> check.None? || (u.id != check.value.id && (u.func.None? || u.func == Some(check.value.func)))
    ensures Leads(check, u) <==> Counts(check, u) && u.kind == TraceThrough
    ensures var k, x, counts := u.kind, NormalizeVariable(g, v), Counts(check, u);
            && (k.LoadFrom? ==> !Writes(g, check, v, u))
            && (k.LoadFrom? ==> (Reads(g, check, v, u) <==> counts && NormalizeVariable(g, k.pointer) == x))
            && (k.StoreTo? ==> !Reads(g, check, v, u))
            && (k.StoreTo? ==> (Writes(g, check, v, u) <==> counts && NormalizeVariable(g, k.pointer) == x))
            && (k.MemTransfer? ==> (Reads(g, check, v, u) <==> counts && NormalizeVariable(g, k.source) == x))
            && (k.MemTransfer? ==> (Writes(g, check, v, u) <==> counts && NormalizeVariable(g, k.dest) == x))
            && (k.MemSet? ==> !Reads(g, check, v, u))
            && (k.MemSet? ==> (Writes(g, check, v, u) <==> counts && NormalizeVariable(g, k.dest) == x))
            && (k.TraceThrough? || k.OtherUser? ==> !Reads(g, check, v, u) && !Writes(g, check, v, u))
  {
  }

  /** One user of v. */
  method Classify(g: Values, check: Option<Check>, v: ValueId, u: User) returns (read: bool, written: bool, leads: bool)
    requires Closed(g) && KnownUser(g, u) && v in g
    ensures read == Reads(g, check, v, u) && written == Writes(g, check, v, u) && leads == Leads(check, u)
  {
    read, written, leads := false, false, false;
    if check.Some? && u.func.Some? && u.func.value != check.value.func {
      return;
    }
    if check.Some? && u.id == check.value.id {
      return;
    }
    match u.kind {
      case LoadFrom(p) => read := NormalizeVariable(g, p) == NormalizeVariable(g, v);
      case StoreTo(p) => written := NormalizeVariable(g, p) == NormalizeVariable(g, v);
      case MemTransfer(d, s) =>
        written := NormalizeVariable(g, d) == NormalizeVariable(g, v);
        read := NormalizeVariable(g, s) == NormalizeVariable(g, v);
      case MemSet(d) => written := NormalizeVariable(g, d) == NormalizeVariable(g, v);
      case TraceThrough => leads := true;
      case OtherUser =>
    }
  }

  lemma LeadsOn(g: Values, check: Option<Check>, u: User)
    requires KnownUser(g, u) && Leads(check, u)
    ensures u.id in g
  {
  }

  /** All users of v: reads, writes, and the values to look at next. */
  method Scan(g: Values, uses: Uses, check: Option<Check>, v: ValueId)
      returns (sawRead: bool, sawWrite: bool, next: seq<ValueId>)
    requires KnownUses(g, uses) && v in g
    ensures sawRead <==> ReadAt(g, uses, check, v)
    ensures sawWrite <==> WrittenAt(g, uses, check, v)
    ensures forall w :: w in next <==> StepTo(uses, check, v, w)
    ensures forall w :: w in next ==> w in g
  {
    hide Closed, Counts, Reads, Writes, Leads;
    sawRead, sawWrite, next := false, false, [];
    var us := UsersOf(uses, v);
    for i := 0 to |us|
      invariant sawRead <==> exists k :: 0 <= k < i && Reads(g, check, v, us[k])
      invariant sawWrite <==> exists k :: 0 <= k < i && Writes(g, check, v, us[k])
      invariant forall w :: w in next <==> exists k :: 0 <= k < i && Leads(check, us[k]) && us[k].id == w
      invariant forall w :: w in next ==> w in g
    {
      var read, written, leads := Classify(g, check, v, us[i]);
      sawRead, sawWrite := sawRead || read, sawWrite || written;
      if leads {
        LeadsOn(g, check, us[i]);
        next := next + [us[i].id];
      }
    }
  }

  // ----- the search -----

  /** The state at the head of level d. */
  ghost predicate LevelHead(g: Values, uses: Uses, check: Option<Check>, root: ValueId,
                            visited: set<ValueId>, worklist: seq<ValueId>, d: nat)
  {
    && (forall v :: v in visited <==> d > 0 && Within(uses, check, root, v, d - 1))
    && (forall v :: v in worklist ==> v in g && Within(uses, check, root, v, d))
    && (root in visited || root in worklist)
    && (forall u, v :: u in visited && StepTo(uses, check, u, v) ==> v in visited || v in worklist)
  }

  ghost predicate Seen(g: Values, uses: Uses, check: Option<Check>, visited: set<ValueId>, sawRead: bool, sawWrite: bool)
  {
    && (sawRead <==> exists v :: v in visited && ReadAt(g, uses, check, v))
    && (sawWrite <==> exists v :: v in visited && WrittenAt(g, uses, check, v))
  }

  /** One level: every value of the worklist that has not been visited yet is scanned. */
  method ScanLevel(g: Values, uses: Uses, check: Option<Check>, worklist: seq<ValueId>,
                   visited0: set<ValueId>, sawRead0: bool, sawWrite0: bool)
      returns (visited: set<ValueId>, sawRead: bool, sawWrite: bool, next: seq<ValueId>)
    requires KnownUses(g, uses) && Seen(g, uses, check, visited0, sawRead0, sawWrite0)
    requires forall v :: v in worklist ==> v in g
    ensures Seen(g, uses, check, visited, sawRead, sawWrite)
    ensures forall v :: v in visited <==> v in visited0 || v in worklist
    ensures forall w :: w in next <==> exists v :: v in visited && v !in visited0 && StepTo(uses, check, v, w)
    ensures forall w :: w in next ==> w in g
  {
    hide KnownUses, ReadAt, WrittenAt, StepTo;
    visited, sawRead, sawWrite, next := visited0, sawRead0, sawWrite0, [];
    for i := 0 to |worklist|
      invariant Seen(g, uses, check, visited, sawRead, sawWrite)
      invariant forall v :: v in visited <==> v in visited0 || v in worklist[..i]
      invariant forall w :: w in next <==> exists v :: v in visited && v !in visited0 && StepTo(uses, check, v, w)
      invariant forall w :: w in next ==> w in g
    {
      var current := worklist[i];
      assert worklist[..i + 1] == worklist[..i] + [current];
      if current !in visited {
        visited := visited + {current};
        var read, written, more := Scan(g, uses, check, current);
        sawRead, sawWrite, next := sawRead || read, sawWrite || written, next + more;
      }
    }
  }

  lemma NextLevel(g: Values, uses: Uses, check: Option<Check>, root: ValueId, visited: set<ValueId>,
                  worklist: seq<ValueId>, d: nat, visited1: set<ValueId>, next: seq<ValueId>)
    requires LevelHead(g, uses, check, root, visited, worklist, d)
    requires forall v :: v in visited1 <==> v in visited || v in worklist
    requires forall w :: w in next <==> exists v :: v in visited1 && v !in visited && StepTo(uses, check, v, w)
    requires forall w :: w in next ==> w in g
    ensures LevelHead(g, uses, check, root, visited1, next, d + 1)
  {
    hide StepTo;
    forall v | v in visited1 ensures Within(uses, check, root, v, d) {
      if v in visited {
        WithinMore(uses, check, root, v, d - 1, d);
      }
    }
    forall v | Within(uses, check, root, v, d) ensures v in visited1 {
      if v != root {
        var u :| Within(uses, check, root, u, d - 1) && StepTo(uses, check, u, v);
        assert u in visited;
      }
    }
    forall w | w in next ensures Within(uses, check, root, w, d + 1) {
      var v :| v in visited1 && v !in visited && StepTo(uses, check, v, w);
      assert Within(uses, check, root, v, d);
    }
  }

  /** With nothing left to look at, what has been visited is everything within any distance. */
  lemma {:induction false} NothingLeft(g: Values, uses: Uses, check: Option<Check>, root: ValueId,
                                       visited: set<ValueId>, d: nat, v: ValueId, n: nat)
    requires LevelHead(g, uses, check, root, visited, [], d) && Within(uses, check, root, v, n)
    ensures v in visited
    decreases n
  {
    if v != root {
      var u :| Within(uses, check, root, u, n - 1) && StepTo(uses, check, u, v);
      NothingLeft(g, uses, check, root, visited, d, u, n - 1);
    }
  }

  lemma SearchDone(g: Values, uses: Uses, check: Option<Check>, root: ValueId, visited: set<ValueId>,
                   worklist: seq<ValueId>, d: nat, sawRead: bool, sawWrite: bool)
    requires LevelHead(g, uses, check, root, visited, worklist, d) && Seen(g, uses, check, visited, sawRead, sawWrite)
    requires d <= MAX_USE_TRACE_DEPTH && (worklist == [] || d == MAX_USE_TRACE_DEPTH)
    ensures sawRead <==> ReadWithin(g, uses, check, root, MAX_USE_TRACE_DEPTH - 1)
    ensures sawWrite <==> WrittenWithin(g, uses, check, root, MAX_USE_TRACE_DEPTH - 1)
  {
    hide ReadAt, WrittenAt, StepTo;
    forall v ensures v in visited <==> Within(uses, check, root, v, MAX_USE_TRACE_DEPTH - 1) {
      if v in visited {
        WithinMore(uses, check, root, v, d - 1, MAX_USE_TRACE_DEPTH - 1);
      } else if worklist == [] && Within(uses, check, root, v, MAX_USE_TRACE_DEPTH - 1) {
        NothingLeft(g, uses, check, root, visited, d, v, MAX_USE_TRACE_DEPTH - 1);
      }
    }
  }

  lemma SearchStarts(g: Values, uses: Uses, check: Option<Check>, root: ValueId)
    requires root in g
    ensures LevelHead(g, uses, check, root, {}, [root], 0) && Seen(g, uses, check, {}, false, false)
  {
  }

  /** inferAccessTypeFromUses: exact up to eleven steps, whatever the order of users, and on cycles too. */
  method InferAccess(g: Values, uses: Uses, root: Option<ValueId>, check: Option<Check>) returns (access: Access)
    requires KnownUses(g, uses) && (root.Some? ==> root.value in g)
    ensures root.None? ==> access == Undecided
    ensures root.Some? ==>
      var read := ReadWithin(g, uses, check, root.value, 11);
      var written := WrittenWithin(g, uses, check, root.value, 11);
      && (access == Read <==> read && !written)
      && (access == Write <==> written && !read)
  {
    if root.None? {
      return Undecided;
    }
    hide KnownUses, Seen, Within, StepTo, ReadWithin, WrittenWithin;
    var sawRead, sawWrite := false, false;
    var worklist, visited: set<ValueId> := [root.value], {};
    var depth := 0;
    SearchStarts(g, uses, check, root.value);
    while worklist != [] && depth < MAX_USE_TRACE_DEPTH
      invariant depth <= MAX_USE_TRACE_DEPTH
      invariant LevelHead(g, uses, check, root.value, visited, worklist, depth)
      invariant Seen(g, uses, check, visited, sawRead, sawWrite)
      decreases MAX_USE_TRACE_DEPTH - depth
    {
      ghost var before := visited;
      var next;
      visited, sawRead, sawWrite, next := ScanLevel(g, uses, check, worklist, visited, sawRead, sawWrite);
      NextLevel(g, uses, check, root.value, before, worklist, depth, visited, next);
      worklist := next;
      depth := depth + 1;
    }
    SearchDone(g, uses, check, root.value, visited, worklist, depth, sawRead, sawWrite);
    access := if sawRead && !sawWrite then Read else if sawWrite && !sawRead then Write else Undecided;
  }

  ghost predicate SameUsers(a: Uses, b: Uses)
  {
    forall v, u :: u in UsersOf(a, v) <==> u in UsersOf(b, v)
  }

  lemma StepSame(a: Uses, b: Uses, check: Option<Check>, u: ValueId, v: ValueId)
    requires SameUsers(a, b) && StepTo(a, check, u, v)
    ensures StepTo(b, check, u, v)
  {
    hide UsersOf, Leads;
  }

  lemma {:induction false} WithinSame(a: Uses, b: Uses, check: Option<Check>, root: ValueId, v: ValueId, n: nat)
    requires SameUsers(a, b) && Within(a, check, root, v, n)
    ensures Within(b, check, root, v, n)
    decreases n
  {
    hide UsersOf, StepTo;
    if v != root {
      var u :| Within(a, check, root, u, n - 1) && StepTo(a, check, u, v);
      WithinSame(a, b, check, root, u, n - 1);
      StepSame(a, b, check, u, v);
    }
  }

  /** The answer depends on which users each value has, not on the order or the number of times they are listed. */
  lemma OrderDoesNotMatter(g: Values, a: Uses, b: Uses, check: Option<Check>, root: ValueId, n: nat)
    requires SameUsers(a, b)
    ensures ReadWithin(g, a, check, root, n) <==> ReadWithin(g, b, check, root, n)
    ensures WrittenWithin(g, a, check, root, n) <==> WrittenWithin(g, b, check, root, n)
  {
    forall v ensures Within(a, check, root, v, n) <==> Within(b, check, root, v, n) {
      if Within(a, check, root, v, n) { WithinSame(a, b, check, root, v, n); }
      if Within(b, check, root, v, n) { WithinSame(b, a, check, root, v, n); }
    }
    hide Within, UsersOf, Reads, Writes;
  }
}
