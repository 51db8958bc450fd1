/** Counting checks and choosing the core ones, from `lib/SanitizerCheckCollector.cpp`. */
module Collector {

  datatype SanitizerKind = ASan | UBSan | MemSan | UnknownKind

  datatype ClassifiedCheck = ClassifiedCheck(sanitizer: SanitizerKind, checkType: string)

  datatype CheckStat = CheckStat(sanitizer: SanitizerKind, checkType: string, count: nat, ratio: real)

  type Counts = map<SanitizerKind, map<string, nat>>

  function TypesOf(counts: Counts, k: SanitizerKind): map<string, nat>
  {
    if k in counts then counts[k] else map[]
  }

  function CountOf(types: map<string, nat>, t: string): nat
  {
    if t in types then types[t] else 0
  }

  function TotalOf(totals: map<SanitizerKind, nat>, k: SanitizerKind): nat
  {
    if k in totals then totals[k] else 0
  }

  ghost function Sum(types: map<string, nat>): nat
    decreases |types|
  {
    if types == map[] then 0
    else
      var t :| t in types;
      types[t] + Sum(types - {t})
  }

  lemma {:induction false} SumWithout(types: map<string, nat>, t: string)
    requires t in types
    ensures Sum(types) == types[t] + Sum(types - {t})
    decreases |types|
  {
    var u :| u in types && Sum(types) == types[u] + Sum(types - {u});
    if u != t {
      SumWithout(types - {u}, t);
      SumWithout(types - {t}, u);
      assert types - {u} - {t} == types - {t} - {u};
    }
  }

  lemma SumBump(types: map<string, nat>, t: string)
    ensures Sum(types[t := CountOf(types, t) + 1]) == Sum(types) + 1
  {
    var bumped := types[t := CountOf(types, t) + 1];
    SumWithout(bumped, t);
    if t in types {
      SumWithout(types, t);
      assert bumped - {t} == types - {t};
    } else {
      assert bumped - {t} == types;
    }
  }

  // ----- order of statistics -----

  /** Strings in lexicographic order. */
  predicate TypeLess(a: string, b: string)
  {
    if b == [] then false
    else if a == [] then true
    else if a[0] != b[0] then a[0] < b[0]
    else TypeLess(a[1..], b[1..])
  }

  lemma {:induction false} TypeOrder(a: string, b: string, c: string)
    ensures !(TypeLess(a, b) && TypeLess(b, a))
    ensures TypeLess(a, b) || TypeLess(b, a) <==> a != b
    ensures TypeLess(a, b) && TypeLess(b, c) ==> TypeLess(a, c)
  {
    if a != [] && b != [] {
      assert a == [a[0]] + a[1..] && b == [b[0]] + b[1..];
      TypeOrder(a[1..], b[1..], if c == [] then c else c[1..]);
    }
  }

  /** b follows where a ends, or at the first place where they differ. */
  ghost predicate DiffersAt(a: string, b: string, k: nat)
  {
    && k <= |a| && k < |b| && a[..k] == b[..k]
    && (k < |a| ==> a[k] < b[k])
  }

  lemma {:induction false} TypeLessMeans(a: string, b: string)
    ensures TypeLess(a, b) <==> exists k: nat :: DiffersAt(a, b, k)
  {
    if b != [] && a == [] {
      assert DiffersAt(a, b, 0);
    } else if b != [] && a[0] != b[0] {
      assert a[0] < b[0] ==> DiffersAt(a, b, 0);
      forall k: nat | DiffersAt(a, b, k) ensures k == 0 {
      }
    } else if b != [] {
      TypeLessMeans(a[1..], b[1..]);
      if TypeLess(a[1..], b[1..]) {
        var k: nat :| DiffersAt(a[1..], b[1..], k);
        assert a[..k + 1] == [a[0]] + a[1..][..k] && b[..k + 1] == [b[0]] + b[1..][..k];
        assert DiffersAt(a, b, k + 1);
      }
      forall k: nat | DiffersAt(a, b, k) ensures k > 0 && DiffersAt(a[1..], b[1..], k - 1) {
        assert a[1..][..k - 1] == a[..k][1..] && b[1..][..k - 1] == b[..k][1..];
      }
    }
  }

  /** sanitizerKindName. */
  function Name(k: SanitizerKind): string
  {
    match k
    case ASan => "ASan"
    case UBSan => "UBSan"
    case MemSan => "MemSan"
    case UnknownKind => "Unknown"
  }

  /** The ranks order the sanitizers by name. */
  lemma RankIsByName(a: SanitizerKind, b: SanitizerKind)
    ensures NameRank(a) < NameRank(b) <==> TypeLess(Name(a), Name(b))
  {
    if a == b {
      TypeOrder(Name(a), Name(a), Name(a));
    }
  }

  /** The order of the names ASan, MemSan, UBSan, Unknown. */
  function NameRank(k: SanitizerKind): nat
  {
    match k
    case ASan => 0
    case MemSan => 1
    case UBSan => 2
    case UnknownKind => 3
  }

  /** Larger counts first, then the sanitizer's name, then the check type. */
  predicate Before(a: CheckStat, b: CheckStat)
  {
    if a.count != b.count then a.count > b.count
    else if a.sanitizer != b.sanitizer then NameRank(a.sanitizer) < NameRank(b.sanitizer)
    else TypeLess(a.checkType, b.checkType)
  }

  /** The order in words: more often, or as often and a smaller sanitizer name, or the same sanitizer and a smaller type. */
  lemma BeforeExact(a: CheckStat, b: CheckStat)
    ensures Before(a, b) <==>
            || a.count > b.count
            || (a.count == b.count && TypeLess(Name(a.sanitizer), Name(b.sanitizer)))
            || (a.count == b.count && a.sanitizer == b.sanitizer && TypeLess(a.checkType, b.checkType))
  {
    RankIsByName(a.sanitizer, b.sanitizer);
    TypeOrder(Name(a.sanitizer), Name(a.sanitizer), Name(a.sanitizer));
  }

  lemma BeforeOrder(a: CheckStat, b: CheckStat, c: CheckStat)
    ensures !(Before(a, b) && Before(b, a))
    ensures Before(a, b) || Before(b, a) || (a.sanitizer == b.sanitizer && a.checkType == b.checkType && a.count == b.count)
    ensures Before(a, b) && Before(b, c) ==> Before(a, c)
  {
    TypeOrder(a.checkType, b.checkType, c.checkType);
  }

  ghost predicate SortedStats(s: seq<CheckStat>)
  {
    forall i, j :: 0 <= i < j < |s| ==> !Before(s[j], s[i])
  }

  lemma SortedSplice(s: seq<CheckStat>, i: nat, x: CheckStat)
    requires SortedStats(s) && i <= |s|
    requires forall j :: 0 <= j < i ==> !Before(x, s[j])
    requires i < |s| ==> Before(x, s[i])
    ensures SortedStats(s[..i] + [x] + s[i..])
  {
    hide Before;
    forall j | i <= j < |s| ensures !Before(s[j], x) {
      BeforeOrder(s[j], x, s[i]);
      BeforeOrder(x, s[j], x);
    }
  }

  /** The library sort, by insertion. */
  method SortStats(stats: seq<CheckStat>) returns (r: seq<CheckStat>)
    ensures SortedStats(r) && multiset(r) == multiset(stats)
  {
    hide Before;
    r := [];
    for n := 0 to |stats|
      invariant SortedStats(r) && multiset(r) == multiset(stats[..n])
    {
      var x := stats[n];
      assert stats[..n + 1] == stats[..n] + [x];
      var i := 0;
      while i < |r| && !Before(x, r[i])
        invariant i <= |r| && forall j :: 0 <= j < i ==> !Before(x, r[j])
      {
        i := i + 1;
      }
      SortedSplice(r, i, x);
      assert r == r[..i] + r[i..];
      r := r[..i] + [x] + r[i..];
    }
    assert stats[..|stats|] == stats;
  }

  lemma FirstIsFirst(a: seq<CheckStat>, x: CheckStat)
    requires SortedStats(a) && x in a
    ensures x == a[0] || !Before(x, a[0])
  {
    hide Before;
    var i :| 0 <= i < |a| && a[i] == x;
  }

  /** Two sorted lists of the same statistics are the same list. */
  lemma {:induction false} SortedUnique(a: seq<CheckStat>, b: seq<CheckStat>)
    requires SortedStats(a) && SortedStats(b) && multiset(a) == multiset(b)
    requires forall s, t :: s in a && t in a && s != t ==> Before(s, t) || Before(t, s)
    ensures a == b
  {
    hide Before;
    SameMembers(a, b);
    if a != [] {
      FirstIsFirst(a, b[0]);
      FirstIsFirst(b, a[0]);
      assert a[0] == b[0];
      assert a == [a[0]] + a[1..] && b == [b[0]] + b[1..];
      assert multiset(a[1..]) == multiset(a) - multiset{a[0]};
      assert multiset(b[1..]) == multiset(b) - multiset{b[0]};
      TailKeeps(a);
      TailKeeps(b);
      SortedUnique(a[1..], b[1..]);
    }
  }

  lemma TailKeeps(a: seq<CheckStat>)
    requires SortedStats(a) && a != []
    ensures SortedStats(a[1..]) && forall s :: s in a[1..] ==> s in a
  {
    hide Before;
  }

  // ----- choosing -----

  /** RatioWithinSanitizer: a percentage. */
  function Ratio(count: nat, total: nat): real
  {
    if total == 0 then 0.0 else 100.0 * count as real / total as real
  }

  /** Percentages of a total: the parts add up, and the whole is 100. */
  lemma RatioShares(a: nat, b: nat, total: nat)
    ensures Ratio(a, total) + Ratio(b, total) == Ratio(a + b, total)
    ensures Ratio(total, total) == if total == 0 then 0.0 else 100.0
    ensures Ratio(0, total) == 0.0
  {
    if total > 0 {
      var t := total as real;
      assert 100.0 * (a + b) as real == 100.0 * a as real + 100.0 * b as real;
      AddQuotients(100.0 * a as real, 100.0 * b as real, t);
      assert 100.0 * t / t == 100.0;
    }
  }

  lemma AddQuotients(x: real, y: real, t: real)
    requires t > 0.0
    ensures x / t + y / t == (x + y) / t
  {
  }

  /** How many statistics reach the ratio. */
  function Meeting(stats: seq<CheckStat>, minRatio: real): (n: nat)
    ensures n <= |stats|
  {
    if stats == [] then 0
    else Meeting(stats[..|stats| - 1], minRatio) + if stats[|stats| - 1].ratio >= minRatio then 1 else 0
  }

  /** At least one, those that reach the ratio, and no more than the limit if there is one. */
  function PickLength(stats: seq<CheckStat>, limit: nat, minRatio: real): (n: nat)
    ensures n <= |stats|
  {
    var wanted := if Meeting(stats, minRatio) == 0 then 1 else Meeting(stats, minRatio);
    if stats == [] then 0 else if limit != 0 && limit < wanted then limit else wanted
  }

  /** The ratios of a sanitizer's statistics, sorted by count, never rise. */
  ghost predicate Falling(stats: seq<CheckStat>)
  {
    forall i, j :: 0 <= i <= j < |stats| ==> stats[i].ratio >= stats[j].ratio
  }

  /** So those that reach the ratio come first. */
  lemma {:induction false} MeetingFirst(stats: seq<CheckStat>, minRatio: real, i: nat)
    requires Falling(stats) && i < |stats|
    ensures stats[i].ratio >= minRatio <==> i < Meeting(stats, minRatio)
  {
    var most := stats[..|stats| - 1];
    if i < |most| {
      MeetingFirst(most, minRatio, i);
      if stats[|stats| - 1].ratio >= minRatio {
        AllMeet(most, minRatio);
      }
    } else if stats[i].ratio >= minRatio {
      AllMeet(most, minRatio);
    }
  }

  lemma {:induction false} AllMeet(stats: seq<CheckStat>, minRatio: real)
    requires forall s :: s in stats ==> s.ratio >= minRatio
    ensures Meeting(stats, minRatio) == |stats|
  {
    if stats != [] {
      AllMeet(stats[..|stats| - 1], minRatio);
      assert stats[|stats| - 1] in stats;
    }
  }

  /**
   picked is the beginning of stats: at least one entry, no more than the limit
   if there is one, only entries that reach the ratio after the first, and all
   that reach it unless the limit is exhausted.
   */
  ghost predicate PickedFrom(stats: seq<CheckStat>, limit: nat, minRatio: real, picked: seq<CheckStat>)
  {
    && picked <= stats
    && (limit != 0 ==> |picked| <= limit)
    && (stats != [] ==> picked != [])
    && (forall i :: 1 <= i < |picked| ==> stats[i].ratio >= minRatio)
    && (forall i :: |picked| <= i < |stats| && stats[i].ratio >= minRatio ==> limit != 0 && |picked| == limit)
  }

  /** There is only one such choice, and it is the one that is made. */
  lemma PickedIsUnique(stats: seq<CheckStat>, limit: nat, minRatio: real, picked: seq<CheckStat>)
    requires Falling(stats)
    ensures PickedFrom(stats, limit, minRatio, picked) <==> picked == stats[..PickLength(stats, limit, minRatio)]
  {
    forall i | 0 <= i < |stats| ensures stats[i].ratio >= minRatio <==> i < Meeting(stats, minRatio) {
      MeetingFirst(stats, minRatio, i);
    }
    hide Meeting;
    var n := Meeting(stats, minRatio);
    if PickedFrom(stats, limit, minRatio, picked) && picked != [] {
      assert |picked| > 1 ==> stats[|picked| - 1].ratio >= minRatio;
      assert |picked| < |stats| ==> stats[|picked|].ratio >= minRatio ==> limit != 0 && |picked| == limit;
      assert |picked| == PickLength(stats, limit, minRatio);
    }
  }

  lemma RatioFalls(a: nat, b: nat, total: nat)
    requires a >= b
    ensures Ratio(a, total) >= Ratio(b, total)
  {
    if total > 0 {
      var t := total as real;
      assert 100.0 * a as real >= 100.0 * b as real;
      DivideFalls(100.0 * a as real, 100.0 * b as real, t);
    }
  }

  lemma DivideFalls(x: real, y: real, t: real)
    requires x >= y && t > 0.0
    ensures x / t >= y / t
  {
    assert x / t - y / t == (x - y) / t;
  }

  /** The inner loop of identifyCoreChecks: the statistics it adds are a prefix of the sorted list. */
  method PickCore(stats: seq<CheckStat>, limit: nat, minRatio: real) returns (picked: seq<CheckStat>)
    requires Falling(stats)
    ensures picked == stats[..PickLength(stats, limit, minRatio)]
    ensures limit != 0 ==> |picked| <= limit
    ensures stats != [] ==> |picked| >= 1
    ensures forall i :: 1 <= i < |picked| ==> picked[i].ratio >= minRatio
    ensures forall s :: s in stats && s.ratio >= minRatio ==> s in picked || (limit != 0 && |picked| == limit)
  {
    PickedIsUnique(stats, limit, minRatio, stats[..PickLength(stats, limit, minRatio)]);
    picked := [];
    var added := 0;
    ghost var length := PickLength(stats, limit, minRatio);
    for i := 0 to |stats|
      invariant added == if i < length then i else length
      invariant picked == stats[..added]
    {
      MeetingFirst(stats, minRatio, i);
      if limit != 0 && added >= limit {
        break;
      }
      if stats[i].ratio < minRatio && added > 0 {
        continue;
      }
      picked := picked + [stats[i]];
      added := added + 1;
    }
  }

  // ----- the collector -----

  /** What getStatsForSanitizer reports of the recorded counts: one entry per check type. */
  ghost predicate StatsOf(types: map<string, nat>, k: SanitizerKind, total: nat, stats: seq<CheckStat>)
  {
    && |stats| == |types|
    && forall s :: s in stats <==>
         s.checkType in types && s == CheckStat(k, s.checkType, types[s.checkType], Ratio(types[s.checkType], total))
  }

  lemma StatsFall(types: map<string, nat>, k: SanitizerKind, total: nat, stats: seq<CheckStat>)
    requires StatsOf(types, k, total, stats) && SortedStats(stats)
    ensures Falling(stats)
  {
    hide Ratio, TypeLess;
    forall i, j | 0 <= i <= j < |stats| ensures stats[i].ratio >= stats[j].ratio {
      assert stats[i] in stats && stats[j] in stats;
      if i < j {
        assert !Before(stats[j], stats[i]);
      }
      RatioFalls(stats[i].count, stats[j].count, total);
    }
  }

  /** Counts are the numbers of recorded checks. */
  ghost predicate Counted(counts: Counts, recorded: seq<ClassifiedCheck>)
  {
    forall k, t {:trigger ClassifiedCheck(k, t)} ::
      CountOf(TypesOf(counts, k), t) == multiset(recorded)[ClassifiedCheck(k, t)]
  }

  /** The counts of a sanitizer's types add up to its total. */
  ghost predicate Summed(counts: Counts, totals: map<SanitizerKind, nat>)
  {
    forall k {:trigger TotalOf(totals, k)} :: Sum(TypesOf(counts, k)) == TotalOf(totals, k)
  }

  /** Recorded checks are counted by type, types add up to sanitizers, and sanitizers to the total. */
  ghost predicate Tallied(counts: Counts, totals: map<SanitizerKind, nat>, total: nat, recorded: seq<ClassifiedCheck>)
  {
    && Counted(counts, recorded) && Summed(counts, totals)
    && TotalOf(totals, UnknownKind) == 0
    && total == TotalOf(totals, ASan) + TotalOf(totals, UBSan) + TotalOf(totals, MemSan)
    && total == |recorded|
  }

  function Bumped(counts: Counts, check: ClassifiedCheck): Counts
  {
    var types := TypesOf(counts, check.sanitizer);
    counts[check.sanitizer := types[check.checkType := CountOf(types, check.checkType) + 1]]
  }

  lemma BumpedCounts(counts: Counts, recorded: seq<ClassifiedCheck>, check: ClassifiedCheck)
    requires Counted(counts, recorded)
    ensures Counted(Bumped(counts, check), recorded + [check])
  {
    assert multiset(recorded + [check]) == multiset(recorded) + multiset{check};
    forall k, t ensures CountOf(TypesOf(Bumped(counts, check), k), t) == multiset(recorded + [check])[ClassifiedCheck(k, t)] {
      assert CountOf(TypesOf(counts, k), t) == multiset(recorded)[ClassifiedCheck(k, t)];
    }
  }

  lemma BumpedSums(counts: Counts, totals: map<SanitizerKind, nat>, check: ClassifiedCheck)
    requires Summed(counts, totals)
    ensures Summed(Bumped(counts, check), totals[check.sanitizer := TotalOf(totals, check.sanitizer) + 1])
  {
    hide Sum;
    var k0 := check.sanitizer;
    SumBump(TypesOf(counts, k0), check.checkType);
    forall k ensures Sum(TypesOf(Bumped(counts, check), k)) == TotalOf(totals[k0 := TotalOf(totals, k0) + 1], k) {
      assert Sum(TypesOf(counts, k)) == TotalOf(totals, k);
    }
  }

  lemma RecordKeeps(counts: Counts, totals: map<SanitizerKind, nat>, total: nat, recorded: seq<ClassifiedCheck>,
                    check: ClassifiedCheck)
    requires Tallied(counts, totals, total, recorded) && check.sanitizer != UnknownKind
    ensures Tallied(Bumped(counts, check), totals[check.sanitizer := TotalOf(totals, check.sanitizer) + 1],
                    total + 1, recorded + [check])
  {
    hide Counted, Summed, Bumped;
    BumpedCounts(counts, recorded, check);
    BumpedSums(counts, totals, check);
  }

  class SanitizerCheckCollector {
    var checkCounts: Counts
    var sanitizerTotals: map<SanitizerKind, nat>
    var totalChecks: nat
    /** The checks recorded so far. */
    ghost var recorded: seq<ClassifiedCheck>

    ghost predicate Valid()
      reads this
    {
      Tallied(checkCounts, sanitizerTotals, totalChecks, recorded)
    }

    constructor ()
      ensures Valid() && recorded == [] && totalChecks == 0
    {
      checkCounts, sanitizerTotals, totalChecks, recorded := map[], map[], 0, [];
    }

    method RecordCheck(check: ClassifiedCheck)
      requires Valid()
      modifies this
      ensures Valid()
      ensures recorded == old(recorded) + if check.sanitizer == UnknownKind || check.checkType == [] then [] else [check]
    {
      hide Tallied;
      if check.sanitizer == UnknownKind || check.checkType == [] {
        assert recorded == recorded + [];
        return;
      }
      var k, t := check.sanitizer, check.checkType;
      RecordKeeps(checkCounts, sanitizerTotals, totalChecks, recorded, check);
      var types := TypesOf(checkCounts, k);
      checkCounts := checkCounts[k := types[t := CountOf(types, t) + 1]];
      sanitizerTotals := sanitizerTotals[k := TotalOf(sanitizerTotals, k) + 1];
      totalChecks := totalChecks + 1;
      recorded := recorded + [check];
    }

    method GetStatsForSanitizer(k: SanitizerKind) returns (stats: seq<CheckStat>)
      ensures SortedStats(stats) && StatsOf(TypesOf(checkCounts, k), k, TotalOf(sanitizerTotals, k), stats)
    {
      var types, total := TypesOf(checkCounts, k), TotalOf(sanitizerTotals, k);
      var left := types.Keys;
      var listed: seq<CheckStat> := [];
      while left != {}
        invariant left <= types.Keys && |listed| + |left| == |types|
        invariant forall s :: s in listed <==>
          s.checkType in types.Keys - left && s == CheckStat(k, s.checkType, types[s.checkType], Ratio(types[s.checkType], total))
        decreases left
      {
        var t :| t in left;
        left := left - {t};
        listed := listed + [CheckStat(k, t, types[t], Ratio(types[t], total))];
      }
      stats := SortStats(listed);
      SameMembers(stats, listed);
    }

    /** The core checks: a prefix of each sanitizer's sorted statistics, sorted together. */
    method IdentifyCoreChecks(limit: nat, minRatio: real)
        returns (core: seq<CheckStat>, ghost asan: seq<CheckStat>, ghost ubsan: seq<CheckStat>, ghost memsan: seq<CheckStat>)
      ensures SortedStats(asan) && StatsOf(TypesOf(checkCounts, ASan), ASan, TotalOf(sanitizerTotals, ASan), asan)
      ensures SortedStats(ubsan) && StatsOf(TypesOf(checkCounts, UBSan), UBSan, TotalOf(sanitizerTotals, UBSan), ubsan)
      ensures SortedStats(memsan) && StatsOf(TypesOf(checkCounts, MemSan), MemSan, TotalOf(sanitizerTotals, MemSan), memsan)
      ensures SortedStats(core)
      ensures multiset(core) == multiset(asan[..PickLength(asan, limit, minRatio)]
          + ubsan[..PickLength(ubsan, limit, minRatio)] + memsan[..PickLength(memsan, limit, minRatio)])
      ensures PickedFrom(asan, limit, minRatio, asan[..PickLength(asan, limit, minRatio)])
      ensures PickedFrom(ubsan, limit, minRatio, ubsan[..PickLength(ubsan, limit, minRatio)])
      ensures PickedFrom(memsan, limit, minRatio, memsan[..PickLength(memsan, limit, minRatio)])
    {
      hide PickedFrom;
      hide SortedStats, StatsOf, Falling, PickLength, Before;
      var stats := GetStatsForSanitizer(ASan);
      StatsFall(TypesOf(checkCounts, ASan), ASan, TotalOf(sanitizerTotals, ASan), stats);
      PickedIsUnique(stats, limit, minRatio, stats[..PickLength(stats, limit, minRatio)]);
      var core0 := PickCore(stats, limit, minRatio);
      asan := stats;
      stats := GetStatsForSanitizer(UBSan);
      StatsFall(TypesOf(checkCounts, UBSan), UBSan, TotalOf(sanitizerTotals, UBSan), stats);
      PickedIsUnique(stats, limit, minRatio, stats[..PickLength(stats, limit, minRatio)]);
      var core1 := PickCore(stats, limit, minRatio);
      ubsan := stats;
      stats := GetStatsForSanitizer(MemSan);
      StatsFall(TypesOf(checkCounts, MemSan), MemSan, TotalOf(sanitizerTotals, MemSan), stats);
      PickedIsUnique(stats, limit, minRatio, stats[..PickLength(stats, limit, minRatio)]);
      var core2 := PickCore(stats, limit, minRatio);
      memsan := stats;
      core := SortStats(core0 + core1 + core2);
    }
  }

  lemma SameMembers(a: seq<CheckStat>, b: seq<CheckStat>)
    requires multiset(a) == multiset(b)
    ensures |a| == |b| && forall s :: s in a <==> s in b
  {
    assert |a| == |multiset(a)| && |b| == |multiset(b)|;
    forall s ensures s in a <==> s in b {
      assert s in a <==> s in multiset(a);
      assert s in b <==> s in multiset(b);
    }
  }
}
