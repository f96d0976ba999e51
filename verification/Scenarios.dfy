/**
 The scenario registry (integration-tests/src/Framework/ScenarioRegistry.cxx) and the choice of
 the scenarios to run (integration-tests/src/Main.cxx).
 */
module Scenarios {
  import opened Sorting
  import Glob

  datatype Tier = Smoke | Regression | LongRunning

  /** The categories in the order of their declaration. */
  const CATEGORIES := [
    "Platform", "Session", "Database", "Schema", "DataManipulation", "ColumnType", "Navigation",
    "Transaction", "LongValue", "MultiValue", "TemporaryTable", "Escrow", "BackupRestore",
    "Recovery", "Snapshot", "Maintenance", "Limit", "Error", "Scale", "Concurrency",
    "MultiThreaded", "Encryption", "Preread", "Rbs", "Replication", "WideApi", "Tracing"]

  /** A scenario; `instance` tells apart scenarios that were registered with the same name. */
  datatype Scenario = Scenario(category: nat, name: string, tier: Tier, instance: nat)

  function FullName(s: Scenario): string {
    (if s.category < |CATEGORIES| then CATEGORIES[s.category] else "Unknown") + "." + s.name
  }

  lemma CategoriesDotless(c: nat)
    requires c < |CATEGORIES|
    ensures '.' !in CATEGORIES[c] && CATEGORIES[c] != ""
  {
    if c < 7 {
    } else if c < 14 {
    } else if c < 21 {
    } else {
    }
  }

  /** The name up to its first dot is the category's, and the rest is the scenario's own. */
  lemma FullNameReads(s: Scenario)
    ensures var n := if s.category < |CATEGORIES| then |CATEGORIES[s.category]| else 7;
            && |FullName(s)| == n + 1 + |s.name| && FullName(s)[n] == '.' && '.' !in FullName(s)[..n]
            && FullName(s)[n + 1..] == s.name
            && (s.category < |CATEGORIES| ==> FullName(s)[..n] == CATEGORIES[s.category])
  {
    if s.category < |CATEGORIES| {
      CategoriesDotless(s.category);
    }
  }

  // ----- the order of scenarios -----

  /** `a <= b` in the order of `std::string`. */
  predicate NameLeq(a: string, b: string) {
    a == "" || (b != "" && (a[0] < b[0] || (a[0] == b[0] && NameLeq(a[1..], b[1..]))))
  }

  predicate ScenarioLeq(a: Scenario, b: Scenario) {
    a.category < b.category || (a.category == b.category && NameLeq(a.name, b.name))
  }

  lemma {:induction false} NameLeqTotal(a: string, b: string)
    ensures NameLeq(a, b) || NameLeq(b, a)
  {
    if a != "" && b != "" && a[0] == b[0] {
      NameLeqTotal(a[1..], b[1..]);
    }
  }

  lemma {:induction false} NameLeqTransitive(a: string, b: string, c: string)
    requires NameLeq(a, b) && NameLeq(b, c)
    ensures NameLeq(a, c)
  {
    if a != "" && b != "" && c != "" && a[0] == b[0] == c[0] {
      NameLeqTransitive(a[1..], b[1..], c[1..]);
    }
  }

  /** `a` comes before `b` at the first character in which they differ, or as a prefix. */
  lemma {:induction false} NameLeqIs(a: string, b: string)
    ensures NameLeq(a, b) <==> a <= b || exists k :: 0 <= k < |a| && k < |b| && a[..k] == b[..k] && a[k] < b[k]
  {
    if a != "" && b != "" && a[0] == b[0] {
      var x, y := a[1..], b[1..];
      NameLeqIs(x, y);
      assert a == [a[0]] + x && b == [b[0]] + y;
      assert a <= b <==> x <= y;
      if k :| 0 <= k < |x| && k < |y| && x[..k] == y[..k] && x[k] < y[k] {
        assert a[..k + 1] == [a[0]] + x[..k] && b[..k + 1] == [b[0]] + y[..k];
        assert a[k + 1] < b[k + 1];
      }
      if k :| 0 <= k < |a| && k < |b| && a[..k] == b[..k] && a[k] < b[k] {
        assert x[..k - 1] == a[..k][1..] && y[..k - 1] == b[..k][1..];
        assert x[k - 1] < y[k - 1];
      }
    } else if a != "" && b != "" && a[0] < b[0] {
      assert a[..0] == b[..0];
    } else if a != "" {
      assert forall k :: 0 < k < |a| && k < |b| && a[..k] == b[..k] ==> a[..k][0] == b[..k][0];
    }
  }

  /** Sorted scenarios have ascending categories, and ascending names within one category. */
  lemma SortedMeans(s: seq<Scenario>, i: nat, j: nat)
    requires Sorted(s, ScenarioLeq) && i < j < |s|
    ensures s[i].category <= s[j].category
    ensures s[i].category == s[j].category ==>
              || s[i].name <= s[j].name
              || exists k :: 0 <= k < |s[i].name| && k < |s[j].name| && s[i].name[..k] == s[j].name[..k] && s[i].name[k] < s[j].name[k]
  {
    NameLeqIs(s[i].name, s[j].name);
  }

  lemma ScenarioOrder()
    ensures TotalPreorder(ScenarioLeq)
  {
    forall x, y ensures ScenarioLeq(x, y) || ScenarioLeq(y, x) {
      NameLeqTotal(x.name, y.name);
    }
    forall x, y, z | ScenarioLeq(x, y) && ScenarioLeq(y, z) ensures ScenarioLeq(x, z) {
      if x.category == y.category == z.category {
        NameLeqTransitive(x.name, y.name, z.name);
      }
    }
  }

  // ----- order-preserving selection -----

  function Keep<T(!new)>(s: seq<T>, p: T -> bool): (r: seq<T>)
    ensures |r| <= |s|
    ensures forall x :: x in r <==> x in s && p(x)
  {
    if s == [] then []
    else
      var rest := Keep(s[1..], p);
      assert s == [s[0]] + s[1..];
      if p(s[0]) then [s[0]] + rest else rest
  }

  /** `r` is what is left of `s` after deleting elements. */
  predicate Sublist<T(==)>(r: seq<T>, s: seq<T>)
    decreases |s|
  {
    if r == [] then true
    else s != [] && if r[0] == s[0] then Sublist(r[1..], s[1..]) else Sublist(r, s[1..])
  }

  lemma {:induction false} KeepIsSublist<T(!new)>(s: seq<T>, p: T -> bool)
    ensures Sublist(Keep(s, p), s)
  {
    if s != [] {
      KeepIsSublist(s[1..], p);
      var kept := Keep(s, p);
      if p(s[0]) {
        assert kept[1..] == Keep(s[1..], p);
      } else if kept != [] {
        assert kept[0] in kept;
      }
    }
  }

  lemma {:induction false} KeepAppend<T(!new)>(s: seq<T>, x: T, p: T -> bool)
    ensures Keep(s + [x], p) == Keep(s, p) + if p(x) then [x] else []
  {
    if s == [] {
      assert s + [x] == [x] && [x][1..] == [];
    } else {
      KeepAppend(s[1..], x, p);
      assert (s + [x])[1..] == s[1..] + [x];
    }
  }

  // ----- the registry -----

  function MatchesPattern(pattern: string): Scenario -> bool {
    (s: Scenario) => Accepts(pattern, s)
  }

  /** Whether the glob matcher accepts the scenario's full name. */
  predicate Accepts(pattern: string, s: Scenario) {
    Glob.Accepts(pattern, FullName(s))
  }

  class Registry {
    var scenarios: seq<Scenario>

    constructor ()
      ensures scenarios == []
    {
      scenarios := [];
    }

    method Register(s: Scenario)
      modifies this
      ensures scenarios == old(scenarios) + [s]
    {
      scenarios := scenarios + [s];
    }

    /** Every registered scenario, sorted by category and then by name. */
    method All() returns (all: seq<Scenario>)
      ensures multiset(all) == multiset(scenarios)
      ensures Sorted(all, ScenarioLeq)
    {
      all := Sort(scenarios, ScenarioLeq);
      ScenarioOrder();
      SortPermutes(scenarios, ScenarioLeq);
      SortSorts(scenarios, ScenarioLeq);
    }

    /** The registered scenarios that the pattern accepts, each as often as it is registered, in order. */
    method Filtered(pattern: string) returns (matching: seq<Scenario>)
      ensures Sorted(matching, ScenarioLeq)
      ensures forall s :: multiset(matching)[s] == if Accepts(pattern, s) then multiset(scenarios)[s] else 0
    {
      hide ScenarioLeq, Glob.Scan, Glob.Matches, Glob.Accepts, FullName, Sort;
      var all := All();
      matching := [];
      for i := 0 to |all|
        invariant matching == Keep(all[..i], MatchesPattern(pattern))
      {
        var matched := Glob.MatchesGlob(pattern, FullName(all[i]));
        KeepAppend(all[..i], all[i], MatchesPattern(pattern));
        assert all[..i + 1] == all[..i] + [all[i]];
        if matched {
          matching := matching + [all[i]];
        }
      }
      assert all[..|all|] == all;
      FilteredIsRight(scenarios, all, pattern);
    }
  }

  lemma FilteredIsRight(registered: seq<Scenario>, all: seq<Scenario>, pattern: string)
    requires multiset(all) == multiset(registered) && Sorted(all, ScenarioLeq)
    ensures var matching := Keep(all, MatchesPattern(pattern));
            && Sorted(matching, ScenarioLeq)
            && forall s :: multiset(matching)[s] == if Accepts(pattern, s) then multiset(registered)[s] else 0
  {
    hide ScenarioLeq, Keep, Accepts;
    var matching := Keep(all, MatchesPattern(pattern));
    KeepSorted(all, MatchesPattern(pattern));
    forall s ensures multiset(matching)[s] == if Accepts(pattern, s) then multiset(registered)[s] else 0 {
      KeepCount(all, MatchesPattern(pattern), s);
    }
  }

  lemma {:induction false} KeepSorted(s: seq<Scenario>, p: Scenario -> bool)
    requires Sorted(s, ScenarioLeq)
    ensures Sorted(Keep(s, p), ScenarioLeq)
  {
    hide ScenarioLeq;
    if s != [] {
      KeepSorted(s[1..], p);
      var rest := Keep(s[1..], p);
      forall i | 0 <= i < |rest| ensures ScenarioLeq(s[0], rest[i]) {
        assert rest[i] in rest && rest[i] in s[1..];
      }
    }
  }

  lemma {:induction false} KeepCount<T(!new)>(s: seq<T>, p: T -> bool, x: T)
    ensures multiset(Keep(s, p))[x] == if p(x) then multiset(s)[x] else 0
  {
    if s != [] {
      KeepCount(s[1..], p, x);
      assert s == [s[0]] + s[1..];
    }
  }

  // ----- the choice of tiers -----

  predicate EveryLongRunning(matched: seq<Scenario>) {
    forall i :: 0 <= i < |matched| ==> matched[i].tier.LongRunning?
  }

  /** The tiers to run: those asked for; otherwise all but long-running ones, unless nothing else matched. */
  predicate TierChosen(matched: seq<Scenario>, selected: seq<Tier>, tier: Tier) {
    if selected != [] then tier in selected
    else tier != LongRunning || (matched != [] && EveryLongRunning(matched))
  }

  method TierAllowed(selected: seq<Tier>, candidate: Tier) returns (allowed: bool)
    ensures allowed <==> candidate in selected
  {
    for i := 0 to |selected|
      invariant candidate !in selected[..i]
    {
      if selected[i] == candidate {
        return true;
      }
    }
    assert selected[..|selected|] == selected;
    return false;
  }

  method SelectTiers(matched: seq<Scenario>, requested: seq<Tier>) returns (selected: seq<Tier>)
    ensures forall tier :: tier in selected <==> TierChosen(matched, requested, tier)
  {
    selected := requested;
    var explicit := |selected| != 0;
    if !explicit {
      selected := [Smoke, Regression];
    }
    if !explicit {
      var everyMatchIsLongRunning := |matched| != 0;
      for i := 0 to |matched|
        invariant everyMatchIsLongRunning <==> matched != [] && EveryLongRunning(matched[..i])
      {
        if matched[i].tier != LongRunning {
          everyMatchIsLongRunning := false;
          assert !EveryLongRunning(matched);
          break;
        }
      }
      assert matched[..|matched|] == matched;
      if everyMatchIsLongRunning {
        selected := selected + [LongRunning];
      }
    }
    assert forall tier: Tier :: tier.Smoke? || tier.Regression? || tier.LongRunning?;
  }

  function ChosenFrom(matched: seq<Scenario>, selected: seq<Tier>): Scenario -> bool {
    (s: Scenario) => TierChosen(matched, selected, s.tier)
  }

  /** Splits the matches into those to run and a count of those suppressed by their tier. */
  method Choose(matched: seq<Scenario>, requested: seq<Tier>) returns (matching: seq<Scenario>, suppressed: nat)
    ensures matching == Keep(matched, ChosenFrom(matched, requested))
    ensures Sublist(matching, matched) && |matching| + suppressed == |matched|
    ensures forall s :: s in matching <==> s in matched && TierChosen(matched, requested, s.tier)
  {
    var selected := SelectTiers(matched, requested);
    matching, suppressed := [], 0;
    for i := 0 to |matched|
      invariant matching == Keep(matched[..i], ChosenFrom(matched, requested))
      invariant |matching| + suppressed == i
    {
      KeepAppend(matched[..i], matched[i], ChosenFrom(matched, requested));
      assert matched[..i + 1] == matched[..i] + [matched[i]];
      var allowed := TierAllowed(selected, matched[i].tier);
      if !allowed {
        suppressed := suppressed + 1;
        continue;
      }
      matching := matching + [matched[i]];
    }
    assert matched[..|matched|] == matched;
    KeepIsSublist(matched, ChosenFrom(matched, requested));
  }

  /** Whether the filter, by the declarative meaning of its pattern, names the scenario. */
  ghost predicate Meant(filter: string, s: Scenario) {
    Glob.Matches(if filter == "" then "*" else filter, FullName(s))
  }

  /** The run list for the registered scenarios that a filter names. */
  ghost predicate Planned(scenarios: seq<Scenario>, named: Scenario -> bool, requested: seq<Tier>, matching: seq<Scenario>) {
    if requested != [] then
      forall s :: s in matching <==> s in scenarios && named(s) && s.tier in requested
    else
      var onlyLong := forall t :: t in scenarios && named(t) ==> t.tier.LongRunning?;
      forall s :: s in matching <==> s in scenarios && named(s) && (s.tier.LongRunning? ==> onlyLong)
  }

  lemma ChoiceIsPlanned(scenarios: seq<Scenario>, named: Scenario -> bool, matched: seq<Scenario>,
                        requested: seq<Tier>, matching: seq<Scenario>)
    requires forall s :: s in matched <==> s in scenarios && named(s)
    requires forall s :: s in matching <==> s in matched && TierChosen(matched, requested, s.tier)
    ensures Planned(scenarios, named, requested, matching)
  {
  }

  lemma PlannedAgree(scenarios: seq<Scenario>, named: Scenario -> bool, meant: Scenario -> bool,
                     requested: seq<Tier>, matching: seq<Scenario>)
    requires forall s :: s in scenarios ==> (named(s) <==> meant(s))
    requires Planned(scenarios, named, requested, matching)
    ensures Planned(scenarios, meant, requested, matching)
  {
  }

  /**
   What a run executes: of the accepted scenarios, in sorted order and each as often as it is
   registered, the sublist that the tiers choose; the others are counted as suppressed. For names
   without a `*` the accepted scenarios are those that the filter declaratively means.
   */
  method Plan(registry: Registry, filter: string, requested: seq<Tier>)
    returns (matched: seq<Scenario>, matching: seq<Scenario>, suppressed: nat)
    ensures Sorted(matched, ScenarioLeq) && Sorted(matching, ScenarioLeq)
    ensures forall s :: multiset(matched)[s] == if Accepted(filter, s) then multiset(registry.scenarios)[s] else 0
    ensures Sublist(matching, matched) && |matching| + suppressed == |matched|
    ensures forall s :: multiset(matching)[s] == if TierChosen(matched, requested, s.tier) then multiset(matched)[s] else 0
    ensures Planned(registry.scenarios, s => Accepted(filter, s), requested, matching)
    ensures (forall s :: s in registry.scenarios ==> '*' !in FullName(s)) ==>
              Planned(registry.scenarios, s => Meant(filter, s), requested, matching)
  {
    hide Glob.Scan, ScenarioLeq, FullName, Glob.Accepts, Planned, TierChosen, Sublist, Keep;
    var pattern := if |filter| == 0 then "*" else filter;
    matched := registry.Filtered(pattern);
    matching, suppressed := Choose(matched, requested);
    KeepSorted(matched, ChosenFrom(matched, requested));
    forall s
      ensures multiset(matching)[s] == if TierChosen(matched, requested, s.tier) then multiset(matched)[s] else 0
    {
      KeepCount(matched, ChosenFrom(matched, requested), s);
    }
    ghost var scenarios := registry.scenarios;
    MatchedIsNamed(scenarios, matched, filter);
    ghost var accepted := (s: Scenario) => Accepted(filter, s);
    ChoiceIsPlanned(scenarios, accepted, matched, requested, matching);
    if forall s :: s in scenarios ==> '*' !in FullName(s) {
      ghost var meant := (s: Scenario) => Meant(filter, s);
      forall s | s in scenarios
        ensures accepted(s) <==> meant(s)
      {
        Glob.Sound(pattern, FullName(s));
        Glob.Complete(pattern, FullName(s));
      }
      PlannedAgree(scenarios, accepted, meant, requested, matching);
    }
  }

  lemma MatchedIsNamed(scenarios: seq<Scenario>, matched: seq<Scenario>, filter: string)
    requires forall s :: multiset(matched)[s] == if Accepted(filter, s) then multiset(scenarios)[s] else 0
    ensures forall s :: s in matched <==> s in scenarios && Accepted(filter, s)
  {
    hide Accepted;
    forall s
      ensures s in matched <==> s in scenarios && Accepted(filter, s)
    {
      assert s in matched <==> multiset(matched)[s] > 0;
      assert s in scenarios <==> multiset(scenarios)[s] > 0;
    }
  }

  /** Whether the matcher, run on the filter, accepts the scenario; no filter is `*`. */
  predicate Accepted(filter: string, s: Scenario) {
    Glob.Accepts(if filter == "" then "*" else filter, FullName(s))
  }
}
