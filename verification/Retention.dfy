/**
 One retention run: expired managed objects are deleted oldest first up to a cap, and superseded on-chain states are
 pruned up to a cap shared by all Twins.
 */
module Retention {
  import opened Sorting

  const DAY: nat := 86_400_000

  /* ---- Working through a list under a cap ---- */

  /** The items that are tried, one after another until `cap` of them succeeded, and the number of successes. */
  function Work<T>(items: seq<T>, succeeds: T -> bool, cap: nat): (seq<T>, nat) {
    if items == [] then ([], 0)
    else
      var (tried, done) := Work(items[..|items| - 1], succeeds, cap);
      var last := items[|items| - 1];
      if done >= cap then (tried, done) else (tried + [last], done + if succeeds(last) then 1 else 0)
  }

  function Successes<T>(items: seq<T>, succeeds: T -> bool): nat {
    if items == [] then 0
    else Successes(items[..|items| - 1], succeeds) + if succeeds(items[|items| - 1]) then 1 else 0
  }

  /** What is tried is a prefix that stops only when the cap is reached; every item is done, failed or left by the cap. */
  lemma {:induction false} WorkSpec<T>(items: seq<T>, succeeds: T -> bool, cap: nat)
    ensures var (tried, done) := Work(items, succeeds, cap);
            && tried <= items
            && done == Successes(tried, succeeds) <= |tried|
            && done <= cap
            && (|tried| < |items| ==> done == cap)
  {
    if items != [] {
      var rest := items[..|items| - 1];
      WorkSpec(rest, succeeds, cap);
      var (tried, done) := Work(rest, succeeds, cap);
      if done < cap {
        var last := items[|items| - 1];
        assert tried == rest;
        assert tried + [last] == items;
        assert (tried + [last])[..|tried|] == tried;
      }
    }
  }

  lemma {:induction false} SuccessesGrow<T>(items: seq<T>, n: nat, succeeds: T -> bool)
    requires n <= |items|
    ensures Successes(items[..n], succeeds) <= Successes(items, succeeds) <= |items|
    ensures Successes(items[..n], succeeds) <= n
  {
    if items != [] {
      var rest := items[..|items| - 1];
      SuccessesGrow(rest, if n < |items| then n else n - 1, succeeds);
      assert n < |items| ==> rest[..n] == items[..n];
      assert n == |items| ==> items[..n] == items;
    }
  }

  /** An item is tried exactly when fewer than `cap` of the items before it succeed. */
  lemma {:induction false} TriedExactly<T>(items: seq<T>, succeeds: T -> bool, cap: nat, k: nat)
    requires k < |items|
    ensures k < |Work(items, succeeds, cap).0| <==> Successes(items[..k], succeeds) < cap
  {
    var rest := items[..|items| - 1];
    var (tried, done) := Work(rest, succeeds, cap);
    WorkSpec(rest, succeeds, cap);
    if k < |rest| {
      TriedExactly(rest, succeeds, cap, k);
      assert rest[..k] == items[..k];
    } else {
      assert items[..k] == rest && tried == rest[..|tried|];
      assert done < cap ==> tried == rest;
      SuccessesGrow(rest, |tried|, succeeds);
    }
  }

  lemma WorkNothing<T>(succeeds: T -> bool, cap: nat)
    ensures Work([], succeeds, cap) == ([], 0)
  {}

  lemma WorkStep<T>(items: seq<T>, x: T, succeeds: T -> bool, cap: nat)
    ensures var (tried, done) := Work(items, succeeds, cap);
            Work(items + [x], succeeds, cap) == if done >= cap then (tried, done) else (tried + [x], done + if succeeds(x) then 1 else 0)
  {}

  lemma {:induction false} AllSucceed<T>(items: seq<T>, succeeds: T -> bool)
    requires forall x :: x in items ==> succeeds(x)
    ensures Successes(items, succeeds) == |items|
  {
    if items != [] {
      AllSucceed(items[..|items| - 1], succeeds);
    }
  }

  /* ---- Managed objects ---- */

  /** `createdAt` is both the sort key and the age: the listing's ISO 8601 timestamps order as they compare. */
  datatype Managed = Managed(uri: string, twin: string, category: string, createdAt: int)

  predicate Older(a: Managed, b: Managed) {
    a.createdAt <= b.createdAt
  }

  /** Who owns a Twin, and how many days the owner keeps objects; None for an unresolved owner and for "forever". */
  datatype Rules = Rules(owners: map<string, string>, days: map<string, nat>)

  datatype Fate = Ignored | Unresolved | Kept | Expired

  function FateOf(o: Managed, rules: Rules, now: int): Fate {
    if o.category == "plants" || o.twin == "unscoped" then Ignored
    else if o.twin !in rules.owners then Unresolved
    else
      var owner := rules.owners[o.twin];
      if owner !in rules.days || o.createdAt > now - rules.days[owner] * DAY then Kept else Expired
  }

  function ExpiredOf(objects: seq<Managed>, rules: Rules, now: int): seq<Managed> {
    if objects == [] then []
    else
      var last := objects[|objects| - 1];
      ExpiredOf(objects[..|objects| - 1], rules, now) + if FateOf(last, rules, now).Expired? then [last] else []
  }

  function UnresolvedOf(objects: seq<Managed>, rules: Rules, now: int): nat {
    if objects == [] then 0
    else UnresolvedOf(objects[..|objects| - 1], rules, now) + if FateOf(objects[|objects| - 1], rules, now).Unresolved? then 1 else 0
  }

  /** Whether deleting an object succeeds, given which URIs can be deleted. */
  function ByUri(deletable: string -> bool): Managed -> bool {
    (o: Managed) => deletable(o.uri)
  }

  function Always(): string -> bool {
    (uri: string) => true
  }

  datatype Deletions = Deletions(eligible: nat, deleted: nat, failed: nat, skippedUnresolved: nat, capped: bool)

  /** `attempts` lists the objects whose deletion is asked for, in order. */
  method DeleteExpired(objects: seq<Managed>, rules: Rules, now: int, cap: nat, deletable: string -> bool)
    returns (r: Deletions, attempts: seq<Managed>)
    ensures var expired := ExpiredOf(Sort(objects, Older), rules, now);
            && (attempts, r.deleted) == Work(expired, ByUri(deletable), cap)
            && r.eligible == |expired| && r.deleted + r.failed == |attempts|
            && r.skippedUnresolved == UnresolvedOf(Sort(objects, Older), rules, now)
            && r.capped == (|attempts| < |expired|)
  {
    hide FateOf, Work, Sort;
    var sorted := Sort(objects, Older);
    WorkNothing(ByUri(deletable), cap);
    var eligible, deleted, failed, skipped := 0, 0, 0, 0;
    var succeeds := ByUri(deletable);
    attempts := [];
    for i := 0 to |sorted|
      invariant eligible == |ExpiredOf(sorted[..i], rules, now)|
      invariant (attempts, deleted) == Work(ExpiredOf(sorted[..i], rules, now), succeeds, cap)
      invariant deleted + failed == |attempts| <= eligible
      invariant skipped == UnresolvedOf(sorted[..i], rules, now)
    {
      assert sorted[..i + 1][..i] == sorted[..i];
      var entry := sorted[i];
      ghost var before := ExpiredOf(sorted[..i], rules, now);
      assert ExpiredOf(sorted[..i + 1], rules, now) == if FateOf(entry, rules, now).Expired? then before + [entry] else before;
      match FateOf(entry, rules, now) {
        case Ignored =>
        case Unresolved => skipped := skipped + 1;
        case Kept =>
        case Expired =>
          WorkStep(before, entry, succeeds, cap);
          eligible := eligible + 1;
          if deleted < cap {
            attempts := attempts + [entry];
            if deletable(entry.uri) {
              deleted := deleted + 1;
            } else {
              failed := failed + 1;
            }
          }
      }
    }
    assert sorted[..|sorted|] == sorted;
    r := Deletions(eligible, deleted, failed, skipped, eligible > deleted + failed);
  }

  lemma OlderIsOrder()
    ensures TotalPreorder(Older)
  {}

  lemma {:induction false} ExpiredMembers(objects: seq<Managed>, rules: Rules, now: int)
    ensures forall o :: o in ExpiredOf(objects, rules, now) <==> o in objects && FateOf(o, rules, now).Expired?
  {
    hide FateOf;
    if objects != [] {
      ExpiredMembers(objects[..|objects| - 1], rules, now);
      assert objects == objects[..|objects| - 1] + [objects[|objects| - 1]];
    }
  }

  lemma {:induction false} ExpiredSorted(objects: seq<Managed>, rules: Rules, now: int)
    requires Sorted(objects, Older)
    ensures Sorted(ExpiredOf(objects, rules, now), Older)
  {
    hide FateOf;
    if objects != [] {
      var rest := objects[..|objects| - 1];
      ExpiredSorted(rest, rules, now);
      ExpiredMembers(rest, rules, now);
      var kept := ExpiredOf(rest, rules, now);
      forall i | 0 <= i < |kept|
        ensures kept[i].createdAt <= objects[|objects| - 1].createdAt
      {
        assert kept[i] in rest;
      }
    }
  }

  /** The attempts of a run, as DeleteExpired makes them. */
  function Attempts(objects: seq<Managed>, rules: Rules, now: int, cap: nat, deletable: string -> bool): (seq<Managed>, nat) {
    Work(ExpiredOf(Sort(objects, Older), rules, now), ByUri(deletable), cap)
  }

  /** The object is managed for an owner who keeps objects for some days, and is at least that old. */
  ghost predicate Overdue(o: Managed, rules: Rules, now: int) {
    && !(o.category == "plants" || o.twin == "unscoped")
    && exists owner :: o.twin in rules.owners && rules.owners[o.twin] == owner && owner in rules.days
                       && now - o.createdAt >= rules.days[owner] * 24 * 60 * 60 * 1000
  }

  lemma OverdueIs(o: Managed, rules: Rules, now: int)
    ensures FateOf(o, rules, now).Expired? <==> Overdue(o, rules, now)
  {}

  /** The expired objects of a listing are exactly those overdue, oldest first. */
  lemma ExpiredOldestFirst(objects: seq<Managed>, rules: Rules, now: int)
    ensures var expired := ExpiredOf(Sort(objects, Older), rules, now);
            && (forall i, j :: 0 <= i < j < |expired| ==> expired[i].createdAt <= expired[j].createdAt)
            && (forall o :: o in expired <==> o in objects && Overdue(o, rules, now))
  {
    hide FateOf, Overdue;
    OlderIsOrder();
    SortSpec(objects, Older);
    SortMembers(objects, Older);
    ExpiredMembers(Sort(objects, Older), rules, now);
    ExpiredSorted(Sort(objects, Older), rules, now);
    forall o | o in objects ensures FateOf(o, rules, now).Expired? <==> Overdue(o, rules, now) {
      OverdueIs(o, rules, now);
    }
  }

  /** The object is managed, but its Twin has no known owner. */
  ghost predicate Ownerless(o: Managed, rules: Rules) {
    !(o.category == "plants" || o.twin == "unscoped") && o.twin !in rules.owners
  }

  ghost function OwnerlessAt(objects: seq<Managed>, rules: Rules): set<int> {
    set i | 0 <= i < |objects| && Ownerless(objects[i], rules)
  }

  /** Skipped as unresolved are exactly the managed objects whose Twin has no known owner. */
  lemma {:induction false} UnresolvedCounts(objects: seq<Managed>, rules: Rules, now: int)
    ensures UnresolvedOf(objects, rules, now) == |OwnerlessAt(objects, rules)|
  {
    if objects != [] {
      var n := |objects| - 1;
      UnresolvedCounts(objects[..n], rules, now);
      assert FateOf(objects[n], rules, now).Unresolved? <==> Ownerless(objects[n], rules);
      hide Ownerless, FateOf;
      assert OwnerlessAt(objects, rules) == OwnerlessAt(objects[..n], rules) + if Ownerless(objects[n], rules) then {n} else {};
    }
  }

  /** Deletion attempts are a prefix of the expired objects that falls short only at the cap. */
  lemma AttemptsArePrefix(objects: seq<Managed>, rules: Rules, now: int, cap: nat, deletable: string -> bool)
    ensures var expired := ExpiredOf(Sort(objects, Older), rules, now);
            var (attempts, deleted) := Attempts(objects, rules, now, cap, deletable);
            attempts <= expired && deleted <= cap && (attempts != expired ==> deleted == cap)
  {
    WorkSpec(ExpiredOf(Sort(objects, Older), rules, now), ByUri(deletable), cap);
  }

  /* ---- Repeated runs ---- */

  predicate DistinctUris(objects: seq<Managed>) {
    forall i, j :: 0 <= i < j < |objects| ==> objects[i].uri != objects[j].uri
  }

  /** What is left of the listing after some objects are gone. */
  function Without(objects: seq<Managed>, gone: seq<Managed>): seq<Managed> {
    if objects == [] then []
    else Without(objects[..|objects| - 1], gone) + if objects[|objects| - 1] in gone then [] else [objects[|objects| - 1]]
  }

  /** The expired objects, as a set. */
  ghost function ExpiredSet(objects: seq<Managed>, rules: Rules, now: int): set<Managed> {
    set o | o in objects && Overdue(o, rules, now)
  }

  lemma {:induction false} WithoutMembers(objects: seq<Managed>, gone: seq<Managed>)
    ensures forall o :: o in Without(objects, gone) <==> o in objects && o !in gone
    ensures DistinctUris(objects) ==> DistinctUris(Without(objects, gone))
  {
    if objects != [] {
      var rest := objects[..|objects| - 1];
      var last := objects[|objects| - 1];
      WithoutMembers(rest, gone);
      assert objects == rest + [last];
      if DistinctUris(objects) {
        assert DistinctUris(rest);
        var kept := Without(rest, gone);
        forall i | 0 <= i < |kept|
          ensures kept[i].uri != last.uri
        {
          assert kept[i] in rest;
        }
      }
    }
  }

  lemma {:induction false} ExpiredDistinct(objects: seq<Managed>, rules: Rules, now: int)
    requires DistinctUris(objects)
    ensures DistinctUris(ExpiredOf(objects, rules, now))
  {
    hide FateOf;
    if objects != [] {
      var rest := objects[..|objects| - 1];
      ExpiredDistinct(rest, rules, now);
      ExpiredMembers(rest, rules, now);
      var kept := ExpiredOf(rest, rules, now);
      forall i | 0 <= i < |kept|
        ensures kept[i].uri != objects[|objects| - 1].uri
      {
        assert kept[i] in rest;
      }
    }
  }

  lemma {:induction false} SetSize(s: seq<Managed>)
    requires DistinctUris(s)
    ensures |set o | o in s| == |s|
  {
    if s != [] {
      var rest := s[..|s| - 1];
      SetSize(rest);
      assert s == rest + [s[|s| - 1]];
      assert (set o | o in s) == (set o | o in rest) + {s[|s| - 1]};
      forall i | 0 <= i < |rest|
        ensures rest[i] != s[|s| - 1]
      {
        assert rest[i].uri != s[|s| - 1].uri;
      }
    }
  }

  lemma SortDistinct(objects: seq<Managed>)
    requires DistinctUris(objects)
    ensures DistinctUris(Sort(objects, Older))
  {
    OlderIsOrder();
    SortSpec(objects, Older);
    SortMembers(objects, Older);
    var sorted := Sort(objects, Older);
    forall i, j | 0 <= i < j < |sorted|
      ensures sorted[i].uri != sorted[j].uri
    {
      assert sorted[i] in objects && sorted[j] in objects;
      TwiceInMultiset(objects, sorted, i, j);
    }
  }

  lemma TwiceInMultiset(objects: seq<Managed>, sorted: seq<Managed>, i: nat, j: nat)
    requires DistinctUris(objects) && multiset(sorted) == multiset(objects) && i < j < |sorted|
    ensures sorted[i] != sorted[j]
  {
    var x := sorted[i];
    OnceInMultiset(objects, x);
    assert sorted == sorted[..j] + [sorted[j]] + sorted[j + 1..];
    assert multiset(sorted)[sorted[j]] == multiset(sorted[..j])[sorted[j]] + 1 + multiset(sorted[j + 1..])[sorted[j]];
    assert sorted[..j][i] == x;
    assert x in multiset(sorted[..j]);
  }

  lemma {:induction false} OnceInMultiset(objects: seq<Managed>, x: Managed)
    requires DistinctUris(objects)
    ensures multiset(objects)[x] <= 1
  {
    if objects != [] {
      var rest := objects[..|objects| - 1];
      OnceInMultiset(rest, x);
      assert objects == rest + [objects[|objects| - 1]];
      if x == objects[|objects| - 1] {
        assert forall i :: 0 <= i < |rest| ==> rest[i].uri != x.uri;
        assert x !in rest;
      }
    }
  }

  /** The listing after one run in which every deletion succeeds. */
  function AfterRun(objects: seq<Managed>, rules: Rules, now: int, cap: nat): seq<Managed> {
    Without(objects, Attempts(objects, rules, now, cap, Always()).0)
  }

  function Min(a: nat, b: nat): nat {
    if a <= b then a else b
  }

  /** A run deletes as many expired objects as the cap allows and touches nothing else. */
  lemma RunShrinks(objects: seq<Managed>, rules: Rules, now: int, cap: nat)
    requires DistinctUris(objects)
    ensures var after := AfterRun(objects, rules, now, cap);
            && DistinctUris(after)
            && |ExpiredSet(after, rules, now)| == |ExpiredSet(objects, rules, now)| - Min(cap, |ExpiredSet(objects, rules, now)|)
            && (forall o :: o in objects && !Overdue(o, rules, now) ==> o in after)
  {
    hide FateOf, Overdue, Sort, Work, Without, ExpiredOf, Successes;
    var always := Always();
    var expired := ExpiredOf(Sort(objects, Older), rules, now);
    var (attempts, deleted) := Attempts(objects, rules, now, cap, always);
    ExpiredOldestFirst(objects, rules, now);
    AttemptsArePrefix(objects, rules, now, cap, always);
    var succeeds := ByUri(always);
    WorkSpec(expired, succeeds, cap);
    AllSucceed(attempts, succeeds);
    WithoutMembers(objects, attempts);
    SortDistinct(objects);
    ExpiredDistinct(Sort(objects, Older), rules, now);
    SetSize(expired);
    SetSize(attempts);
    var gone := set o | o in attempts;
    assert (set o | o in expired) == ExpiredSet(objects, rules, now);
    assert forall o :: o in attempts ==> o in expired;
    assert ExpiredSet(AfterRun(objects, rules, now, cap), rules, now) == ExpiredSet(objects, rules, now) - gone;
    assert gone <= ExpiredSet(objects, rules, now);
    SubsetSize(ExpiredSet(objects, rules, now), gone);
  }

  lemma SubsetSize<T>(a: set<T>, b: set<T>)
    requires b <= a
    ensures |a - b| == |a| - |b|
  {}

  function AfterRuns(objects: seq<Managed>, rules: Rules, now: int, cap: nat, runs: nat): seq<Managed> {
    if runs == 0 then objects else AfterRun(AfterRuns(objects, rules, now, cap, runs - 1), rules, now, cap)
  }

  lemma {:induction false} RunsShrink(objects: seq<Managed>, rules: Rules, now: int, cap: nat, runs: nat)
    requires DistinctUris(objects)
    ensures var left := AfterRuns(objects, rules, now, cap, runs);
            && DistinctUris(left)
            && |ExpiredSet(left, rules, now)| ==
               |ExpiredSet(objects, rules, now)| - Min(runs * cap, |ExpiredSet(objects, rules, now)|)
  {
    hide ExpiredSet, AfterRun;
    if runs > 0 {
      RunsShrink(objects, rules, now, cap, runs - 1);
      RunShrinks(AfterRuns(objects, rules, now, cap, runs - 1), rules, now, cap);
      assert runs * cap == (runs - 1) * cap + cap;
    }
  }

  /** At a fixed clock and without failures, the runs that clear E expired objects are exactly those numbering at least E / cap. */
  lemma RunsNeeded(objects: seq<Managed>, rules: Rules, now: int, cap: nat, runs: nat)
    requires DistinctUris(objects) && cap > 0
    ensures var e := |ExpiredSet(objects, rules, now)|;
            ExpiredSet(AfterRuns(objects, rules, now, cap, runs), rules, now) == {} <==> runs >= (e + cap - 1) / cap
  {
    hide ExpiredSet, AfterRuns;
    RunsShrink(objects, rules, now, cap, runs);
    CeilingDivision(|ExpiredSet(objects, rules, now)|, cap, runs);
    var left := ExpiredSet(AfterRuns(objects, rules, now, cap, runs), rules, now);
    assert |left| == 0 <==> left == {};
  }

  lemma CeilingDivision(e: nat, cap: nat, runs: nat)
    requires cap > 0
    ensures runs * cap >= e <==> runs >= (e + cap - 1) / cap
  {
    var q := (e + cap - 1) / cap;
    assert q * cap <= e + cap - 1 < q * cap + cap;
    if runs >= q {
      assert runs * cap >= q * cap;
    } else {
      assert (runs + 1) * cap <= q * cap;
    }
  }
}
