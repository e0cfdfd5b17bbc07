/**
 Deleting a Twin: the consistent snapshot of its child registry and the bounded, resumable loop that
 submits one planned batch after another.
 */
module TwinDeletion {
  import opened Wrappers
  import opened TwinCleanup

  const MAX_BATCHES: nat := 256
  const READ_CHUNK: nat := 50

  datatype DeletionError =
    | InProgress | Unsupported | PlanFailed(cause: PlanError) | EventsRequired | RetryRequired | SubmissionFailed

  datatype Done = TwinDeleted | EventsDeleted

  /** How the chain treats one call: it accepts so many submissions, and the one it refuses may still have landed. */
  datatype Answer = Answer(accepted: nat, landed: bool)

  /* ---- Reading the registry ---- */

  datatype Page = Page(ids: seq<string>, hasNext: bool, hasCursor: bool)
  datatype ChainObject = ChainObject(kind: Kind, parent: string, ownedByTwin: bool)
  datatype SnapshotError = IncompletePage | Inconsistent | ChildUnavailable | OwnershipMismatch

  /** The ids up to the first page that announces no successor, or an error when a page announces one without a cursor. */
  function ListedIds(pages: seq<Page>): Result<seq<string>, SnapshotError> {
    if pages == [] then Ok([])
    else if !pages[0].hasNext then Ok(pages[0].ids)
    else if !pages[0].hasCursor then Err(IncompletePage)
    else Prepend(pages[0].ids, ListedIds(pages[1..]))
  }

  function Prepend(ids: seq<string>, r: Result<seq<string>, SnapshotError>): Result<seq<string>, SnapshotError> {
    match r
    case Err(e) => Err(e)
    case Ok(rest) => Ok(ids + rest)
  }

  method ListIds(pages: seq<Page>) returns (r: Result<seq<string>, SnapshotError>)
    ensures r == ListedIds(pages)
  {
    var ids: seq<string> := [];
    var i := 0;
    ghost var all := ListedIds(pages);
    assert pages[0..] == pages && Prepend([], all) == all by {
      assert all.Ok? ==> [] + all.value == all.value;
    }
    while i < |pages|
      invariant i <= |pages|
      invariant ListedIds(pages) == Prepend(ids, ListedIds(pages[i..]))
    {
      var page := pages[i];
      assert pages[i..][0] == page && pages[i..][1..] == pages[i + 1..];
      ids := ids + page.ids;
      if page.hasNext && !page.hasCursor {
        return Err(IncompletePage);
      }
      if !page.hasNext {
        return Ok(ids);
      }
      ghost var tail := ListedIds(pages[i + 1..]);
      assert tail.Ok? ==> ids[..|ids| - |page.ids|] + (page.ids + tail.value) == ids + tail.value;
      i := i + 1;
    }
    assert ids + [] == ids;
    r := Ok(ids);
  }

  /** The first k pages announce a successor and say where it starts. */
  ghost predicate LeadOn(pages: seq<Page>, k: int) {
    0 <= k <= |pages| && forall i :: 0 <= i < k ==> pages[i].hasNext && pages[i].hasCursor
  }

  /** The listing reaches page k, which announces a successor but does not say where it starts. */
  ghost predicate CutOff(pages: seq<Page>, k: int) {
    LeadOn(pages, k) && k < |pages| && pages[k].hasNext && !pages[k].hasCursor
  }

  /** The listing ends with page k. */
  ghost predicate Complete(pages: seq<Page>, k: int) {
    LeadOn(pages, k) && k < |pages| && !pages[k].hasNext
  }

  /** The ids of the first k pages, in order. */
  ghost function IdsOf(pages: seq<Page>, k: nat): seq<string>
    requires k <= |pages|
  {
    if k == 0 then [] else IdsOf(pages, k - 1) + pages[k - 1].ids
  }

  lemma {:induction false} IdsOfRest(pages: seq<Page>, k: nat)
    requires 0 < k <= |pages|
    ensures IdsOf(pages, k) == pages[0].ids + IdsOf(pages[1..], k - 1)
  {
    if k > 1 {
      IdsOfRest(pages, k - 1);
    }
  }

  lemma LeadOnRest(pages: seq<Page>, k: int)
    requires pages != [] && pages[0].hasNext && pages[0].hasCursor && k > 0
    ensures LeadOn(pages, k) <==> LeadOn(pages[1..], k - 1)
  {
    if LeadOn(pages[1..], k - 1) {
      assert forall i :: 1 <= i < k ==> pages[i] == pages[1..][i - 1];
    }
  }

  /** The listing holds the ids of all pages up to the one that ends it, and is cut off exactly by a missing cursor. */
  lemma {:induction false} ListedExactly(pages: seq<Page>)
    ensures ListedIds(pages) == Err(IncompletePage) <==> exists k :: CutOff(pages, k)
    ensures ListedIds(pages).Err? ==> ListedIds(pages) == Err(IncompletePage)
    ensures forall k :: Complete(pages, k) ==> ListedIds(pages) == Ok(IdsOf(pages, k + 1))
    ensures LeadOn(pages, |pages|) ==> ListedIds(pages) == Ok(IdsOf(pages, |pages|))
  {
    if pages != [] {
      assert LeadOn(pages, 0);
      if pages[0].hasNext && pages[0].hasCursor {
        ListedExactly(pages[1..]);
        forall k | 0 < k
          ensures LeadOn(pages, k) <==> LeadOn(pages[1..], k - 1)
          ensures k <= |pages| ==> IdsOf(pages, k) == pages[0].ids + IdsOf(pages[1..], k - 1)
        {
          LeadOnRest(pages, k);
          if k <= |pages| {
            IdsOfRest(pages, k);
          }
        }
        if k :| CutOff(pages, k) {
          assert CutOff(pages[1..], k - 1);
        }
        if k :| CutOff(pages[1..], k) {
          assert CutOff(pages, k + 1);
        }
        forall k | Complete(pages, k)
          ensures ListedIds(pages) == Ok(IdsOf(pages, k + 1))
        {
          assert Complete(pages[1..], k - 1);
        }
      } else {
        assert CutOff(pages, 0) <==> pages[0].hasNext;
        assert IdsOf(pages, 1) == pages[0].ids;
      }
    }
  }

  /** The first listed id that cannot be read as an object owned by the Twin. */
  ghost predicate FirstUnreadable(listed: Result<seq<string>, SnapshotError>, objects: map<string, ChainObject>, i: int) {
    && listed.Ok? && 0 <= i < |listed.value|
    && !(listed.value[i] in objects && objects[listed.value[i]].ownedByTwin)
    && forall j :: 0 <= j < i ==> listed.value[j] in objects && objects[listed.value[j]].ownedByTwin
  }

  /** The snapshot holds exactly the registered ids, each read as an object owned by the Twin. */
  ghost predicate Faithful(ids: seq<string>, objects: map<string, ChainObject>, children: seq<Child>) {
    && |children| == |ids|
    && forall i :: 0 <= i < |ids| ==>
         ids[i] in objects && objects[ids[i]].ownedByTwin
         && children[i] == Child(ids[i], objects[ids[i]].kind, objects[ids[i]].parent)
  }

  ghost predicate Readable(ids: seq<string>, objects: map<string, ChainObject>) {
    forall id :: id in ids ==> id in objects && objects[id].ownedByTwin
  }

  /**
   A snapshot is taken exactly when the enumeration is complete, has no repeated id, matches the table
   size and every child is readable and owned by the Twin; its children then have distinct ids.
   */
  method Snapshot(pages: seq<Page>, tableSize: nat, objects: map<string, ChainObject>)
    returns (r: Result<seq<Child>, SnapshotError>)
    ensures r.Ok? ==> DistinctIds(r.value) && ListedIds(pages).Ok? && Faithful(ListedIds(pages).value, objects, r.value)
    ensures r.Ok? <==>
            && ListedIds(pages).Ok?
            && |ListedIds(pages).value| == tableSize == |set id | id in ListedIds(pages).value|
            && Readable(ListedIds(pages).value, objects)
    ensures r == Err(IncompletePage) <==> exists k :: CutOff(pages, k)
    ensures r == Err(Inconsistent) <==>
            ListedIds(pages).Ok? && !(|ListedIds(pages).value| == tableSize == |set id | id in ListedIds(pages).value|)
    ensures r == Err(ChildUnavailable) ==> exists i :: FirstUnreadable(ListedIds(pages), objects, i) && ListedIds(pages).value[i] !in objects
    ensures r == Err(OwnershipMismatch) ==> exists i :: FirstUnreadable(ListedIds(pages), objects, i) && ListedIds(pages).value[i] in objects
  {
    hide ListedIds, CutOff;
    ListedExactly(pages);
    var listed := ListIds(pages);
    if listed.Err? {
      return Err(listed.error);
    }
    var ids := listed.value;
    if |ids| != tableSize || |set id | id in ids| != |ids| {
      return Err(Inconsistent);
    }
    DistinctWhenFull(ids);
    var children: seq<Child> := [];
    var start := 0;
    while start < |ids|
      invariant 0 <= start
      invariant |children| == if start <= |ids| then start else |ids|
      invariant Faithful(ids[..|children|], objects, children)
    {
      var chunk := if start + READ_CHUNK <= |ids| then ids[start..start + READ_CHUNK] else ids[start..];
      for i := 0 to |chunk|
        invariant |children| == start + i
        invariant Faithful(ids[..|children|], objects, children)
      {
        var id := chunk[i];
        assert id == ids[start + i];
        if id !in objects {
          assert FirstUnreadable(listed, objects, start + i);
          return Err(ChildUnavailable);
        }
        if !objects[id].ownedByTwin {
          assert FirstUnreadable(listed, objects, start + i);
          return Err(OwnershipMismatch);
        }
        children := children + [Child(id, objects[id].kind, objects[id].parent)];
        assert ids[..|children|] == ids[..start + i] + [id];
      }
      start := start + READ_CHUNK;
    }
    assert ids[..|children|] == ids;
    r := Ok(children);
  }

  /** A sequence with as many distinct values as entries has no repetition. */
  lemma {:induction false} DistinctWhenFull(s: seq<string>)
    ensures |set x | x in s| <= |s|
    ensures |set x | x in s| == |s| ==> forall i, j :: 0 <= i < j < |s| ==> s[i] != s[j]
  {
    if s != [] {
      DistinctWhenFull(s[1..]);
      var rest := set x | x in s[1..];
      assert (set x | x in s) == {s[0]} + rest;
      if s[0] in rest {
        assert {s[0]} + rest == rest;
      }
    }
  }

  /* ---- Event batches ---- */

  function EventsOf(children: seq<Child>): seq<Child> {
    if children == [] then []
    else (if children[0].kind == Event then [children[0]] else []) + EventsOf(children[1..])
  }

  function FirstEvents(children: seq<Child>): seq<Child> {
    var events := EventsOf(children);
    if |events| <= BATCH then events else events[..BATCH]
  }

  function IdSet(children: seq<Child>): set<string> {
    if children == [] then {} else {children[0].id} + IdSet(children[1..])
  }

  function NextEvents(children: seq<Child>): seq<Child> {
    Without(children, IdSet(FirstEvents(children)))
  }

  function AfterEvents(children: seq<Child>, batches: nat): seq<Child> {
    if batches == 0 then children else NextEvents(AfterEvents(children, batches - 1))
  }

  function EventBatches(children: seq<Child>): nat {
    (|EventsOf(children)| + BATCH - 1) / BATCH
  }

  lemma {:induction false} EventsOfMembers(children: seq<Child>)
    ensures forall c :: c in EventsOf(children) <==> c in children && c.kind == Event
  {
    if children != [] {
      EventsOfMembers(children[1..]);
      assert children == [children[0]] + children[1..];
    }
  }

  lemma {:induction false} EventsOfDistinct(children: seq<Child>)
    requires DistinctIds(children)
    ensures DistinctIds(EventsOf(children))
  {
    if children != [] {
      var front, last := children[0], children[1..];
      EventsOfDistinct(last);
      EventsOfMembers(last);
      var rest := EventsOf(last);
      forall j | 0 <= j < |rest|
        ensures front.id != rest[j].id
      {
        assert rest[j] in last;
        var k :| 0 <= k < |last| && last[k] == rest[j];
        assert children[k + 1] == rest[j];
      }
      assert EventsOf(children) == rest || EventsOf(children) == [front] + rest;
    }
  }

  lemma {:induction false} EventsOfWithout(children: seq<Child>, gone: set<string>)
    ensures EventsOf(Without(children, gone)) == Without(EventsOf(children), gone)
  {
    if children != [] {
      EventsOfWithout(children[1..], gone);
      var c, rest := children[0], Without(children[1..], gone);
      assert ([c] + rest)[1..] == rest;
      assert ([c] + EventsOf(children[1..]))[1..] == EventsOf(children[1..]);
      assert [] + rest == rest && [] + EventsOf(children[1..]) == EventsOf(children[1..]);
    }
  }

  lemma {:induction false} IdSetMembers(children: seq<Child>)
    ensures forall id :: id in IdSet(children) <==> exists c :: c in children && c.id == id
  {
    if children != [] {
      IdSetMembers(children[1..]);
    }
  }

  lemma {:induction false} WithoutNothing(children: seq<Child>, gone: set<string>)
    requires forall c :: c in children ==> c.id !in gone
    ensures Without(children, gone) == children
  {
    if children != [] {
      WithoutNothing(children[1..], gone);
    }
  }

  /** Dropping the ids of the first k entries leaves exactly the rest. */
  lemma {:induction false} WithoutPrefix(children: seq<Child>, k: nat, gone: set<string>)
    requires k <= |children|
    requires forall i :: 0 <= i < k ==> children[i].id in gone
    requires forall i :: k <= i < |children| ==> children[i].id !in gone
    ensures Without(children, gone) == children[k..]
    decreases k
  {
    if k == 0 {
      WithoutNothing(children, gone);
    } else {
      WithoutPrefix(children[1..], k - 1, gone);
    }
  }

  /** One bulk step takes the first sixteen events, in registry order, and nothing else. */
  lemma NextEventsTakesSixteen(children: seq<Child>)
    requires DistinctIds(children)
    ensures DistinctIds(NextEvents(children))
    ensures EventsOf(NextEvents(children)) == EventsOf(children)[|FirstEvents(children)|..]
    ensures forall c :: c in children && c.kind != Event ==> c in NextEvents(children)
  {
    var events, first := EventsOf(children), FirstEvents(children);
    var gone := IdSet(first);
    EventsOfMembers(children);
    EventsOfDistinct(children);
    IdSetMembers(first);
    forall i | 0 <= i < |first| ensures events[i].id in gone {
      assert first[i] in first;
    }
    forall i | |first| <= i < |events| ensures events[i].id !in gone {
      forall c | c in first ensures c.id != events[i].id {
        var j :| 0 <= j < |first| && first[j] == c;
        assert events[j] == c;
      }
    }
    EventsOfWithout(children, gone);
    WithoutPrefix(events, |first|, gone);
    WithoutDistinct(children, gone);
    WithoutMembers(children, gone);
    forall c | c in children && c.kind != Event ensures c.id !in gone {
      if c.id in gone {
        var e :| e in first && e.id == c.id;
        assert e in events;
        SameChild(children, c, e);
      }
    }
  }

  lemma {:induction false} AfterEventsCount(children: seq<Child>, n: nat)
    requires DistinctIds(children)
    ensures DistinctIds(AfterEvents(children, n))
    ensures EventsOf(AfterEvents(children, n)) == if n * BATCH <= |EventsOf(children)| then EventsOf(children)[n * BATCH..] else []
  {
    hide DistinctIds, NextEvents;
    if n > 0 {
      AfterEventsCount(children, n - 1);
      NextEventsTakesSixteen(AfterEvents(children, n - 1));
    }
  }

  /** Events have no dependents, so taking them away leaves a well-formed registry. */
  lemma NextEventsWellFormed(children: seq<Child>)
    requires WellFormed(children)
    ensures WellFormed(NextEvents(children))
  {
    hide DistinctIds, Complete, SingleNetworks;
    var gone := IdSet(FirstEvents(children));
    IdSetMembers(FirstEvents(children));
    EventsOfMembers(children);
    forall c | c in children && RequiredParent(c.kind) != Unknown
      ensures c.parent !in gone
    {
      var p := ParentOf(children, c);
      forall e | e in FirstEvents(children)
        ensures e.id != c.parent
      {
        assert e in EventsOf(children);
        if e.id == p.id {
          SameChild(children, p, e);
        }
      }
    }
    WithoutSound(children, gone);
  }

  lemma {:induction false} AfterEventsWellFormed(children: seq<Child>, n: nat)
    requires WellFormed(children)
    ensures WellFormed(AfterEvents(children, n))
  {
    hide WellFormed, NextEvents;
    if n > 0 {
      AfterEventsWellFormed(children, n - 1);
      NextEventsWellFormed(AfterEvents(children, n - 1));
    }
  }

  /** Every bulk step brings the registry one event batch closer to having no events. */
  lemma AfterEventsBatches(children: seq<Child>, n: nat)
    requires DistinctIds(children)
    ensures DistinctIds(AfterEvents(children, n))
    ensures EventBatches(AfterEvents(children, n)) == if n <= EventBatches(children) then EventBatches(children) - n else 0
    ensures EventBatches(children) == 0 <==> EventsOf(children) == []
  {
    hide EventsOf, AfterEvents;
    AfterEventsCount(children, n);
  }

  lemma {:induction false} AfterEventsKeeps(children: seq<Child>, n: nat)
    requires DistinctIds(children)
    ensures forall c :: c in children && c.kind != Event ==> c in AfterEvents(children, n)
  {
    hide DistinctIds, NextEvents;
    if n > 0 {
      AfterEventsKeeps(children, n - 1);
      AfterEventsBatches(children, n - 1);
      NextEventsTakesSixteen(AfterEvents(children, n - 1));
    }
  }

  /* ---- The loop ---- */

  /** The on-chain Twin: whether its root still exists, its deletion flag and its registered children. */
  class Twin {
    const versioned: bool
    var present: bool
    var prepared: bool
    var children: seq<Child>

    constructor (versioned: bool, children: seq<Child>)
      ensures this.versioned == versioned && this.children == children && present && !prepared
    {
      this.versioned, this.children, present, prepared := versioned, children, true, false;
    }
  }

  function Min(a: nat, b: nat): nat {
    if a <= b then a else b
  }

  lemma WellFormedPlans(children: seq<Child>)
    requires WellFormed(children)
    ensures Plan(children).Ok?
  {
    if children != [] {
      PlanIsSafe(children);
    }
  }

  lemma EmptyIsSingle()
    ensures SingleNetworks([])
  {}

  /** How many batches take effect in one call that needs n of them. */
  function BatchesRun(n: nat, accepted: nat, landed: bool): nat {
    var ran := Min(Min(n, accepted), MAX_BATCHES);
    if accepted < Min(n, MAX_BATCHES) && landed then ran + 1 else ran
  }

  function RootGone(n: nat, accepted: nat, landed: bool): bool {
    n < MAX_BATCHES && (n < accepted || (n == accepted && landed))
  }

  function DeletionOutcome(n: nat, accepted: nat): Result<Done, DeletionError> {
    if accepted < MAX_BATCHES && accepted <= n then Err(SubmissionFailed)
    else if n <= 255 then Ok(TwinDeleted)
    else Err(RetryRequired)
  }

  function EventOutcome(n: nat, accepted: nat): Result<Done, DeletionError> {
    if accepted < Min(n, MAX_BATCHES) then Err(SubmissionFailed)
    else if n <= 255 then Ok(EventsDeleted)
    else Err(RetryRequired)
  }

  /**
   With submissions to spare one call removes all events exactly when there are at most 4080 of them, and otherwise the
   first 4096; nothing else goes.
   */
  lemma EventsInOneCall(children: seq<Child>, accepted: nat, landed: bool)
    requires DistinctIds(children) && accepted >= MAX_BATCHES
    ensures var events, n := EventsOf(children), EventBatches(children);
            var left := AfterEvents(children, BatchesRun(n, accepted, landed));
            && EventOutcome(n, accepted) == (if |events| <= 4080 then Ok(EventsDeleted) else Err(RetryRequired))
            && EventsOf(left) == events[Min(|events|, 4096)..]
            && (forall c :: c in children && c.kind != Event ==> c in left)
  {
    hide DistinctIds, EventsOf, AfterEvents;
    var ran := BatchesRun(EventBatches(children), accepted, landed);
    AfterEventsCount(children, ran);
    AfterEventsKeeps(children, ran);
  }

  /** With two networks of one interface the plan after the m batches of members and indicators is refused. */
  function DuplicateOutcome(m: nat, accepted: nat): Result<Done, DeletionError> {
    if accepted < Min(m, MAX_BATCHES) then Err(SubmissionFailed)
    else if m <= 255 then Err(PlanFailed(DuplicateNetwork))
    else Err(RetryRequired)
  }

  /** Each outcome by the number of batches needed and of submissions accepted: at most 256 submissions per call, of which deleting the root is one. */
  lemma OutcomesExactly(n: nat, accepted: nat, landed: bool)
    ensures DeletionOutcome(n, accepted) == Ok(TwinDeleted) <==> n < 256 && n < accepted
    ensures DeletionOutcome(n, accepted) == Err(RetryRequired) <==> 256 <= n && 256 <= accepted
    ensures DeletionOutcome(n, accepted) == Err(SubmissionFailed) <==> accepted < 256 && accepted <= n
    ensures EventOutcome(n, accepted) == Ok(EventsDeleted) <==> n < 256 && n <= accepted
    ensures EventOutcome(n, accepted) == Err(RetryRequired) <==> 256 <= n && 256 <= accepted
    ensures EventOutcome(n, accepted) == Err(SubmissionFailed) <==> accepted < 256 && accepted < n
    ensures DuplicateOutcome(n, accepted) == Err(PlanFailed(DuplicateNetwork)) <==> n < 256 && n <= accepted
    ensures DuplicateOutcome(n, accepted) == Err(RetryRequired) <==> 256 <= n && 256 <= accepted
    ensures DuplicateOutcome(n, accepted) == Err(SubmissionFailed) <==> accepted < 256 && accepted < n
    ensures RootGone(n, accepted, landed) <==> DeletionOutcome(n, accepted).Ok? || (n < 256 && accepted == n && landed)
    ensures BatchesRun(n, accepted, landed) <= n && BatchesRun(n, accepted, landed) <= 256
    ensures accepted < n && accepted < 256 ==> BatchesRun(n, accepted, landed) == if landed then accepted + 1 else accepted
    ensures n <= accepted && n < 256 ==> BatchesRun(n, accepted, landed) == n
    ensures 256 <= n && 256 <= accepted ==> BatchesRun(n, accepted, landed) == 256
  {}

  class Publisher {
    var deleting: set<string>

    constructor ()
      ensures deleting == {}
    {
      deleting := {};
    }

    /**
     `accepted` submissions go through before the chain refuses one; `landed` says whether the refused
     submission took effect all the same. With submissions to spare the root goes in one call exactly
     when at most 255 batches are needed.
     */
    method CleanupTwin(id: string, twin: Twin, eventsOnly: bool, accepted: nat, landed: bool)
      returns (r: Result<Done, DeletionError>)
      modifies this, twin
      ensures deleting == old(deleting)
      ensures id in old(deleting) ==> r == Err(InProgress) && unchanged(twin)
      ensures id !in old(deleting) && twin.versioned && Plan(old(twin.children)).Err? ==>
                r == Err(PlanFailed(Plan(old(twin.children)).error)) && unchanged(twin)
      ensures id !in old(deleting) && twin.versioned && Plan(old(twin.children)).Ok? && !eventsOnly
              && (!old(twin.prepared) || EventsOf(old(twin.children)) != []) ==>
                r == Err(EventsRequired) && unchanged(twin)
      ensures id !in old(deleting) && old(twin.present) && twin.versioned && WellFormed(old(twin.children))
              && !eventsOnly && old(twin.prepared) && EventsOf(old(twin.children)) == [] ==>
                var n := Batches(old(twin.children));
                && r == DeletionOutcome(n, accepted)
                && twin.children == After(old(twin.children), BatchesRun(n, accepted, landed))
                && twin.present == !RootGone(n, accepted, landed)
      ensures id !in old(deleting) && twin.versioned && Sound(old(twin.children)) && !SingleNetworks(old(twin.children))
              && Plan(old(twin.children)).Ok? && !eventsOnly && old(twin.prepared) && EventsOf(old(twin.children)) == [] ==>
                var m := LeafCount(old(twin.children));
                && r == DuplicateOutcome(m, accepted)
                && twin.children == After(old(twin.children), BatchesRun(m, accepted, landed))
                && twin.present == old(twin.present)
      ensures id !in old(deleting) && twin.versioned && DistinctIds(old(twin.children)) && Plan(old(twin.children)).Ok? && eventsOnly ==>
                var spent := if old(twin.prepared) then 0 else 1;
                && twin.present == old(twin.present)
                && (accepted < spent ==> r == Err(SubmissionFailed) && twin.children == old(twin.children) && twin.prepared == landed)
                && (accepted >= spent ==>
                      var n := EventBatches(old(twin.children));
                      && twin.prepared
                      && r == EventOutcome(n, accepted - spent)
                      && twin.children == AfterEvents(old(twin.children), BatchesRun(n, accepted - spent, landed)))
      ensures id !in old(deleting) && !twin.versioned && eventsOnly ==> r == Err(Unsupported) && unchanged(twin)
      ensures id !in old(deleting) && !twin.versioned && !eventsOnly ==>
                && r == (if accepted == 0 then Err(SubmissionFailed) else Ok(TwinDeleted))
                && twin.present == (old(twin.present) && accepted == 0 && !landed)
                && twin.children == old(twin.children) && twin.prepared == old(twin.prepared)
      ensures old(twin.prepared) ==> twin.prepared
    {
      hide WellFormed, Sound, SingleNetworks, Batches, After, AfterEvents, EventsOf, EventBatches, BatchesRun, DeletionOutcome, DuplicateOutcome,
           EventOutcome, RootGone, DistinctIds, Plan, LeafCount;
      if id in deleting {
        return Err(InProgress);
      }
      deleting := deleting + {id};
      label attempt: {
        if !twin.versioned {
          if eventsOnly {
            r := Err(Unsupported);
          } else if accepted > 0 {
            twin.present := false;
            r := Ok(TwinDeleted);
          } else {
            twin.present := twin.present && !landed;
            r := Err(SubmissionFailed);
          }
          break attempt;
        }
        var initial := PlanCleanup(twin.children);
        if WellFormed(twin.children) {
          WellFormedPlans(twin.children);
        }
        if initial.Err? {
          r := Err(PlanFailed(initial.error));
          break attempt;
        }
        if !eventsOnly && (!twin.prepared || EventsOf(twin.children) != []) {
          r := Err(EventsRequired);
          break attempt;
        }
        var sent := 0;
        if !twin.prepared {
          if accepted == 0 {
            twin.prepared := landed;
            r := Err(SubmissionFailed);
            break attempt;
          }
          twin.prepared, sent := true, 1;
        }
        if eventsOnly {
          r := EventLoop(twin, accepted - sent, landed);
        } else {
          r := BatchLoop(twin, accepted - sent, landed);
        }
      }
      deleting := deleting - {id};
    }

    method EventLoop(twin: Twin, accepted: nat, landed: bool) returns (r: Result<Done, DeletionError>)
      modifies twin`children
      ensures DistinctIds(old(twin.children)) ==>
                var n := EventBatches(old(twin.children));
                && r == EventOutcome(n, accepted)
                && twin.children == AfterEvents(old(twin.children), BatchesRun(n, accepted, landed))
    {
      hide DistinctIds, EventsOf, EventBatches, NextEvents;
      ghost var start := twin.children;
      for batch := 0 to MAX_BATCHES
        invariant batch <= accepted
        invariant twin.children == AfterEvents(start, batch)
        invariant DistinctIds(start) ==> batch <= EventBatches(start)
      {
        if DistinctIds(start) {
          AfterEventsBatches(start, batch);
          AfterEventsBatches(twin.children, 0);
        }
        if EventsOf(twin.children) == [] {
          return Ok(EventsDeleted);
        }
        if batch == accepted {
          if landed {
            twin.children := NextEvents(twin.children);
          }
          return Err(SubmissionFailed);
        }
        twin.children := NextEvents(twin.children);
      }
      r := Err(RetryRequired);
    }

    method BatchLoop(twin: Twin, accepted: nat, landed: bool) returns (r: Result<Done, DeletionError>)
      modifies twin`children, twin`present
      ensures WellFormed(old(twin.children)) && old(twin.present) ==>
                var n := Batches(old(twin.children));
                && r == DeletionOutcome(n, accepted)
                && twin.children == After(old(twin.children), BatchesRun(n, accepted, landed))
                && twin.present == !RootGone(n, accepted, landed)
      ensures Sound(old(twin.children)) && !SingleNetworks(old(twin.children)) ==>
                var m := LeafCount(old(twin.children));
                && r == DuplicateOutcome(m, accepted)
                && twin.children == After(old(twin.children), BatchesRun(m, accepted, landed))
                && twin.present == old(twin.present)
    {
      hide Sound, SingleNetworks, Batches, LeafCount, Plan;
      ghost var start := twin.children;
      for batch := 0 to MAX_BATCHES
        invariant batch <= accepted
        invariant twin.children == After(start, batch) && twin.present == old(twin.present)
        invariant WellFormed(start) ==> batch <= Batches(start)
        invariant Sound(start) && !SingleNetworks(start) ==> batch <= LeafCount(start)
      {
        if WellFormed(start) {
          AfterBatches(start, batch);
          NextBatches(twin.children);
          WellFormedPlans(twin.children);
        } else if Sound(start) {
          DuplicatesFailLate(start, batch);
          EmptyIsSingle();
        }
        if twin.children == [] {
          if batch == accepted {
            twin.present := twin.present && !landed;
            return Err(SubmissionFailed);
          }
          twin.present := false;
          return Ok(TwinDeleted);
        }
        var planned := PlanCleanup(twin.children);
        if planned.Err? {
          return Err(PlanFailed(planned.error));
        }
        if batch == accepted {
          if landed {
            twin.children := Without(twin.children, DeletedBy(planned.value));
          }
          return Err(SubmissionFailed);
        }
        twin.children := Without(twin.children, DeletedBy(planned.value));
      }
      r := Err(RetryRequired);
    }

    /* ---- Calls repeated by the caller ---- */

    /**
     Asks for the events to be deleted until that is reported done, each call having at least one submission accepted.
     With submissions to spare, exactly floor(n / 256) calls ask for a retry.
     */
    method DeleteEvents(id: string, twin: Twin, answers: nat -> Answer) returns (results: seq<Result<Done, DeletionError>>)
      requires id !in deleting && twin.versioned && twin.present && WellFormed(twin.children)
      requires forall k :: answers(k).accepted > 0
      modifies this, twin
      ensures deleting == old(deleting)
      ensures twin.prepared && twin.present && WellFormed(twin.children) && EventsOf(twin.children) == []
      ensures forall c :: c in old(twin.children) && c.kind != Event ==> c in twin.children
      ensures |results| <= EventBatches(old(twin.children)) + 2
      ensures (forall k :: answers(k).accepted > MAX_BATCHES) ==>
                results == Retries(EventBatches(old(twin.children)) / MAX_BATCHES) + [Ok(EventsDeleted)]
    {
      hide WellFormed, DistinctIds, Plan, EventsOf, EventBatches, AfterEvents;
      ghost var start, n := twin.children, EventBatches(twin.children);
      results := [];
      ghost var removed: nat := 0;
      AfterEventsNone(start);
      var finished := false;
      while !finished
        invariant deleting == old(deleting) && twin.present && twin.versioned
        invariant twin.children == AfterEvents(start, removed) && removed <= n
        invariant finished ==> twin.prepared && removed == n
        invariant |results| <= removed + (if twin.prepared then 1 else 0) + (if finished then 1 else 0)
        invariant (forall k :: answers(k).accepted > MAX_BATCHES) ==>
                    if finished then results == Retries(n / MAX_BATCHES) + [Ok(EventsDeleted)]
                    else removed == MAX_BATCHES * |results| && results == Retries(|results|)
        decreases !finished, n - removed, !twin.prepared
      {
        AfterEventsWellFormed(start, removed);
        WellFormedPlans(twin.children);
        WellFormedDistinct(start);
        WellFormedDistinct(twin.children);
        AfterEventsBatches(start, removed);
        var answer := answers(|results|);
        ghost var spent := if twin.prepared then 0 else 1;
        ghost var ran := BatchesRun(n - removed, answer.accepted - spent, answer.landed);
        AfterEventsMore(start, removed, ran);
        var r := CleanupTwin(id, twin, true, answer.accepted, answer.landed);
        removed := removed + ran;
        results := results + [r];
        finished := r == Ok(EventsDeleted);
      }
      AfterEventsWellFormed(start, n);
      WellFormedDistinct(start);
      AfterEventsBatches(start, n);
      AfterEventsBatches(twin.children, 0);
      AfterEventsKeeps(start, n);
    }

    /**
     Asks for the Twin to be deleted until its root is gone, each call having at least one submission accepted. With
     submissions to spare, exactly floor(n / 256) calls ask for a retry.
     */
    method DeleteRoot(id: string, twin: Twin, answers: nat -> Answer) returns (results: seq<Result<Done, DeletionError>>)
      requires id !in deleting && twin.versioned && twin.present && WellFormed(twin.children)
      requires twin.prepared && EventsOf(twin.children) == []
      requires forall k :: answers(k).accepted > 0
      modifies this, twin
      ensures deleting == old(deleting)
      ensures !twin.present && twin.children == []
      ensures |results| <= Batches(old(twin.children)) + 1
      ensures (forall k :: answers(k).accepted > MAX_BATCHES) ==>
                results == Retries(Batches(old(twin.children)) / MAX_BATCHES) + [Ok(TwinDeleted)]
    {
      hide WellFormed, Plan, EventsOf, Batches, After;
      ghost var start, n := twin.children, Batches(twin.children);
      results := [];
      ghost var removed: nat := 0;
      AfterNone(start);
      while twin.present
        invariant deleting == old(deleting) && twin.versioned && twin.prepared
        invariant twin.children == After(start, removed) && removed <= n
        invariant !twin.present ==> removed == n
        invariant |results| <= removed + if twin.present then 0 else 1
        invariant (forall k :: answers(k).accepted > MAX_BATCHES) ==>
                    if !twin.present then results == Retries(n / MAX_BATCHES) + [Ok(TwinDeleted)]
                    else removed == MAX_BATCHES * |results| && results == Retries(|results|)
        decreases twin.present, n - removed
      {
        AfterBatches(start, removed);
        WellFormedPlans(twin.children);
        AfterWithoutEvents(start, removed);
        var answer := answers(|results|);
        ghost var ran := BatchesRun(n - removed, answer.accepted, answer.landed);
        AfterMore(start, removed, ran);
        var r := CleanupTwin(id, twin, false, answer.accepted, answer.landed);
        removed := removed + ran;
        results := results + [r];
      }
      AfterBatches(start, n);
      NextBatches(twin.children);
    }

    /** From any well-formed registry, the two actions repeated one after the other end with the root gone. */
    method DeleteCompletely(id: string, twin: Twin, eventAnswers: nat -> Answer, rootAnswers: nat -> Answer)
      requires id !in deleting && twin.versioned && twin.present && WellFormed(twin.children)
      requires forall k :: eventAnswers(k).accepted > 0 && rootAnswers(k).accepted > 0
      modifies this, twin
      ensures deleting == old(deleting) && !twin.present && twin.children == []
    {
      var events := DeleteEvents(id, twin, eventAnswers);
      var root := DeleteRoot(id, twin, rootAnswers);
    }
  }

  /** The results of calls that all ask for another one. */
  function Retries(n: nat): seq<Result<Done, DeletionError>> {
    seq(n, _ => Err(RetryRequired))
  }

  lemma WellFormedDistinct(children: seq<Child>)
    requires WellFormed(children)
    ensures DistinctIds(children)
  {}

  lemma AfterNone(children: seq<Child>)
    ensures After(children, 0) == children
  {}

  lemma AfterEventsNone(children: seq<Child>)
    ensures AfterEvents(children, 0) == children
  {}

  lemma {:induction false} AfterMore(children: seq<Child>, m: nat, n: nat)
    ensures After(After(children, m), n) == After(children, m + n)
  {
    hide Next;
    if n > 0 {
      AfterMore(children, m, n - 1);
    }
  }

  lemma {:induction false} AfterEventsMore(children: seq<Child>, m: nat, n: nat)
    ensures AfterEvents(AfterEvents(children, m), n) == AfterEvents(children, m + n)
  {
    hide NextEvents;
    if n > 0 {
      AfterEventsMore(children, m, n - 1);
    }
  }

  lemma {:induction false} AfterMembers(children: seq<Child>, n: nat)
    ensures forall c :: c in After(children, n) ==> c in children
  {
    hide Plan;
    if n > 0 {
      AfterMembers(children, n - 1);
      var before := After(children, n - 1);
      if Plan(before).Ok? {
        WithoutMembers(before, DeletedBy(Plan(before).value));
      }
    }
  }

  lemma AfterWithoutEvents(children: seq<Child>, n: nat)
    requires EventsOf(children) == []
    ensures EventsOf(After(children, n)) == []
  {
    AfterMembers(children, n);
    EventsOfMembers(children);
    EventsOfMembers(After(children, n));
    EmptyOrMember(EventsOf(After(children, n)));
  }

  lemma EmptyOrMember(children: seq<Child>)
    ensures children == [] || exists c :: c in children
  {
    assert children == [] || children[0] in children;
  }
}
