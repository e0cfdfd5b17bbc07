/**
 The on-chain index of a Digital Thread and the page walk that verifies it.

 The index sorts and filters the events it reads, pages them by offset and caches them for a while; the walk follows its
 pages to the end. What is served may mix reads of different moments, as long as the thread only grows at its tail.
 */
module ThreadWalk {
  import opened Wrappers
  import opened Sorting
  import opened ThreadVerifier
  import opened ThreadChecks
  import opened ThreadProperties

  /** A decoded page cursor; an absent one starts at offset 0. */
  datatype Cursor = NoCursor | Offset(n: nat) | Malformed

  datatype Options = Options(range: Range, eventTypes: seq<int>, fromTimestamp: Option<int>, toTimestamp: Option<int>,
                             limit: Option<int>, cursor: Cursor)

  datatype IndexError = ReadFailed | CursorInvalid | LimitInvalid

  datatype Page = Page(items: seq<TwinEvent>, nextCursor: Cursor, hasMore: bool)

  predicate Matches(e: TwinEvent, o: Options) {
    && (o.range.from.Some? ==> e.revisionAfter >= o.range.from.value)
    && (o.range.to.Some? ==> e.revisionAfter <= o.range.to.value)
    && (o.eventTypes == [] || e.eventType in o.eventTypes)
    && (o.fromTimestamp.Some? ==> e.createdAt >= o.fromTimestamp.value)
    && (o.toTimestamp.Some? ==> e.createdAt <= o.toTimestamp.value)
  }

  function Matching(events: seq<TwinEvent>, o: Options): seq<TwinEvent> {
    if events == [] then []
    else (if Matches(events[0], o) then [events[0]] else []) + Matching(events[1..], o)
  }

  function NormalizedLimit(limit: Option<int>): Option<nat> {
    var value := if limit.Some? then limit.value else 100;
    if value < 1 then None else Some(if value <= 500 then value else 500)
  }

  function Decode(cursor: Cursor): Option<nat> {
    match cursor
    case NoCursor => Some(0)
    case Offset(n) => Some(n)
    case Malformed => None
  }

  function FindPage(events: seq<TwinEvent>, o: Options, cursor: Cursor): Result<Page, IndexError> {
    var filtered := Matching(events, o);
    match Decode(cursor)
    case None => Err(CursorInvalid)
    case Some(offset) =>
      match NormalizedLimit(o.limit)
      case None => Err(LimitInvalid)
      case Some(limit) =>
        if offset > |filtered| then Err(CursorInvalid)
        else
          var end := if offset + limit <= |filtered| then offset + limit else |filtered|;
          Ok(Page(filtered[offset..end], if end < |filtered| then Offset(end) else NoCursor, end < |filtered|))
  }

  function Ordered(collation: string -> int, thread: seq<TwinEvent>): seq<TwinEvent> {
    Sort(thread, (a, b) => Compare(collation, a, b) <= 0)
  }

  /* ---- The index and its cache ---- */

  datatype CacheEntry = CacheEntry(events: seq<TwinEvent>, expiresAt: int)

  /** What one request meets: the clock, and what the chain answers, None when it cannot be read. */
  datatype Request = Request(now: int, thread: Option<seq<TwinEvent>>)

  /** The entry a request leaves and is answered from: a live one is kept, otherwise the chain is read and ordered. */
  function Fetched(collation: string -> int, ttl: int, entry: Option<CacheEntry>, q: Request): Option<CacheEntry> {
    if entry.Some? && entry.value.expiresAt > q.now then entry
    else if q.thread.None? then None
    else Some(CacheEntry(Ordered(collation, q.thread.value), q.now + ttl))
  }

  class Indexer {
    const collation: string -> int
    const ttl: int
    var cache: map<string, CacheEntry>

    constructor (collation: string -> int, ttl: int)
      ensures this.collation == collation && this.ttl == ttl && cache == map[]
    {
      this.collation, this.ttl, cache := collation, ttl, map[];
    }

    /** Every cached thread is in thread order. */
    ghost predicate Valid()
      reads this
    {
      forall id :: id in cache ==> Sorted(cache[id].events, (a, b) => Compare(collation, a, b) <= 0)
    }

    function Entry(twinId: string): Option<CacheEntry>
      reads this
    {
      if twinId in cache then Some(cache[twinId]) else None
    }

    method FindTwinEventsOnChain(twinId: string, o: Options, q: Request) returns (r: Result<Page, IndexError>)
      requires Valid()
      modifies this
      ensures Valid()
      ensures var entry := Fetched(collation, ttl, old(Entry(twinId)), q);
              if entry.None? then r == Err(ReadFailed) && cache == old(cache) - {twinId}
              else r == FindPage(entry.value.events, o, o.cursor) && cache == old(cache)[twinId := entry.value]
    {
      var events: Option<seq<TwinEvent>> := None;
      if twinId in cache && cache[twinId].expiresAt > q.now {
        events := Some(cache[twinId].events);
      } else {
        cache := cache - {twinId};
      }
      if events.None? {
        if q.thread.None? {
          return Err(ReadFailed);
        }
        var sorted := Ordered(collation, q.thread.value);
        OrderIsTotal(collation);
        SortSpec(q.thread.value, (a, b) => Compare(collation, a, b) <= 0);
        cache := cache[twinId := CacheEntry(sorted, q.now + ttl)];
        events := Some(sorted);
      }
      r := FindPage(events.value, o, o.cursor);
    }
  }

  lemma OrderIsTotal(collation: string -> int)
    ensures TotalPreorder((a: TwinEvent, b: TwinEvent) => Compare(collation, a, b) <= 0)
  {
  }

  lemma {:induction false} MatchingSorted(events: seq<TwinEvent>, o: Options, collation: string -> int)
    requires Sorted(events, (a, b) => Compare(collation, a, b) <= 0)
    ensures Sorted(Matching(events, o), (a, b) => Compare(collation, a, b) <= 0)
  {
    if events != [] {
      MatchingSorted(events[1..], o, collation);
      MatchingMembers(events[1..], o);
      var rest := Matching(events[1..], o);
      assert forall j :: 0 <= j < |rest| ==> rest[j] in events[1..];
    }
  }

  lemma {:induction false} MatchingMembers(events: seq<TwinEvent>, o: Options)
    ensures forall e :: e in Matching(events, o) <==> e in events && Matches(e, o)
    ensures forall e :: Matches(e, o) ==> multiset(Matching(events, o))[e] == multiset(events)[e]
  {
    if events != [] {
      MatchingMembers(events[1..], o);
      assert events == [events[0]] + events[1..];
    }
  }

  /** One of the request's filters leaves the event out. */
  ghost predicate LeftOut(e: TwinEvent, o: Options) {
    || (o.range.from.Some? && e.revisionAfter < o.range.from.value)
    || (o.range.to.Some? && o.range.to.value < e.revisionAfter)
    || (o.fromTimestamp.Some? && e.createdAt < o.fromTimestamp.value)
    || (o.toTimestamp.Some? && o.toTimestamp.value < e.createdAt)
    || (|o.eventTypes| > 0 && forall i :: 0 <= i < |o.eventTypes| ==> o.eventTypes[i] != e.eventType)
  }

  lemma LeftOutIs(e: TwinEvent, o: Options)
    ensures LeftOut(e, o) <==> !Matches(e, o)
  {
    if o.eventTypes != [] && e.eventType in o.eventTypes {
      var i :| 0 <= i < |o.eventTypes| && o.eventTypes[i] == e.eventType;
    }
  }

  /**
   The pages offered for a thread concatenate to its events that no filter leaves out, each as often as on the chain, none
   behind one that comes before it.
   */
  lemma ServedThread(collation: string -> int, thread: seq<TwinEvent>, o: Options)
    ensures var served := Matching(Ordered(collation, thread), o);
            && (forall i, j :: 0 <= i < j < |served| ==> !Behind(collation, served[i], served[j]))
            && (forall e :: multiset(served)[e] == if LeftOut(e, o) then 0 else multiset(thread)[e])
  {
    OrderIsTotal(collation);
    SortSpec(thread, (a: TwinEvent, b: TwinEvent) => Compare(collation, a, b) <= 0);
    MatchingSorted(Ordered(collation, thread), o, collation);
    MatchingMembers(Ordered(collation, thread), o);
    var served := Matching(Ordered(collation, thread), o);
    hide Matching, Ordered, Matches, LeftOut;
    forall e ensures multiset(served)[e] == if LeftOut(e, o) then 0 else multiset(thread)[e] {
      LeftOutIs(e, o);
      if !Matches(e, o) {
        assert e !in served;
      }
    }
    forall i, j | 0 <= i < j < |served| ensures !Behind(collation, served[i], served[j]) {
      BehindIs(collation, served[i], served[j]);
    }
  }

  /** How many events a request asks for: 100 unless it says otherwise, and never more than 500. */
  function Asked(o: Options): int {
    if o.limit.None? then 100 else if o.limit.value > 500 then 500 else o.limit.value
  }

  /**
   A page is as long as asked for unless it is the last; a limit below one and a cursor that is malformed or past the end
   are refused, the cursor's form first.
   */
  lemma PageExactly(events: seq<TwinEvent>, o: Options, cursor: Cursor)
    ensures var r, all := FindPage(events, o, cursor), Matching(events, o);
            && (r == Err(LimitInvalid) <==> cursor != Malformed && Asked(o) < 1)
            && (r == Err(CursorInvalid) <==> cursor == Malformed || (Asked(o) >= 1 && At(cursor) > |all|))
            && (r.Ok? ==>
                  && |r.value.items| == (if r.value.hasMore then Asked(o) else |all| - At(cursor)) <= Asked(o)
                  && r.value.items == all[At(cursor)..At(cursor) + |r.value.items|]
                  && (r.value.hasMore <==> At(cursor) + Asked(o) < |all|)
                  && r.value.nextCursor == if r.value.hasMore then Offset(At(cursor) + Asked(o)) else NoCursor)
  {}

  /* ---- The walk ---- */

  /** The thread the k-th page request sees; the last known view is stable. */
  function ViewAt(views: seq<seq<TwinEvent>>, k: nat): seq<TwinEvent>
    requires views != []
  {
    if k < |views| then views[k] else views[|views| - 1]
  }

  /** Between page requests the matching events only grow at the tail. */
  predicate GrowsAtTail(views: seq<seq<TwinEvent>>, o: Options) {
    forall k :: 0 <= k < |views| - 1 ==> Matching(views[k], o) <= Matching(views[k + 1], o)
  }

  function PageCount(length: nat, limit: nat): nat
    requires limit > 0
  {
    if length == 0 then 1 else (length + limit - 1) / limit
  }

  lemma PageCountIs(length: nat, limit: nat, full: nat)
    requires limit > 0 && full * limit <= length <= (full + 1) * limit
    requires full > 0 ==> full * limit < length
    ensures PageCount(length, limit) == full + 1
  {
    if length > 0 {
      var rest := length + limit - 1 - (full + 1) * limit;
      assert length + limit - 1 == (full + 1) * limit + rest && 0 <= rest < limit;
      DivIs(length + limit - 1, limit, full + 1, rest);
    }
  }

  lemma DivIs(a: nat, d: nat, q: nat, r: nat)
    requires d > 0 && a == q * d + r && r < d
    ensures a / d == q
  {
    var k := q - a / d;
    assert k * d == q * d - (a / d) * d;
    assert a == (a / d) * d + a % d;
    SmallMultiple(k, d);
  }

  lemma SmallMultiple(k: int, d: nat)
    requires d > 0 && -(d as int) < k * d < d
    ensures k == 0
  {}

  function Start(o: Options): nat {
    if o.cursor.Offset? then o.cursor.n else 0
  }

  /** The report on the events of `view` from the starting offset on, read in `pages` pages. */
  function ReportOn(ctx: Context, o: Options, view: seq<TwinEvent>, pages: nat): Report
    requires Start(o) <= |Matching(view, o)|
  {
    Finish(o.range, WithPages(AbsorbAll(ctx, o.range, START, Matching(view, o)[Start(o)..]), pages), true)
  }

  /** A request that the first view can answer. */
  predicate Answerable(o: Options, view: seq<TwinEvent>) {
    o.cursor != Malformed && NormalizedLimit(o.limit).Some? && Start(o) <= |Matching(view, o)|
  }

  /** The report covers what matched some view, from the starting offset on. */
  ghost predicate Reports(ctx: Context, o: Options, views: seq<seq<TwinEvent>>, report: Report) {
    exists k, pages :: 0 <= k < |views| && Start(o) <= |Matching(views[k], o)| && report == ReportOn(ctx, o, views[k], pages)
  }

  /**
   On a thread that only grows at its tail a walk reports on exactly the matching events of the view its last page saw,
   none skipped and none read twice; on an unchanging thread it reads exactly the pages the limit asks for.
   */
  ghost predicate Walked(ctx: Context, o: Options, views: seq<seq<TwinEvent>>, r: Result<Report, IndexError>)
    requires views != []
  {
    && (!Answerable(o, views[0]) ==> r.Err?)
    && (GrowsAtTail(views, o) && Answerable(o, views[0]) ==> r.Ok? && Reports(ctx, o, views, r.value))
    && (|views| == 1 && Answerable(o, views[0]) ==>
          r == Ok(ReportOn(ctx, o, views[0], PageCount(|Matching(views[0], o)| - Start(o), NormalizedLimit(o.limit).value))))
  }

  /* ---- The views that the index serves to a walk ---- */

  /** The k-th request; whatever comes after the known ones meets what the last of them met. */
  function RequestAt(requests: seq<Request>, k: nat): Request
    requires requests != []
  {
    if k < |requests| then requests[k] else requests[|requests| - 1]
  }

  /** The cached entry after the first k requests. */
  function EntryAfter(collation: string -> int, ttl: int, entry: Option<CacheEntry>, requests: seq<Request>, k: nat): Option<CacheEntry>
    requires requests != []
  {
    if k == 0 then entry else Fetched(collation, ttl, EntryAfter(collation, ttl, entry, requests, k - 1), RequestAt(requests, k - 1))
  }

  /** The thread each request is answered from; empty for one whose read fails. */
  function ServedViews(collation: string -> int, ttl: int, entry: Option<CacheEntry>, requests: seq<Request>): seq<seq<TwinEvent>>
    requires requests != []
  {
    seq(|requests|, k requires 0 <= k < |requests| =>
      var served := EntryAfter(collation, ttl, entry, requests, k + 1);
      if served.Some? then served.value.events else [])
  }

  /** None of the requests fails to read the chain. */
  predicate AllRead(collation: string -> int, ttl: int, entry: Option<CacheEntry>, requests: seq<Request>)
    requires requests != []
  {
    forall k :: 0 < k <= |requests| ==> EntryAfter(collation, ttl, entry, requests, k).Some?
  }

  /** Beyond the known requests the cached entry stays as it is. */
  lemma {:induction false} EntrySettles(collation: string -> int, ttl: int, entry: Option<CacheEntry>, requests: seq<Request>, k: nat)
    requires requests != [] && k >= |requests|
    ensures EntryAfter(collation, ttl, entry, requests, k) == EntryAfter(collation, ttl, entry, requests, |requests|)
  {
    if k > |requests| {
      EntrySettles(collation, ttl, entry, requests, k - 1);
      var before := EntryAfter(collation, ttl, entry, requests, |requests| - 1);
      var last := requests[|requests| - 1];
      assert Fetched(collation, ttl, Fetched(collation, ttl, before, last), last) == Fetched(collation, ttl, before, last);
    }
  }

  lemma ServedAt(collation: string -> int, ttl: int, entry: Option<CacheEntry>, requests: seq<Request>, k: nat)
    requires requests != []
    ensures var served := EntryAfter(collation, ttl, entry, requests, k + 1);
            ViewAt(ServedViews(collation, ttl, entry, requests), k) == if served.Some? then served.value.events else []
    ensures AllRead(collation, ttl, entry, requests) ==> EntryAfter(collation, ttl, entry, requests, k + 1).Some?
  {
    hide Fetched;
    if k + 1 >= |requests| {
      EntrySettles(collation, ttl, entry, requests, k + 1);
    }
  }

  /** On the chain, and since the cached entry was read, the matching events only grow at the tail. */
  ghost predicate ChainGrows(collation: string -> int, entry: Option<CacheEntry>, requests: seq<Request>, o: Options)
    requires requests != []
  {
    && (forall k :: 0 <= k < |requests| ==> requests[k].thread.Some?)
    && (entry.Some? ==> Matching(entry.value.events, o) <= Matching(Ordered(collation, requests[0].thread.value), o))
    && (forall k :: 0 <= k < |requests| - 1 ==>
          Matching(Ordered(collation, requests[k].thread.value), o) <= Matching(Ordered(collation, requests[k + 1].thread.value), o))
  }

  /** However the cache mixes old and new reads, what it serves never goes back. */
  lemma ServedViewsGrow(collation: string -> int, ttl: int, entry: Option<CacheEntry>, requests: seq<Request>, o: Options)
    requires requests != [] && ChainGrows(collation, entry, requests, o)
    ensures AllRead(collation, ttl, entry, requests)
    ensures GrowsAtTail(ServedViews(collation, ttl, entry, requests), o)
  {
    hide Ordered, Matching;
    forall k | 0 < k <= |requests|
      ensures EntryAfter(collation, ttl, entry, requests, k).Some?
    {
      EntryIsOld(collation, ttl, entry, requests, o, k - 1);
    }
    var views := ServedViews(collation, ttl, entry, requests);
    forall k | 0 <= k < |views| - 1
      ensures Matching(views[k], o) <= Matching(views[k + 1], o)
    {
      EntryIsOld(collation, ttl, entry, requests, o, k + 1);
    }
  }

  /** The entry that a request finds is no newer than what the chain would answer to it. */
  lemma {:induction false} EntryIsOld(collation: string -> int, ttl: int, entry: Option<CacheEntry>, requests: seq<Request>, o: Options, k: nat)
    requires requests != [] && ChainGrows(collation, entry, requests, o) && k < |requests|
    ensures var found := EntryAfter(collation, ttl, entry, requests, k);
            found.Some? ==> Matching(found.value.events, o) <= Matching(Ordered(collation, requests[k].thread.value), o)
  {
    hide Ordered, Matching;
    if k > 0 {
      EntryIsOld(collation, ttl, entry, requests, o, k - 1);
    }
  }

  lemma {:induction false} MatchingIgnoresCursor(events: seq<TwinEvent>, o: Options, cursor: Cursor)
    ensures Matching(events, o.(cursor := cursor)) == Matching(events, o)
  {
    if events != [] {
      MatchingIgnoresCursor(events[1..], o, cursor);
    }
  }

  lemma SamePage(events: seq<TwinEvent>, o: Options, cursor: Cursor)
    ensures FindPage(events, o.(cursor := cursor), cursor) == FindPage(events, o, cursor) != Err(ReadFailed)
  {
    MatchingIgnoresCursor(events, o, cursor);
  }

  /** The walk always ends. A repeated or missing next cursor, which the code also checks for, cannot occur. */
  method VerifyDigitalThread(ctx: Context, o: Options, indexer: Indexer, twinId: string, requests: seq<Request>)
    returns (r: Result<Report, IndexError>)
    requires requests != [] && indexer.Valid()
    modifies indexer
    ensures indexer.Valid()
    ensures var entry := old(indexer.Entry(twinId));
            AllRead(indexer.collation, indexer.ttl, entry, requests)
            ==> Walked(ctx, o, ServedViews(indexer.collation, indexer.ttl, entry, requests), r) && r != Err(ReadFailed)
  {
    hide AbsorbAll, Finish, Matching, WithPages, FindPage, Answerable, OnTrack, Walked, Fetched, AllRead, ServedViews, Indexer.Valid;
    var verifier := new IncrementalThreadVerifier(ctx, o.range);
    var cursor := o.cursor;
    var seen: set<nat> := {};
    var call: nat := 0;
    ghost var entry := indexer.Entry(twinId);
    ghost var views := ServedViews(indexer.collation, indexer.ttl, entry, requests);
    ghost var read: seq<TwinEvent> := [];
    assert |views| == |requests| by { ServedCount(indexer.collation, indexer.ttl, entry, requests); }
    NoneRead(ctx, o.range);
    OnTrackFirst(o, views);
    while true
      invariant verifier.ctx == ctx && verifier.range == o.range && fresh(verifier)
      invariant indexer.Valid() && indexer.Entry(twinId) == EntryAfter(indexer.collation, indexer.ttl, entry, requests, call)
      invariant verifier.View() == WithPages(AbsorbAll(ctx, o.range, START, read), call)
      invariant if call == 0 then cursor == o.cursor else cursor.Offset?
      invariant call > 0 ==> Answerable(o, views[0])
      invariant forall c :: c in seen ==> c <= At(cursor)
      invariant OnTrack(o, views, call, At(cursor), read)
      invariant call >= |views| ==> At(cursor) < |Matching(views[|views| - 1], o)|
      decreases if call < |views| then |views| - call else 0,
                if call < |views| then 0 else |Matching(views[|views| - 1], o)| - At(cursor)
    {
      ServedAt(indexer.collation, indexer.ttl, entry, requests, call);
      SamePage(ViewAt(views, call), o, cursor);
      var found := indexer.FindTwinEventsOnChain(twinId, o.(cursor := cursor), RequestAt(requests, call));
      if found.Err? {
        if AllRead(indexer.collation, indexer.ttl, entry, requests) {
          OnTrackFails(ctx, o, views, call, cursor, read);
        }
        return Err(found.error);
      }
      var page := found.value;
      verifier.AppendPage(page.items);
      FeedOne(ctx, o.range, read, page.items, call);
      if !page.hasMore {
        var report := verifier.FinishReport(true);
        OnTrackLast(ctx, o, views, call, cursor, read, page);
        return Ok(report);
      }
      OnTrackNext(o, views, call, cursor, read, page);
      if !page.nextCursor.Offset? || page.nextCursor.n in seen {
        assert false;
      }
      read := read + page.items;
      seen := seen + {page.nextCursor.n};
      cursor := page.nextCursor;
      call := call + 1;
    }
  }

  lemma ServedCount(collation: string -> int, ttl: int, entry: Option<CacheEntry>, requests: seq<Request>)
    requires requests != []
    ensures |ServedViews(collation, ttl, entry, requests)| == |requests|
  {}

  function At(cursor: Cursor): nat {
    if cursor.Offset? then cursor.n else 0
  }

  /** Where a walk stands before its next request: what it has read, and how far the offset has come. */
  ghost predicate OnTrack(o: Options, views: seq<seq<TwinEvent>>, call: nat, offset: nat, read: seq<TwinEvent>)
    requires views != []
  {
    && (GrowsAtTail(views, o) && Answerable(o, views[0]) ==>
          var all := Matching(ViewAt(views, call), o);
          Start(o) <= offset <= |all| && read == all[Start(o)..offset])
    && (|views| == 1 && Answerable(o, views[0]) ==>
          offset == Start(o) + call * NormalizedLimit(o.limit).value && (call > 0 ==> offset < |Matching(views[0], o)|))
  }

  lemma OnTrackFirst(o: Options, views: seq<seq<TwinEvent>>)
    requires views != []
    ensures OnTrack(o, views, 0, At(o.cursor), [])
  {
  }

  /** A request that is on track is served, so a walk that fails was not. */
  lemma OnTrackFails(ctx: Context, o: Options, views: seq<seq<TwinEvent>>, call: nat, cursor: Cursor, read: seq<TwinEvent>)
    requires views != [] && OnTrack(o, views, call, At(cursor), read)
    requires if call == 0 then cursor == o.cursor else cursor.Offset?
    requires FindPage(ViewAt(views, call), o, cursor).Err?
    ensures Walked(ctx, o, views, Err(FindPage(ViewAt(views, call), o, cursor).error))
  {}

  lemma OnTrackNext(o: Options, views: seq<seq<TwinEvent>>, call: nat, cursor: Cursor, read: seq<TwinEvent>, page: Page)
    requires views != [] && OnTrack(o, views, call, At(cursor), read)
    requires FindPage(ViewAt(views, call), o, cursor) == Ok(page) && page.hasMore
    requires call == 0 ==> cursor == o.cursor
    requires call > 0 ==> Answerable(o, views[0])
    ensures page.nextCursor.Offset? && At(cursor) < page.nextCursor.n < |Matching(ViewAt(views, call), o)|
    ensures Answerable(o, views[0])
    ensures OnTrack(o, views, call + 1, page.nextCursor.n, read + page.items)
  {
    hide FindPage, Matching;
    var all, next := Matching(ViewAt(views, call), o), Matching(ViewAt(views, call + 1), o);
    AnswerFacts(ViewAt(views, call), o, cursor);
    PageFacts(ViewAt(views, call), o, cursor, page);
    if GrowsAtTail(views, o) {
      SliceOn(all, next, Start(o), At(cursor), page.nextCursor.n);
    }
  }

  /** The last page completes what matched its view. */
  lemma LastPageCompletes(o: Options, views: seq<seq<TwinEvent>>, call: nat, cursor: Cursor, read: seq<TwinEvent>, page: Page)
    requires views != [] && OnTrack(o, views, call, At(cursor), read) && GrowsAtTail(views, o) && Answerable(o, views[0])
    requires FindPage(ViewAt(views, call), o, cursor) == Ok(page) && !page.hasMore
    ensures var all := Matching(ViewAt(views, call), o); Start(o) <= |all| && read + page.items == all[Start(o)..]
  {}

  /** On one unchanging view, the number of pages is what the limit asks for. */
  lemma LastPageCounts(o: Options, views: seq<seq<TwinEvent>>, call: nat, cursor: Cursor, read: seq<TwinEvent>, page: Page)
    requires |views| == 1 && OnTrack(o, views, call, At(cursor), read) && Answerable(o, views[0])
    requires FindPage(ViewAt(views, call), o, cursor) == Ok(page) && !page.hasMore
    requires call == 0 ==> cursor == o.cursor
    ensures call + 1 == PageCount(|Matching(views[0], o)| - Start(o), NormalizedLimit(o.limit).value)
  {
    hide FindPage, Matching, PageCount, GrowsAtTail;
    PageFacts(ViewAt(views, call), o, cursor, page);
    PageCountIs(|Matching(views[0], o)| - Start(o), NormalizedLimit(o.limit).value, call);
  }

  lemma OnTrackLast(ctx: Context, o: Options, views: seq<seq<TwinEvent>>, call: nat, cursor: Cursor, read: seq<TwinEvent>, page: Page)
    requires views != [] && OnTrack(o, views, call, At(cursor), read)
    requires FindPage(ViewAt(views, call), o, cursor) == Ok(page) && !page.hasMore
    requires call == 0 ==> cursor == o.cursor
    requires call > 0 ==> Answerable(o, views[0])
    ensures Walked(ctx, o, views, Ok(Finish(o.range, WithPages(AbsorbAll(ctx, o.range, START, read + page.items), call + 1), true)))
  {
    hide FindPage, Matching, AbsorbAll, Finish, WithPages, PageCount, OnTrack, GrowsAtTail, NormalizedLimit;
    AnswerFacts(ViewAt(views, call), o, cursor);
    if GrowsAtTail(views, o) && Answerable(o, views[0]) {
      LastPageCompletes(o, views, call, cursor, read, page);
      var k := if call < |views| then call else |views| - 1;
      assert Finish(o.range, WithPages(AbsorbAll(ctx, o.range, START, read + page.items), call + 1), true) == ReportOn(ctx, o, views[k], call + 1);
    }
    if |views| == 1 {
      OneViewGrows(o, views);
      LastPageCounts(o, views, call, cursor, read, page);
    }
  }

  lemma OneViewGrows(o: Options, views: seq<seq<TwinEvent>>)
    requires |views| == 1
    ensures GrowsAtTail(views, o)
  {}

  /** When a page can be served. */
  lemma AnswerFacts(view: seq<TwinEvent>, o: Options, cursor: Cursor)
    ensures FindPage(view, o, cursor).Ok? <==>
            && cursor != Malformed && NormalizedLimit(o.limit).Some?
            && (if cursor.Offset? then cursor.n else 0) <= |Matching(view, o)|
    ensures Answerable(o, view) <==> o.cursor != Malformed && NormalizedLimit(o.limit).Some? && Start(o) <= |Matching(view, o)|
  {
  }

  /** What a served page holds. */
  lemma PageFacts(view: seq<TwinEvent>, o: Options, cursor: Cursor, page: Page)
    requires FindPage(view, o, cursor) == Ok(page)
    ensures var all, offset, limit := Matching(view, o), if cursor.Offset? then cursor.n else 0, NormalizedLimit(o.limit);
            && limit.Some? && limit.value > 0 && offset <= |all|
            && (if page.hasMore then
                  offset + limit.value < |all| && page.items == all[offset..offset + limit.value]
                  && page.nextCursor == Offset(offset + limit.value)
                else page.items == all[offset..] && |all| <= offset + limit.value)
  {
  }

  lemma NoneRead(ctx: Context, range: Range)
    ensures WithPages(AbsorbAll(ctx, range, START, []), 0) == START
  {
  }

  lemma FeedOne(ctx: Context, range: Range, read: seq<TwinEvent>, items: seq<TwinEvent>, pages: nat)
    ensures AbsorbAll(ctx, range, CountPage(WithPages(AbsorbAll(ctx, range, START, read), pages)), items)
            == WithPages(AbsorbAll(ctx, range, START, read + items), pages + 1)
  {
    hide AbsorbAll;
    var p := AbsorbAll(ctx, range, START, read);
    AbsorbIgnoresPages(ctx, range, p, pages + 1, items);
    AbsorbConcat(ctx, range, START, read, items);
  }

  lemma SliceOn<T>(all: seq<T>, next: seq<T>, start: nat, mid: nat, end: nat)
    requires start <= mid <= end <= |all| && all <= next
    ensures all[start..mid] + all[mid..end] == next[start..end]
  {
  }

  /**
   Walking a whole unchanging thread without filters agrees with verifying its ordered events in one go.
   */
  lemma WalkAgreesWithOneShot(ctx: Context, o: Options, thread: seq<TwinEvent>, pages: nat, one: OneShot)
    requires o.range == FULL && o.eventTypes == [] && o.fromTimestamp.None? && o.toTimestamp.None? && Start(o) == 0
    requires Agrees(one, Finish(FULL, AbsorbAll(ctx, FULL, START, Ordered(ctx.collation, thread)), true))
    ensures Agrees(one, ReportOn(ctx, o, Ordered(ctx.collation, thread), pages))
  {
    var events := Ordered(ctx.collation, thread);
    MatchingEverything(events, o);
    assert Matching(events, o)[0..] == events;
    hide AbsorbAll, Finish, Dedupe;
    FinishIgnoresPages(FULL, AbsorbAll(ctx, FULL, START, events), pages, true);
  }

  lemma {:induction false} MatchingEverything(events: seq<TwinEvent>, o: Options)
    requires o.range == FULL && o.eventTypes == [] && o.fromTimestamp.None? && o.toTimestamp.None?
    ensures Matching(events, o) == events
  {
    if events != [] {
      MatchingEverything(events[1..], o);
    }
  }
}
