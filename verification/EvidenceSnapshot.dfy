/**
 An evidence snapshot: the stored windows that overlap a selected interval, read by a few concurrent workers, and the
 condition under which no sample of the interval is missed.
 */
module EvidenceSnapshot {
  import opened Sorting
  import opened Wrappers
  import W = DatasetWindows

  const MAX_SAFE: nat := 9007199254740991

  datatype Selection = Selection(fromTimestamp: Option<nat>, toTimestamp: Option<nat>)

  /** A stored object of the Twin: its bytes hold the bounds and samples of a window; bounds may be absent. */
  datatype Stored = Stored(uri: string, size: nat, createdAt: Option<int>, fromTimestamp: Option<int>, toTimestamp: Option<int>, samples: seq<W.Sample>)

  datatype SnapshotWindow = SnapshotWindow(uri: string, periodFrom: int, periodTo: int, samples: seq<W.Sample>)

  datatype Snapshot = Snapshot(windows: seq<SnapshotWindow>, periodFrom: int, periodTo: int)

  datatype SnapshotError = SourceTooLarge | SourceEmpty

  function SafeTimestamp(value: Option<int>, fallback: int): int {
    if value.Some? && 0 <= value.value <= MAX_SAFE then value.value else fallback
  }

  predicate Overlaps(from: int, to: int, selection: Selection) {
    && (selection.fromTimestamp.Some? ==> to >= selection.fromTimestamp.value)
    && (selection.toTimestamp.Some? ==> from <= selection.toTimestamp.value)
  }

  /** The window of a stored object; `now` is the clock for objects whose age cannot be read. */
  function WindowOf(item: Stored, now: int): SnapshotWindow {
    var from := SafeTimestamp(item.fromTimestamp, SafeTimestamp(item.createdAt, now));
    SnapshotWindow(item.uri, from, SafeTimestamp(item.toTimestamp, from), item.samples)
  }

  predicate Wanted(item: Stored, now: int, selection: Selection) {
    Overlaps(WindowOf(item, now).periodFrom, WindowOf(item, now).periodTo, selection)
  }

  /* ---- Selecting windows ---- */

  function Candidates(items: seq<Stored>, now: int, selection: Selection): seq<SnapshotWindow> {
    if items == [] then []
    else
      var last := items[|items| - 1];
      Candidates(items[..|items| - 1], now, selection) + if Wanted(last, now, selection) then [WindowOf(last, now)] else []
  }

  function Bytes(items: seq<Stored>, now: int, selection: Selection): nat {
    if items == [] then 0
    else
      var last := items[|items| - 1];
      Bytes(items[..|items| - 1], now, selection) + if Wanted(last, now, selection) then last.size else 0
  }

  function ByPeriod(rank: string -> int): (SnapshotWindow, SnapshotWindow) -> bool {
    (a: SnapshotWindow, b: SnapshotWindow) => a.periodFrom < b.periodFrom || (a.periodFrom == b.periodFrom && rank(a.uri) <= rank(b.uri))
  }

  /** The second window does not start earlier, nor at the same time under a URI that sorts in front. */
  ghost predicate NotBefore(rank: string -> int, a: SnapshotWindow, b: SnapshotWindow) {
    a.periodFrom <= b.periodFrom && (a.periodFrom == b.periodFrom ==> rank(a.uri) <= rank(b.uri))
  }

  lemma PeriodSorted(windows: seq<SnapshotWindow>, rank: string -> int)
    requires Sorted(windows, ByPeriod(rank))
    ensures InOrder(windows, rank)
  {
    forall i, j | 0 <= i < j < |windows| ensures NotBefore(rank, windows[i], windows[j]) {
      assert ByPeriod(rank)(windows[i], windows[j]);
    }
  }

  ghost predicate InOrder(windows: seq<SnapshotWindow>, rank: string -> int) {
    forall i, j :: 0 <= i < j < |windows| ==> NotBefore(rank, windows[i], windows[j])
  }

  /** The size of a selection is that of the windows in it. */
  lemma BytesSum(items: seq<Stored>, item: Stored, now: int, selection: Selection)
    ensures Bytes([], now, selection) == 0
    ensures Bytes(items + [item], now, selection) ==
            Bytes(items, now, selection) + if Wanted(item, now, selection) then item.size else 0
  {
    assert (items + [item])[..|items|] == items;
  }

  /** A window is selected exactly when some moment of its period lies in the selection. */
  lemma OverlapsExactly(from: int, to: int, selection: Selection)
    requires from <= to
    requires selection.fromTimestamp.Some? && selection.toTimestamp.Some? ==> selection.fromTimestamp.value <= selection.toTimestamp.value
    ensures Overlaps(from, to, selection) <==> exists t: int :: Within(t, from, to, selection)
  {
    var t := if selection.fromTimestamp.Some? && selection.fromTimestamp.value > from then selection.fromTimestamp.value else from;
    assert Overlaps(from, to, selection) ==> Within(t, from, to, selection);
  }

  ghost predicate Within(t: int, from: int, to: int, selection: Selection) {
    && from <= t <= to
    && (selection.fromTimestamp.Some? ==> selection.fromTimestamp.value <= t)
    && (selection.toTimestamp.Some? ==> t <= selection.toTimestamp.value)
  }

  ghost predicate Usable(t: Option<int>) {
    t.Some? && 0 <= t.value < 0x20_0000_0000_0000
  }

  /**
   A stored object with usable bounds is read with exactly those; without a usable start it counts from when it was stored,
   or from now when that cannot be told either, and without a usable end it ends where it starts.
   */
  lemma PeriodExactly(item: Stored, now: int)
    ensures var w := WindowOf(item, now);
            && (Usable(item.fromTimestamp) ==> w.periodFrom == item.fromTimestamp.value)
            && (!Usable(item.fromTimestamp) && Usable(item.createdAt) ==> w.periodFrom == item.createdAt.value)
            && (!Usable(item.fromTimestamp) && !Usable(item.createdAt) ==> w.periodFrom == now)
            && (Usable(item.toTimestamp) ==> w.periodTo == item.toTimestamp.value)
            && (!Usable(item.toTimestamp) ==> w.periodTo == w.periodFrom)
            && w.uri == item.uri && w.samples == item.samples
  {}

  lemma ByPeriodIsOrder(rank: string -> int)
    ensures TotalPreorder(ByPeriod(rank))
  {}

  lemma {:induction false} BytesGrow(items: seq<Stored>, n: nat, now: int, selection: Selection)
    requires n <= |items|
    ensures Bytes(items[..n], now, selection) <= Bytes(items, now, selection)
  {
    if n < |items| {
      BytesGrow(items[..|items| - 1], n, now, selection);
      assert items[..|items| - 1][..n] == items[..n];
    } else {
      assert items[..n] == items;
    }
  }

  lemma {:induction false} CandidateMembers(items: seq<Stored>, now: int, selection: Selection)
    ensures forall w :: w in Candidates(items, now, selection)
                        <==> exists i :: 0 <= i < |items| && Wanted(items[i], now, selection) && WindowOf(items[i], now) == w
  {
    hide Wanted, WindowOf;
    if items != [] {
      var rest := items[..|items| - 1];
      CandidateMembers(rest, now, selection);
      forall w | w in Candidates(rest, now, selection)
        ensures exists i :: 0 <= i < |items| && Wanted(items[i], now, selection) && WindowOf(items[i], now) == w
      {
        var i :| 0 <= i < |rest| && Wanted(rest[i], now, selection) && WindowOf(rest[i], now) == w;
        assert items[i] == rest[i];
      }
      forall i | 0 <= i < |items| && Wanted(items[i], now, selection)
        ensures WindowOf(items[i], now) in Candidates(items, now, selection)
      {
        if i < |rest| {
          assert rest[i] == items[i];
        }
      }
    }
  }

  method CreateSnapshot(items: seq<Stored>, selection: Selection, now: int, maxBytes: nat, rank: string -> int)
    returns (r: Result<Snapshot, SnapshotError>)
    ensures r.Err? && r.error.SourceTooLarge? <==> Bytes(items, now, selection) > maxBytes
    ensures r.Err? && r.error.SourceEmpty? <==> Bytes(items, now, selection) <= maxBytes && Candidates(items, now, selection) == []
    ensures r.Ok? ==>
              var windows := r.value.windows;
              && InOrder(windows, rank) && multiset(windows) == multiset(Candidates(items, now, selection))
              && (forall w :: w in windows ==> r.value.periodFrom <= w.periodFrom && w.periodTo <= r.value.periodTo)
              && (exists w :: w in windows && w.periodFrom == r.value.periodFrom)
              && (exists w :: w in windows && w.periodTo == r.value.periodTo)
  {
    hide Wanted, WindowOf, ByPeriod, InOrder;
    var windows: seq<SnapshotWindow> := [];
    var sourceBytes := 0;
    for i := 0 to |items|
      invariant windows == Candidates(items[..i], now, selection)
      invariant sourceBytes == Bytes(items[..i], now, selection) <= maxBytes
    {
      assert items[..i + 1][..i] == items[..i];
      if Wanted(items[i], now, selection) {
        sourceBytes := sourceBytes + items[i].size;
        if sourceBytes > maxBytes {
          BytesGrow(items, i + 1, now, selection);
          return Err(SourceTooLarge);
        }
        windows := windows + [WindowOf(items[i], now)];
      }
    }
    assert items[..|items|] == items;
    if windows == [] {
      return Err(SourceEmpty);
    }
    ByPeriodIsOrder(rank);
    SortSpec(windows, ByPeriod(rank));
    SortMembers(windows, ByPeriod(rank));
    var sorted := Sort(windows, ByPeriod(rank));
    PeriodSorted(sorted, rank);
    var from, to := Extremes(sorted);
    r := Ok(Snapshot(sorted, from, to));
  }

  method Extremes(windows: seq<SnapshotWindow>) returns (from: int, to: int)
    requires windows != []
    ensures forall w :: w in windows ==> from <= w.periodFrom && w.periodTo <= to
    ensures exists w :: w in windows && w.periodFrom == from
    ensures exists w :: w in windows && w.periodTo == to
  {
    from, to := windows[0].periodFrom, windows[0].periodTo;
    for i := 1 to |windows|
      invariant forall k :: 0 <= k < i ==> from <= windows[k].periodFrom && windows[k].periodTo <= to
      invariant exists k :: 0 <= k < i && windows[k].periodFrom == from
      invariant exists k :: 0 <= k < i && windows[k].periodTo == to
    {
      if windows[i].periodFrom < from {
        from := windows[i].periodFrom;
      }
      if windows[i].periodTo > to {
        to := windows[i].periodTo;
      }
    }
  }

  /* ---- Completeness ---- */

  predicate InSelection(sample: W.Sample, selection: Selection) {
    && (selection.fromTimestamp.Some? ==> sample.observedAt >= selection.fromTimestamp.value)
    && (selection.toTimestamp.Some? ==> sample.observedAt <= selection.toTimestamp.value)
  }

  /** Every selection that contains a sample of the stored object selects the object. */
  ghost predicate NeverMissed(item: Stored, now: int) {
    forall selection, k :: 0 <= k < |item.samples| && InSelection(item.samples[k], selection) ==> Wanted(item, now, selection)
  }

  predicate PeriodCovers(item: Stored, now: int) {
    forall k :: 0 <= k < |item.samples| ==> WindowOf(item, now).periodFrom <= item.samples[k].observedAt <= WindowOf(item, now).periodTo
  }

  /** No selection ever misses a sample of a stored object exactly when the period it is read with covers all its samples. */
  lemma MissedExactly(item: Stored, now: int)
    ensures NeverMissed(item, now) <==> PeriodCovers(item, now)
  {
    hide WindowOf;
    if NeverMissed(item, now) {
      forall k | 0 <= k < |item.samples|
        ensures WindowOf(item, now).periodFrom <= item.samples[k].observedAt <= WindowOf(item, now).periodTo
      {
        var t := item.samples[k].observedAt;
        var moment := Selection(Some(t), Some(t));
        assert InSelection(item.samples[k], moment);
        assert Wanted(item, now, moment);
      }
    }
  }

  /**
   A window without a Twin or a source is stored as a bare array, without bounds. It is found by the time it was stored
   at alone, so a selection can miss one of its samples unless each was observed at that very time.
   */
  lemma BareMissedExactly(item: Stored, now: int)
    requires item.fromTimestamp.None? && item.toTimestamp.None?
    ensures var stored := if Usable(item.createdAt) then item.createdAt.value else now;
            NeverMissed(item, now) <==> forall k :: 0 <= k < |item.samples| ==> item.samples[k].observedAt == stored
  {
    hide NeverMissed;
    MissedExactly(item, now);
  }

  /** Two samples out of order, and a selection that contains the first but finds no window. */
  lemma OutOfOrderIsMissed() returns (actions: seq<W.Action>, selection: Selection)
    ensures var s := W.Run(actions);
            && |W.FlushesOf(s, "k")| == 1
            && var w := W.FlushesOf(s, "k")[0].window;
               && |w.samples| == 2 && InSelection(w.samples[0], selection)
               && !Overlaps(w.fromTimestamp, w.toTimestamp, selection)
  {
    var a0 := W.Ingest("k", W.Sample(9, 0));
    var a1 := W.Ingest("k", W.Sample(5, 1));
    var a2 := W.StartFlush("k");
    actions := [a0, a1, a2];
    selection := Selection(Some(8), None);
    assert actions[..2] == [a0, a1] && [a0, a1][..1] == [a0] && [a0][..0] == [];
    var s1 := W.Run([a0]);
    assert s1 == W.Step(W.Run([]), a0);
    var s2 := W.Run([a0, a1]);
    assert s2.windows["k"] == W.Window([W.Sample(9, 0), W.Sample(5, 1)], 9, 5);
  }

  /** The stored object that a flushed window becomes. */
  predicate Holds(item: Stored, w: W.Window) {
    item.fromTimestamp == Some(w.fromTimestamp) && item.toTimestamp == Some(w.toTimestamp) && item.samples == w.samples
  }

  /**
   When a key's samples arrive in time order, a snapshot contains every sample inside the selection of every stored
   window of the key.
   */
  lemma SnapshotHasEverySample(actions: seq<W.Action>, key: string, i: nat, k: nat, items: seq<Stored>, j: nat, now: int, selection: Selection)
    requires W.InOrder(W.HistoryOf(W.Run(actions), key)) && i < |W.FlushesOf(W.Run(actions), key)|
    requires var w := W.FlushesOf(W.Run(actions), key)[i].window;
             && j < |items| && Holds(items[j], w)
             && w.fromTimestamp <= MAX_SAFE && w.toTimestamp <= MAX_SAFE
             && k < |w.samples| && InSelection(w.samples[k], selection)
    ensures WindowOf(items[j], now) in Candidates(items, now, selection)
            && WindowOf(items[j], now).samples == W.FlushesOf(W.Run(actions), key)[i].window.samples
  {
    hide W.Run, Candidates;
    var w := W.FlushesOf(W.Run(actions), key)[i].window;
    W.OrderedWindowsCover(actions, key, i);
    MissedExactly(items[j], now);
    CandidateMembers(items, now, selection);
    assert Wanted(items[j], now, selection);
  }

  /* ---- Reading with a few workers ---- */

  /** Each worker awaits the result of one index, or is between two. `fills` counts how often an index was written. */
  datatype Pool<R> = Pool(next: nat, results: seq<Option<R>>, workers: seq<Option<nat>>, fills: seq<nat>)

  /** A worker claims the next index, or the mapper's answer for its index arrives. */
  datatype Move = Claim(worker: nat) | Arrive(worker: nat)

  function MapStep<T, R>(items: seq<T>, mapper: T -> R, p: Pool<R>, m: Move): Pool<R>
    requires |p.results| == |p.fills| == |items|
  {
    match m
    case Claim(w) =>
      if w >= |p.workers| || p.workers[w].Some? || p.next >= |items| then p
      else p.(workers := p.workers[w := Some(p.next)], next := p.next + 1)
    case Arrive(w) =>
      if w >= |p.workers| || p.workers[w].None? || p.workers[w].value >= |items| then p
      else
        var i := p.workers[w].value;
        p.(workers := p.workers[w := None], results := p.results[i := Some(mapper(items[i]))], fills := p.fills[i := p.fills[i] + 1])
  }

  function Start<R>(n: nat, concurrency: nat): Pool<R> {
    Pool(0, seq(n, _ => None), seq(if concurrency <= n then concurrency else n, _ => None), seq(n, _ => 0))
  }

  ghost predicate Waits<R>(p: Pool<R>, i: nat) {
    exists w :: 0 <= w < |p.workers| && p.workers[w] == Some(i)
  }

  /** Claimed indexes are awaited by one worker or filled once with their own item's result; the others are untouched. */
  ghost predicate PoolOk<T, R>(items: seq<T>, mapper: T -> R, p: Pool<R>) {
    && |p.results| == |p.fills| == |items| && p.next <= |items|
    && (forall w :: 0 <= w < |p.workers| && p.workers[w].Some? ==> p.workers[w].value < p.next)
    && (forall v, w :: 0 <= v < w < |p.workers| && p.workers[v].Some? ==> p.workers[v] != p.workers[w])
    && (forall i :: 0 <= i < |items| ==>
          if i >= p.next || Waits(p, i) then p.results[i] == None && p.fills[i] == 0
          else p.results[i] == Some(mapper(items[i])) && p.fills[i] == 1)
  }

  function MapRun<T, R>(items: seq<T>, mapper: T -> R, concurrency: nat, moves: seq<Move>): (p: Pool<R>)
    ensures |p.results| == |p.fills| == |items|
  {
    if moves == [] then Start(|items|, concurrency)
    else MapStep(items, mapper, MapRun(items, mapper, concurrency, moves[..|moves| - 1]), moves[|moves| - 1])
  }

  lemma ClaimKeeps<T, R>(items: seq<T>, mapper: T -> R, p: Pool<R>, w: nat)
    requires PoolOk(items, mapper, p)
    ensures PoolOk(items, mapper, MapStep(items, mapper, p, Claim(w)))
  {
    var n := MapStep(items, mapper, p, Claim(w));
    if w < |p.workers| && p.workers[w].None? && p.next < |items| {
      forall i | 0 <= i < |items|
        ensures Waits(n, i) <==> Waits(p, i) || i == p.next
      {
        assert n.workers[w] == Some(p.next);
        if v :| 0 <= v < |p.workers| && p.workers[v] == Some(i) {
          assert n.workers[v] == Some(i);
        }
      }
    }
  }

  lemma ArriveKeeps<T, R>(items: seq<T>, mapper: T -> R, p: Pool<R>, w: nat)
    requires PoolOk(items, mapper, p)
    ensures PoolOk(items, mapper, MapStep(items, mapper, p, Arrive(w)))
  {
    var n := MapStep(items, mapper, p, Arrive(w));
    if w < |p.workers| && p.workers[w].Some? {
      var done := p.workers[w].value;
      assert Waits(p, done);
      forall i | 0 <= i < |items|
        ensures Waits(n, i) <==> Waits(p, i) && i != done
      {
        if v :| 0 <= v < |p.workers| && p.workers[v] == Some(i) && i != done {
          assert n.workers[v] == Some(i);
        }
      }
    }
  }

  lemma {:induction false} EveryRunPoolOk<T, R>(items: seq<T>, mapper: T -> R, concurrency: nat, moves: seq<Move>)
    ensures PoolOk(items, mapper, MapRun(items, mapper, concurrency, moves))
  {
    hide PoolOk, MapStep;
    if moves == [] {
      StartOk(items, mapper, concurrency);
    } else {
      EveryRunPoolOk(items, mapper, concurrency, moves[..|moves| - 1]);
      var p := MapRun(items, mapper, concurrency, moves[..|moves| - 1]);
      match moves[|moves| - 1]
      case Claim(w) => ClaimKeeps(items, mapper, p, w);
      case Arrive(w) => ArriveKeeps(items, mapper, p, w);
    }
  }

  lemma StartOk<T, R>(items: seq<T>, mapper: T -> R, concurrency: nat)
    ensures PoolOk(items, mapper, Start(|items|, concurrency))
  {}

  /** All workers have returned: the indexes are used up and nobody waits. */
  predicate Finished<T, R>(items: seq<T>, p: Pool<R>) {
    p.next >= |items| && forall w :: 0 <= w < |p.workers| ==> p.workers[w].None?
  }

  /** Under any interleaving, no index is ever written twice, and in the end each was written once with its own result. */
  lemma EachIndexOnce<T, R>(items: seq<T>, mapper: T -> R, concurrency: nat, moves: seq<Move>, i: nat)
    requires i < |items|
    ensures var p := MapRun(items, mapper, concurrency, moves);
            && p.fills[i] <= 1
            && (p.results[i].Some? ==> p.results[i].value == mapper(items[i]))
            && (Finished(items, p) ==> p.fills[i] == 1 && p.results[i] == Some(mapper(items[i])))
  {
    hide MapRun;
    EveryRunPoolOk(items, mapper, concurrency, moves);
  }

  lemma MapMore<T, R>(items: seq<T>, mapper: T -> R, concurrency: nat, moves: seq<Move>, m: Move)
    ensures MapRun(items, mapper, concurrency, moves + [m]) == MapStep(items, mapper, MapRun(items, mapper, concurrency, moves), m)
  {
    assert (moves + [m])[..|moves|] == moves;
  }

  /** The answers that the first k workers wait for arrive. */
  lemma {:induction false} Settle<T, R>(items: seq<T>, mapper: T -> R, concurrency: nat, moves: seq<Move>, k: nat) returns (more: seq<Move>)
    requires k <= |MapRun(items, mapper, concurrency, moves).workers|
    ensures var p, n := MapRun(items, mapper, concurrency, moves), MapRun(items, mapper, concurrency, moves + more);
            n.next == p.next && |n.workers| == |p.workers| && forall w :: 0 <= w < k ==> n.workers[w].None?
  {
    hide MapRun;
    more := [];
    assert moves + more == moves;
    if k > 0 {
      var before := Settle(items, mapper, concurrency, moves, k - 1);
      MapMore(items, mapper, concurrency, moves + before, Arrive(k - 1));
      EveryRunPoolOk(items, mapper, concurrency, moves + before);
      more := before + [Arrive(k - 1)];
      assert moves + more == moves + before + [Arrive(k - 1)];
    }
  }

  /** One worker claims and fills every index that is left. */
  lemma {:induction false} Drain<T, R>(items: seq<T>, mapper: T -> R, concurrency: nat, moves: seq<Move>) returns (more: seq<Move>)
    requires var p := MapRun(items, mapper, concurrency, moves);
             |p.workers| > 0 && forall w :: 0 <= w < |p.workers| ==> p.workers[w].None?
    ensures Finished(items, MapRun(items, mapper, concurrency, moves + more))
    decreases |items| - MapRun(items, mapper, concurrency, moves).next
  {
    hide MapRun;
    more := [];
    assert moves + more == moves;
    if MapRun(items, mapper, concurrency, moves).next < |items| {
      MapMore(items, mapper, concurrency, moves, Claim(0));
      MapMore(items, mapper, concurrency, moves + [Claim(0)], Arrive(0));
      var later := Drain(items, mapper, concurrency, moves + [Claim(0)] + [Arrive(0)]);
      more := [Claim(0), Arrive(0)] + later;
      assert moves + more == moves + [Claim(0)] + [Arrive(0)] + later;
    }
  }

  lemma {:induction false} WorkersStay<T, R>(items: seq<T>, mapper: T -> R, concurrency: nat, moves: seq<Move>)
    ensures |MapRun(items, mapper, concurrency, moves).workers| == if concurrency <= |items| then concurrency else |items|
  {
    if moves != [] {
      WorkersStay(items, mapper, concurrency, moves[..|moves| - 1]);
    }
  }

  /** With a worker at all, every run can be carried on until all workers have returned: the pool never gets stuck. */
  lemma PoolFinishes<T, R>(items: seq<T>, mapper: T -> R, concurrency: nat, moves: seq<Move>) returns (more: seq<Move>)
    requires concurrency > 0
    ensures Finished(items, MapRun(items, mapper, concurrency, moves + more))
  {
    hide MapRun;
    WorkersStay(items, mapper, concurrency, moves);
    EveryRunPoolOk(items, mapper, concurrency, moves);
    var p := MapRun(items, mapper, concurrency, moves);
    more := [];
    assert moves + more == moves;
    if |p.workers| > 0 {
      var settled := Settle(items, mapper, concurrency, moves, |p.workers|);
      var drained := Drain(items, mapper, concurrency, moves + settled);
      more := settled + drained;
      assert moves + more == moves + settled + drained;
    }
  }
}
