/**
 Collecting samples into windows: one open window per key, taken out of the map when it is flushed, whoever flushes it.
 */
module DatasetWindows {
  import opened Wrappers

  datatype Sample = Sample(observedAt: nat, value: int)

  /** The bounds are those of the first and the last sample. */
  datatype Window = Window(samples: seq<Sample>, fromTimestamp: nat, toTimestamp: nat)

  type Windows = map<string, Window>

  /** The map after one more sample of a key. */
  function Ingested(windows: Windows, key: string, sample: Sample): Windows {
    if key in windows
    then windows[key := Window(windows[key].samples + [sample], windows[key].fromTimestamp, sample.observedAt)]
    else windows[key := Window([sample], sample.observedAt, sample.observedAt)]
  }

  class DatasetWindowAggregator {
    var windows: Windows

    constructor ()
      ensures windows == map[]
    {
      windows := map[];
    }

    method Ingest(key: string, sample: Sample)
      modifies this
      ensures windows == Ingested(old(windows), key, sample)
    {
      if key in windows {
        var current := windows[key];
        windows := windows[key := current.(samples := current.samples + [sample], toTimestamp := sample.observedAt)];
        return;
      }
      windows := windows[key := Window([sample], sample.observedAt, sample.observedAt)];
    }

    /** The part of a flush before its first await: the window leaves the map. */
    method Take(key: string) returns (taken: Option<Window>)
      modifies this
      ensures taken == if key in old(windows) then Some(old(windows)[key]) else None
      ensures windows == old(windows) - {key}
    {
      if key !in windows {
        return None;
      }
      taken := Some(windows[key]);
      windows := windows - {key};
    }

    /** Takes every window; `keys` are the map's keys in order of insertion. */
    method Close(keys: seq<string>) returns (taken: seq<(string, Window)>)
      requires Lists(keys, windows)
      modifies this
      ensures windows == map[]
      ensures |taken| == |keys| && forall i :: 0 <= i < |keys| ==> taken[i] == (keys[i], old(windows)[keys[i]])
    {
      hide Lists, Rest;
      taken := [];
      RestEnds(windows, keys);
      for i := 0 to |keys|
        invariant |taken| == i && forall k :: 0 <= k < i ==> taken[k] == (keys[k], old(windows)[keys[k]])
        invariant windows == Rest(old(windows), keys[..i])
      {
        RestNext(windows, old(windows), keys, i);
        var window := Take(keys[i]);
        taken := taken + [(keys[i], window.value)];
      }
      assert keys[..|keys|] == keys;
    }
  }

  /** The keys of a map, each once. */
  ghost predicate Lists(keys: seq<string>, windows: Windows) {
    (forall i, j :: 0 <= i < j < |keys| ==> keys[i] != keys[j]) && forall k :: k in keys <==> k in windows
  }

  ghost function Rest(windows: Windows, gone: seq<string>): Windows {
    windows - set k | k in gone
  }

  lemma RestEnds(windows: Windows, keys: seq<string>)
    requires Lists(keys, windows)
    ensures Rest(windows, keys[..0]) == windows && Rest(windows, keys) == map[]
    ensures forall i :: 0 <= i < |keys| ==> keys[i] in windows
  {}

  lemma RestNext(windows: Windows, was: Windows, keys: seq<string>, i: nat)
    requires Lists(keys, was) && i < |keys| && windows == Rest(was, keys[..i])
    ensures keys[i] in windows && keys[i] in was && windows[keys[i]] == was[keys[i]]
    ensures windows - {keys[i]} == Rest(was, keys[..i + 1])
  {}

  /* ---- Every interleaving ---- */

  datatype Progress = Storing | Stored | Lost

  datatype Flush = Flush(window: Window, progress: Progress)

  /** `flushes` and `history` record, per key, the windows taken so far and the samples ingested so far. */
  datatype State = State(windows: Windows, flushes: map<string, seq<Flush>>, history: map<string, seq<Sample>>)

  /** A flush is started by its timer, by a caller or by close; its store ends later, in any order. */
  datatype Action =
    | Ingest(key: string, sample: Sample)
    | StartFlush(key: string)
    | StoreEnds(key: string, flush: nat, succeeds: bool)

  function FlushesOf(s: State, key: string): seq<Flush> {
    if key in s.flushes then s.flushes[key] else []
  }

  function HistoryOf(s: State, key: string): seq<Sample> {
    if key in s.history then s.history[key] else []
  }

  function OpenOf(s: State, key: string): seq<Sample> {
    if key in s.windows then s.windows[key].samples else []
  }

  function Step(s: State, a: Action): State {
    match a
    case Ingest(key, sample) =>
      s.(windows := Ingested(s.windows, key, sample), history := s.history[key := HistoryOf(s, key) + [sample]])
    case StartFlush(key) =>
      if key !in s.windows then s
      else s.(windows := s.windows - {key}, flushes := s.flushes[key := FlushesOf(s, key) + [Flush(s.windows[key], Storing)]])
    case StoreEnds(key, i, succeeds) =>
      if i >= |FlushesOf(s, key)| || !FlushesOf(s, key)[i].progress.Storing? then s
      else
        var f := FlushesOf(s, key)[i];
        s.(flushes := s.flushes[key := FlushesOf(s, key)[i := f.(progress := if succeeds then Stored else Lost)]])
  }

  function Run(actions: seq<Action>): State {
    if actions == [] then State(map[], map[], map[])
    else Step(Run(actions[..|actions| - 1]), actions[|actions| - 1])
  }

  /** The samples of the flushed windows, one window after the other. */
  function Samples(flushes: seq<Flush>): seq<Sample> {
    if flushes == [] then [] else Samples(flushes[..|flushes| - 1]) + flushes[|flushes| - 1].window.samples
  }

  /** The window's bounds are its first and last sample. */
  predicate Bounded(w: Window) {
    w.samples != [] && w.fromTimestamp == w.samples[0].observedAt && w.toTimestamp == w.samples[|w.samples| - 1].observedAt
  }

  predicate KeyOk(s: State, key: string) {
    && Samples(FlushesOf(s, key)) + OpenOf(s, key) == HistoryOf(s, key)
    && (forall i :: 0 <= i < |FlushesOf(s, key)| ==> Bounded(FlushesOf(s, key)[i].window))
    && (key in s.windows ==> Bounded(s.windows[key]))
  }

  lemma {:induction false} ProgressKeepsSamples(flushes: seq<Flush>, i: nat, progress: Progress)
    requires i < |flushes|
    ensures Samples(flushes[i := flushes[i].(progress := progress)]) == Samples(flushes)
  {
    var next := flushes[i := flushes[i].(progress := progress)];
    var last := |flushes| - 1;
    if i < last {
      assert next[..last] == flushes[..last][i := flushes[i].(progress := progress)];
      ProgressKeepsSamples(flushes[..last], i, progress);
    } else {
      assert next[..last] == flushes[..last];
    }
  }

  lemma SameKey(s: State, n: State, key: string)
    requires KeyOk(s, key)
    requires FlushesOf(n, key) == FlushesOf(s, key) && HistoryOf(n, key) == HistoryOf(s, key)
    requires key in n.windows <==> key in s.windows
    requires key in s.windows ==> n.windows[key] == s.windows[key]
    ensures KeyOk(n, key)
  {}

  lemma IngestKeepsKey(s: State, key: string, sample: Sample)
    requires KeyOk(s, key)
    ensures KeyOk(Step(s, Ingest(key, sample)), key)
  {}

  lemma FlushKeepsKey(s: State, key: string)
    requires KeyOk(s, key)
    ensures KeyOk(Step(s, StartFlush(key)), key)
  {}

  lemma StoreKeepsKey(s: State, key: string, i: nat, succeeds: bool)
    requires KeyOk(s, key)
    ensures KeyOk(Step(s, StoreEnds(key, i, succeeds)), key)
  {
    hide Samples;
    if i < |FlushesOf(s, key)| {
      ProgressKeepsSamples(FlushesOf(s, key), i, if succeeds then Stored else Lost);
    }
  }

  lemma StepKeepsKey(s: State, a: Action, key: string)
    requires KeyOk(s, key)
    ensures KeyOk(Step(s, a), key)
  {
    if a.key != key {
      hide KeyOk;
      SameKey(s, Step(s, a), key);
    } else {
      match a
      case Ingest(k, sample) => IngestKeepsKey(s, key, sample);
      case StartFlush(k) => FlushKeepsKey(s, key);
      case StoreEnds(k, i, succeeds) => StoreKeepsKey(s, key, i, succeeds);
    }
  }

  lemma {:induction false} EveryRunKeepsKey(actions: seq<Action>, key: string)
    ensures KeyOk(Run(actions), key)
  {
    hide Step, KeyOk;
    if actions == [] {
      assert KeyOk(Run([]), key) by { EmptyKey(key); }
    } else {
      EveryRunKeepsKey(actions[..|actions| - 1], key);
      StepKeepsKey(Run(actions[..|actions| - 1]), actions[|actions| - 1], key);
    }
  }

  lemma EmptyKey(key: string)
    ensures KeyOk(State(map[], map[], map[]), key)
  {}

  /* ---- Main results ---- */

  /** What one action ingests for a key. */
  ghost function GivenBy(a: Action, key: string): seq<Sample> {
    match a
    case Ingest(k, sample) => if k == key then [sample] else []
    case _ => []
  }

  /** The samples that were ingested for a key, in order. */
  ghost function Given(actions: seq<Action>, key: string): seq<Sample> {
    if actions == [] then [] else Given(actions[..|actions| - 1], key) + GivenBy(actions[|actions| - 1], key)
  }

  lemma StepHistory(s: State, a: Action, key: string)
    ensures HistoryOf(Step(s, a), key) == HistoryOf(s, key) + GivenBy(a, key)
  {
    assert HistoryOf(s, key) + [] == HistoryOf(s, key);
  }

  lemma {:induction false} HistoryExactly(actions: seq<Action>, key: string)
    ensures HistoryOf(Run(actions), key) == Given(actions, key)
  {
    hide Step, GivenBy;
    if actions != [] {
      HistoryExactly(actions[..|actions| - 1], key);
      StepHistory(Run(actions[..|actions| - 1]), actions[|actions| - 1], key);
    }
  }

  /**
   Whatever flushes the windows and whenever their stores end, the flushed windows of a key, in the order they were
   taken, followed by its open window, are exactly the samples ingested for the key, in order.
   */
  lemma SamplesConserved(actions: seq<Action>, key: string)
    ensures var s := Run(actions); Samples(FlushesOf(s, key)) + OpenOf(s, key) == HistoryOf(s, key) == Given(actions, key)
  {
    hide Run, Given;
    EveryRunKeepsKey(actions, key);
    HistoryExactly(actions, key);
  }

  ghost predicate Failing(a: Action) {
    a.StoreEnds? && !a.succeeds
  }

  ghost predicate NoneLost(s: State) {
    forall key, i :: 0 <= i < |FlushesOf(s, key)| ==> !FlushesOf(s, key)[i].progress.Lost?
  }

  /** When no store fails, nothing is lost: a taken window is being stored or is stored. */
  lemma {:induction false} NothingLost(actions: seq<Action>)
    requires forall a :: a in actions ==> !Failing(a)
    ensures NoneLost(Run(actions))
  {
    if actions != [] {
      var before := actions[..|actions| - 1];
      NothingLost(before);
      StepLosesNothing(Run(before), actions[|actions| - 1]);
    }
  }

  lemma StepLosesNothing(s: State, a: Action)
    requires NoneLost(s) && !Failing(a)
    ensures NoneLost(Step(s, a))
  {
    var n := Step(s, a);
    forall key, i | 0 <= i < |FlushesOf(n, key)|
      ensures !FlushesOf(n, key)[i].progress.Lost?
    {
      assert i < |FlushesOf(s, key)| ==> !FlushesOf(s, key)[i].progress.Lost?;
    }
  }

  /** Every window of the key was taken, and every store has ended. */
  predicate Quiet(s: State, key: string) {
    key !in s.windows && forall i :: 0 <= i < |FlushesOf(s, key)| ==> !FlushesOf(s, key)[i].progress.Storing?
  }

  /** Window i was stored and holds the sample that the key was given as its p-th. */
  ghost predicate StoredIn(flushes: seq<Flush>, history: seq<Sample>, p: nat, i: nat) {
    && i < |flushes| && p < |history| && flushes[i].progress.Stored?
    && var before := |Samples(flushes[..i])|;
       before <= p < before + |flushes[i].window.samples| && flushes[i].window.samples[p - before] == history[p]
  }

  lemma {:induction false} FlushHolding(flushes: seq<Flush>, p: nat) returns (i: nat)
    requires p < |Samples(flushes)|
    ensures i < |flushes|
    ensures var before := |Samples(flushes[..i])|;
            before <= p < before + |flushes[i].window.samples| && flushes[i].window.samples[p - before] == Samples(flushes)[p]
  {
    var rest := flushes[..|flushes| - 1];
    if p < |Samples(rest)| {
      i := FlushHolding(rest, p);
      assert rest[..i] == flushes[..i];
    } else {
      i := |flushes| - 1;
    }
  }

  lemma {:induction false} EarlierEndsBefore(flushes: seq<Flush>, i: nat, j: nat)
    requires i < j <= |flushes|
    ensures |Samples(flushes[..i])| + |flushes[i].window.samples| <= |Samples(flushes[..j])|
  {
    assert flushes[..j][..j - 1] == flushes[..j - 1];
    if i < j - 1 {
      EarlierEndsBefore(flushes, i, j - 1);
    }
  }

  /** After a close whose stores have all succeeded, each ingested sample is in exactly one stored window. */
  lemma EachSampleStoredOnce(actions: seq<Action>, key: string, p: nat)
    requires (forall a :: a in actions ==> !Failing(a)) && Quiet(Run(actions), key)
    requires p < |Given(actions, key)|
    ensures var flushes, history := FlushesOf(Run(actions), key), Given(actions, key);
            && (exists i :: StoredIn(flushes, history, p, i))
            && (forall i, j :: StoredIn(flushes, history, p, i) && StoredIn(flushes, history, p, j) ==> i == j)
  {
    hide Run, Samples, Given;
    NothingLost(actions);
    SamplesConserved(actions, key);
    var flushes, history := FlushesOf(Run(actions), key), HistoryOf(Run(actions), key);
    assert Samples(flushes) == history;
    var i := FlushHolding(flushes, p);
    assert StoredIn(flushes, history, p, i);
    forall j, k | StoredIn(flushes, history, p, j) && StoredIn(flushes, history, p, k)
      ensures j == k
    {
      if j < k {
        EarlierEndsBefore(flushes, j, k);
      } else if k < j {
        EarlierEndsBefore(flushes, k, j);
      }
    }
  }

  predicate InOrder(samples: seq<Sample>) {
    forall i, j :: 0 <= i <= j < |samples| ==> samples[i].observedAt <= samples[j].observedAt
  }

  /** All samples lie within the window's bounds. */
  predicate Covers(w: Window) {
    forall i :: 0 <= i < |w.samples| ==> w.fromTimestamp <= w.samples[i].observedAt <= w.toTimestamp
  }

  /** Where a window's samples sit in the history of its key. */
  lemma {:induction false} WindowInSamples(flushes: seq<Flush>, i: nat) returns (offset: nat)
    requires i < |flushes|
    ensures offset + |flushes[i].window.samples| <= |Samples(flushes)|
    ensures Samples(flushes)[offset..offset + |flushes[i].window.samples|] == flushes[i].window.samples
  {
    var last := |flushes| - 1;
    var before := Samples(flushes[..last]);
    if i < last {
      offset := WindowInSamples(flushes[..last], i);
      assert Samples(flushes)[..|before|] == before;
      var n := |flushes[i].window.samples|;
      assert Samples(flushes)[offset..offset + n] == before[offset..offset + n];
    } else {
      offset := |before|;
    }
  }

  /** When the samples of a key arrive in time order, every flushed window covers its samples. */
  lemma OrderedWindowsCover(actions: seq<Action>, key: string, i: nat)
    requires InOrder(HistoryOf(Run(actions), key)) && i < |FlushesOf(Run(actions), key)|
    ensures Covers(FlushesOf(Run(actions), key)[i].window)
  {
    hide Run;
    EveryRunKeepsKey(actions, key);
    var s := Run(actions);
    var w := FlushesOf(s, key)[i].window;
    var offset := WindowInSamples(FlushesOf(s, key), i);
    var all := HistoryOf(s, key);
    assert all[..|Samples(FlushesOf(s, key))|] == Samples(FlushesOf(s, key));
    assert w.samples == all[offset..offset + |w.samples|];
    forall k | 0 <= k < |w.samples|
      ensures w.fromTimestamp <= w.samples[k].observedAt <= w.toTimestamp
    {
      assert w.samples[k] == all[offset + k];
      assert w.samples[0] == all[offset];
      assert w.samples[|w.samples| - 1] == all[offset + |w.samples| - 1];
    }
  }

  /* ---- What a run is given, and how it ends ---- */

  lemma RunMore(actions: seq<Action>, a: Action)
    ensures Run(actions + [a]) == Step(Run(actions), a)
  {
    assert (actions + [a])[..|actions|] == actions;
  }

  /** A flush takes the open window of its key, whose bounds are those of its first and last sample, and no other. */
  lemma FlushTakesExactly(actions: seq<Action>, key: string, other: string)
    ensures var s, n := Run(actions), Run(actions + [StartFlush(key)]);
            && OpenOf(n, key) == [] && HistoryOf(n, other) == HistoryOf(s, other)
            && (OpenOf(s, key) != [] ==>
                  && |FlushesOf(n, key)| == |FlushesOf(s, key)| + 1 && FlushesOf(n, key)[..|FlushesOf(s, key)|] == FlushesOf(s, key)
                  && var taken := FlushesOf(n, key)[|FlushesOf(s, key)|];
                     taken.window.samples == OpenOf(s, key) && Bounded(taken.window) && taken.progress == Storing)
            && (OpenOf(s, key) == [] ==> FlushesOf(n, key) == FlushesOf(s, key))
            && (other != key ==> OpenOf(n, other) == OpenOf(s, other) && FlushesOf(n, other) == FlushesOf(s, other))
  {
    RunMore(actions, StartFlush(key));
    EveryRunKeepsKey(actions, key);
  }

  /** Every run can be carried on until nothing of a key is open or being stored; none of the added stores fails. */
  lemma FlushCompletes(actions: seq<Action>, key: string) returns (more: seq<Action>)
    ensures Quiet(Run(actions + more), key) && HistoryOf(Run(actions + more), key) == HistoryOf(Run(actions), key)
    ensures forall a :: a in more ==> !Failing(a)
  {
    hide Run, FlushesOf, HistoryOf, OpenOf, Bounded;
    FlushTakesExactly(actions, key, key);
    NothingOpen(actions + [StartFlush(key)], key);
    var stores := EndFirst(actions + [StartFlush(key)], key, |FlushesOf(Run(actions + [StartFlush(key)]), key)|);
    more := [StartFlush(key)] + stores;
    assert actions + more == actions + [StartFlush(key)] + stores;
  }

  lemma NothingOpen(actions: seq<Action>, key: string)
    requires OpenOf(Run(actions), key) == []
    ensures key !in Run(actions).windows
  {
    EveryRunKeepsKey(actions, key);
  }

  /** The stores of the first n windows of a key end. */
  lemma {:induction false} EndFirst(actions: seq<Action>, key: string, n: nat) returns (more: seq<Action>)
    requires key !in Run(actions).windows && n <= |FlushesOf(Run(actions), key)|
    ensures var s := Run(actions + more);
            && key !in s.windows && HistoryOf(s, key) == HistoryOf(Run(actions), key)
            && |FlushesOf(s, key)| == |FlushesOf(Run(actions), key)|
            && forall i :: 0 <= i < n ==> !FlushesOf(s, key)[i].progress.Storing?
    ensures forall a :: a in more ==> !Failing(a)
  {
    hide Run;
    more := [];
    assert actions + more == actions;
    if n > 0 {
      var before := EndFirst(actions, key, n - 1);
      var last := StoreEnds(key, n - 1, true);
      RunMore(actions + before, last);
      more := before + [last];
      assert actions + more == actions + before + [last];
    }
  }
}
