/**
 Every interleaving of the ingestion worker's calls at their awaits. The `processing` flag is set only after the
 dequeue has been awaited, so several jobs may be in flight at once.
 */
module IngestionRuns {
  import opened Wrappers
  import opened IngestionQueue
  import G = GasStations

  /** Taken: dequeued. Running: its mutation is awaited. Asking: its lookup is awaited. */
  datatype Flight = Taken(item: Item) | Running(item: Item) | Asking(item: Item)

  /**
   `closing` counts calls that are done with their job but have not cleared the flag yet. The last four fields record
   history: ids ever enqueued, executions and applied mutations per job, and the references found on the chain.
   */
  datatype State = State(
    queue: seq<Item>, flights: seq<Flight>, processing: bool, closing: nat,
    failed: seq<(Job, Reason)>, done: seq<nat>, lost: seq<nat>,
    enqueued: set<nat>, runs: map<nat, nat>, commits: map<nat, nat>, references: set<(string, string)>)

  datatype Action =
    | Enqueue(id: nat, key: string, twin: string)
    | Take(now: nat)
    | Begin(flight: nat)
    | Finish(flight: nat, applied: nat, error: Option<Error>, now: nat, random: real)
    | Reply(flight: nat, answer: Answer, now: nat, random: real)
    | Close

  function Get(m: map<nat, nat>, k: nat): nat {
    if k in m then m[k] else 0
  }

  function Init(): State {
    State([], [], false, 0, [], [], [], {}, map[], map[], {})
  }

  function Reference(job: Job): (string, string) {
    (job.twin, job.key)
  }

  /** The flight ends with the given verdict; Ask keeps it in flight. */
  function Settle(s: State, i: nat, verdict: Verdict, options: Options, now: nat, random: real): State
    requires i < |s.flights| && 0.0 <= random
  {
    var item := s.flights[i].item;
    var rest := s.(flights := RemoveAt(s.flights, i), closing := s.closing + 1);
    match verdict
    case Ask => s.(flights := s.flights[i := Asking(item)])
    case Fail(reason) => rest.(failed := s.failed + [(item.job, reason)])
    case Retry => rest.(queue := s.queue + [Requeued(item.job, options, now, random)])
    case Forget => rest.(done := s.done + [item.job.id])
    case Drop => rest.(lost := s.lost + [item.job.id])
  }

  /** The mutation of flight i was applied `n` more times. */
  function Record(s: State, i: nat, n: nat): State
    requires i < |s.flights|
  {
    var job := s.flights[i].item.job;
    s.(commits := s.commits[job.id := Get(s.commits, job.id) + n],
       references := s.references + if n > 0 then {Reference(job)} else {})
  }

  function Step(options: Options, s: State, a: Action): State {
    match a
    case Enqueue(id, key, twin) =>
      if id in s.enqueued then s
      else s.(queue := s.queue + [Item(Job(id, key, twin, 0), 0)], enqueued := s.enqueued + {id})
    case Take(now) =>
      var ready := FirstReady(s.queue, now);
      if s.processing || ready.None? then s
      else s.(queue := RemoveAt(s.queue, ready.value), flights := s.flights + [Taken(s.queue[ready.value])])
    case Begin(i) =>
      if i >= |s.flights| || !s.flights[i].Taken? then s
      else
        var item := s.flights[i].item;
        s.(processing := true, flights := s.flights[i := Running(item)], runs := s.runs[item.job.id := Get(s.runs, item.job.id) + 1])
    case Finish(i, applied, error, now, random) =>
      if i >= |s.flights| || !s.flights[i].Running? || random < 0.0 then s
      else
        var verdict := if error.None? then Forget else Judge(s.flights[i].item.job, error.value, options);
        Settle(Record(s, i, applied), i, verdict, options, now, random)
    case Reply(i, answer, now, random) =>
      if i >= |s.flights| || !s.flights[i].Asking? || random < 0.0 then s
      else Settle(s, i, JudgeAnswer(answer), options, now, random)
    case Close =>
      if s.closing == 0 then s else s.(processing := false, closing := s.closing - 1)
  }

  function Run(options: Options, actions: seq<Action>): State {
    if actions == [] then Init() else Step(options, Run(options, actions[..|actions| - 1]), actions[|actions| - 1])
  }

  /* ---- Conservation ---- */

  function QueueIds(queue: seq<Item>): seq<nat> {
    seq(|queue|, i requires 0 <= i < |queue| => queue[i].job.id)
  }

  function FlightIds(flights: seq<Flight>): seq<nat> {
    seq(|flights|, i requires 0 <= i < |flights| => flights[i].item.job.id)
  }

  function FailedIds(failed: seq<(Job, Reason)>): seq<nat> {
    seq(|failed|, i requires 0 <= i < |failed| => failed[i].0.id)
  }

  /** Every place a job can be in, with multiplicity. */
  ghost function Everywhere(s: State): multiset<nat> {
    multiset(QueueIds(s.queue)) + multiset(FlightIds(s.flights)) + multiset(FailedIds(s.failed)) + multiset(s.done) + multiset(s.lost)
  }

  /** Each enqueued job is in exactly one place, and nothing else is anywhere. */
  ghost predicate Conserved(s: State) {
    Everywhere(s) == multiset(s.enqueued)
  }

  lemma RemoveOne<T>(s: seq<T>, i: nat)
    requires i < |s|
    ensures multiset(s) == multiset(RemoveAt(s, i)) + multiset{s[i]}
  {
    assert s == s[..i] + [s[i]] + s[i + 1..];
  }

  lemma QueueRemove(queue: seq<Item>, i: nat)
    requires i < |queue|
    ensures multiset(QueueIds(queue)) == multiset(QueueIds(RemoveAt(queue, i))) + multiset{queue[i].job.id}
  {
    assert QueueIds(RemoveAt(queue, i)) == RemoveAt(QueueIds(queue), i);
    RemoveOne(QueueIds(queue), i);
  }

  lemma FlightRemove(flights: seq<Flight>, i: nat)
    requires i < |flights|
    ensures multiset(FlightIds(flights)) == multiset(FlightIds(RemoveAt(flights, i))) + multiset{flights[i].item.job.id}
  {
    assert FlightIds(RemoveAt(flights, i)) == RemoveAt(FlightIds(flights), i);
    RemoveOne(FlightIds(flights), i);
  }

  lemma Appends(queue: seq<Item>, item: Item, flights: seq<Flight>, f: Flight, failed: seq<(Job, Reason)>, e: (Job, Reason))
    ensures multiset(QueueIds(queue + [item])) == multiset(QueueIds(queue)) + multiset{item.job.id}
    ensures multiset(FlightIds(flights + [f])) == multiset(FlightIds(flights)) + multiset{f.item.job.id}
    ensures multiset(FailedIds(failed + [e])) == multiset(FailedIds(failed)) + multiset{e.0.id}
  {
    assert QueueIds(queue + [item]) == QueueIds(queue) + [item.job.id];
    assert FlightIds(flights + [f]) == FlightIds(flights) + [f.item.job.id];
    assert FailedIds(failed + [e]) == FailedIds(failed) + [e.0.id];
  }

  lemma SettleConserves(s: State, i: nat, verdict: Verdict, options: Options, now: nat, random: real)
    requires i < |s.flights| && 0.0 <= random
    ensures Everywhere(Settle(s, i, verdict, options, now, random)) == Everywhere(s)
  {
    hide RemoveAt, Requeued, QueueIds, FlightIds, FailedIds;
    var item := s.flights[i].item;
    FlightRemove(s.flights, i);
    match verdict
    case Ask => SameFlightIds(s.flights, i, Asking(item));
    case Fail(reason) => FailConserves(s, i, reason, options, now, random);
    case Retry => RetryConserves(s, i, options, now, random);
    case Forget =>
    case Drop =>
  }

  lemma FailConserves(s: State, i: nat, reason: Reason, options: Options, now: nat, random: real)
    requires i < |s.flights| && 0.0 <= random
    ensures Everywhere(Settle(s, i, Fail(reason), options, now, random)) == Everywhere(s)
  {
    hide RemoveAt, Requeued, QueueIds, FlightIds, FailedIds;
    FlightRemove(s.flights, i);
    var item := s.flights[i].item;
    Appends(s.queue, item, s.flights, s.flights[i], s.failed, (item.job, reason));
  }

  lemma RetryConserves(s: State, i: nat, options: Options, now: nat, random: real)
    requires i < |s.flights| && 0.0 <= random
    ensures Everywhere(Settle(s, i, Retry, options, now, random)) == Everywhere(s)
  {
    hide RemoveAt, Backoff, Jitter, QueueIds, FlightIds, FailedIds;
    FlightRemove(s.flights, i);
    var item := s.flights[i].item;
    Appends(s.queue, Requeued(item.job, options, now, random), s.flights, s.flights[i], s.failed, (item.job, RetrySafetyUnavailable));
  }

  lemma SameFlightIds(flights: seq<Flight>, i: nat, f: Flight)
    requires i < |flights| && flights[i].item.job.id == f.item.job.id
    ensures FlightIds(flights[i := f]) == FlightIds(flights)
  {}

  lemma StepConserves(options: Options, s: State, a: Action)
    requires Conserved(s)
    ensures Conserved(Step(options, s, a))
  {
    hide Settle, RemoveAt, QueueIds, FlightIds, FailedIds, Judge;
    match a
    case Enqueue(id, key, twin) => EnqueueConserves(options, s, id, key, twin);
    case Take(now) => TakeConserves(options, s, now);
    case Begin(i) => BeginConserves(options, s, i);
    case Finish(i, applied, error, now, random) => EndConserves(options, s, a);
    case Reply(i, answer, now, random) => EndConserves(options, s, a);
    case Close =>
  }

  lemma BeginConserves(options: Options, s: State, i: nat)
    requires Conserved(s)
    ensures Conserved(Step(options, s, Begin(i)))
  {
    hide QueueIds, FlightIds, FailedIds;
    if i < |s.flights| && s.flights[i].Taken? {
      SameFlightIds(s.flights, i, Running(s.flights[i].item));
    }
  }

  lemma EndConserves(options: Options, s: State, a: Action)
    requires Conserved(s) && (a.Finish? || a.Reply?)
    ensures Conserved(Step(options, s, a))
  {
    hide Settle, QueueIds, FlightIds, FailedIds, Judge, JudgeAnswer;
    if a.flight < |s.flights| && a.random >= 0.0 {
      var verdict := if a.Reply? then JudgeAnswer(a.answer)
                     else if a.error.None? then Forget else Judge(s.flights[a.flight].item.job, a.error.value, options);
      var before := if a.Reply? then s else Record(s, a.flight, a.applied);
      SettleConserves(before, a.flight, verdict, options, a.now, a.random);
      SettleKeepsHistory(before, a.flight, verdict, options, a.now, a.random);
    }
  }

  lemma EnqueueConserves(options: Options, s: State, id: nat, key: string, twin: string)
    requires Conserved(s)
    ensures Conserved(Step(options, s, Enqueue(id, key, twin)))
  {
    hide QueueIds, FlightIds, FailedIds;
    if id !in s.enqueued {
      var item := Item(Job(id, key, twin, 0), 0);
      Appends(s.queue, item, s.flights, Taken(item), s.failed, (item.job, RetrySafetyUnavailable));
      assert multiset(s.enqueued + {id}) == multiset(s.enqueued) + multiset{id};
    }
  }

  lemma TakeConserves(options: Options, s: State, now: nat)
    requires Conserved(s)
    ensures Conserved(Step(options, s, Take(now)))
  {
    hide RemoveAt, QueueIds, FlightIds, FailedIds;
    var ready := FirstReady(s.queue, now);
    if !s.processing && ready.Some? {
      var item := s.queue[ready.value];
      QueueRemove(s.queue, ready.value);
      Appends(s.queue, item, s.flights, Taken(item), s.failed, (item.job, RetrySafetyUnavailable));
    }
  }

  lemma SettleKeepsHistory(s: State, i: nat, verdict: Verdict, options: Options, now: nat, random: real)
    requires i < |s.flights| && 0.0 <= random
    ensures var n := Settle(s, i, verdict, options, now, random);
            n.enqueued == s.enqueued && n.runs == s.runs && n.commits == s.commits && n.references == s.references
  {}

  /** At every moment of every run, each enqueued job is in exactly one of queue, flight, failed, done or lost. */
  lemma {:induction false} EveryRunConserves(options: Options, actions: seq<Action>)
    ensures Conserved(Run(options, actions))
  {
    hide Step, Conserved;
    if actions == [] {
      assert Conserved(Init()) by { StartConserved(); }
    } else {
      EveryRunConserves(options, actions[..|actions| - 1]);
      StepConserves(options, Run(options, actions[..|actions| - 1]), actions[|actions| - 1]);
    }
  }

  lemma StartConserved()
    ensures Conserved(Init())
  {}

  /* ---- Lost jobs ---- */

  /** The job is queued, in flight, failed or done. */
  predicate Present(s: State, id: nat) {
    id in QueueIds(s.queue) || id in FlightIds(s.flights) || id in FailedIds(s.failed) || id in s.done
  }

  /** The lookup that a job's flight awaits throws. */
  predicate LookupThrows(s: State, a: Action, id: nat) {
    && a.Reply? && a.answer.Throws? && a.random >= 0.0
    && a.flight < |s.flights| && s.flights[a.flight].Asking? && s.flights[a.flight].item.job.id == id
  }

  /** Somewhere in the run the job's lookup threw. */
  ghost predicate Threw(options: Options, actions: seq<Action>, id: nat) {
    exists k :: 0 <= k < |actions| && LookupThrows(Run(options, actions[..k]), actions[k], id)
  }

  lemma ThrewBefore(options: Options, actions: seq<Action>, id: nat)
    requires actions != []
    ensures var before, last := actions[..|actions| - 1], actions[|actions| - 1];
            Threw(options, actions, id) <==> Threw(options, before, id) || LookupThrows(Run(options, before), last, id)
  {
    hide Run, LookupThrows;
    var n := |actions| - 1;
    assert forall k :: 0 <= k < n ==> actions[..n][..k] == actions[..k];
  }

  lemma LostInStep(options: Options, s: State, a: Action, id: nat)
    ensures id in Step(options, s, a).lost <==> id in s.lost || LookupThrows(s, a, id)
  {
    hide FirstReady, RemoveAt, Requeued;
  }

  lemma {:induction false} LostMembers(options: Options, actions: seq<Action>, id: nat)
    ensures id in Run(options, actions).lost <==> Threw(options, actions, id)
  {
    hide Step, LookupThrows;
    if actions != [] {
      LostMembers(options, actions[..|actions| - 1], id);
      LostInStep(options, Run(options, actions[..|actions| - 1]), actions[|actions| - 1], id);
      ThrewBefore(options, actions, id);
    }
  }

  lemma NowhereElse(s: State, id: nat)
    requires Conserved(s)
    ensures id in s.lost ==> id in s.enqueued
    ensures id in s.enqueued ==> (Present(s, id) <==> id !in s.lost)
  {
    hide QueueIds, FlightIds, FailedIds;
    assert Everywhere(s)[id] == multiset(s.enqueued)[id] <= 1;
  }

  /** An enqueued job is neither queued, in flight, failed nor done exactly when a lookup for it threw. */
  lemma LostExactly(options: Options, actions: seq<Action>, id: nat)
    requires id in Run(options, actions).enqueued
    ensures !Present(Run(options, actions), id) <==> Threw(options, actions, id)
  {
    hide Run, Conserved, Present, Threw;
    EveryRunConserves(options, actions);
    LostMembers(options, actions, id);
    NowhereElse(Run(options, actions), id);
  }

  /** A run keeps every enqueued job exactly when none of the lookups awaited in it throws. */
  lemma NothingLost(options: Options, actions: seq<Action>)
    ensures (forall id :: id in Run(options, actions).enqueued ==> Present(Run(options, actions), id))
            <==> forall id :: !Threw(options, actions, id)
  {
    hide Run, Conserved, Present, Threw;
    var s := Run(options, actions);
    EveryRunConserves(options, actions);
    forall id: nat
      ensures Threw(options, actions, id) <==> id in s.enqueued && !Present(s, id)
    {
      LostMembers(options, actions, id);
      NowhereElse(s, id);
    }
  }

  /** A retryable failure of unknown outcome, then a lookup that throws: the job is nowhere any more. */
  lemma ThrowLosesJob(options: Options) returns (actions: seq<Action>)
    requires options.maxAttempts >= 2
    ensures var s := Run(options, actions);
            s.enqueued == {1} && s.lost == [1] && s.queue == [] && s.flights == [] && s.failed == [] && s.done == []
  {
    hide Run, Backoff, Jitter;
    var item := Item(Job(1, "key", "twin", 0), 0);
    var s := RunNothing(options);
    actions := [];
    s := RunMore(options, actions, Enqueue(1, "key", "twin"));
    actions := actions + [Enqueue(1, "key", "twin")];
    assert s.queue == [item] && FirstReady([item], 0) == Some(0);
    s := RunMore(options, actions, Take(0));
    actions := actions + [Take(0)];
    assert s.flights == [Taken(item)] && s.queue == [];
    s := RunMore(options, actions, Begin(0));
    actions := actions + [Begin(0)];
    assert s.flights == [Running(item)];
    s := RunMore(options, actions, Finish(0, 0, Some(Error(true, true)), 0, 0.0));
    actions := actions + [Finish(0, 0, Some(Error(true, true)), 0, 0.0)];
    assert s.flights == [Asking(item)];
    s := RunMore(options, actions, Reply(0, Throws, 0, 0.0));
    actions := actions + [Reply(0, Throws, 0, 0.0)];
  }

  lemma RunNothing(options: Options) returns (s: State)
    ensures s == Run(options, []) == Init()
  {
    s := Init();
  }

  lemma RunMore(options: Options, actions: seq<Action>, a: Action) returns (s: State)
    ensures s == Run(options, actions + [a]) == Step(options, Run(options, actions), a)
  {
    assert (actions + [a])[..|actions|] == actions;
    s := Run(options, actions + [a]);
  }

  /* ---- Attempts ---- */

  function Limit(options: Options): nat {
    Max(1, options.maxAttempts)
  }

  ghost predicate WaitingCounted(options: Options, s: State, item: Item) {
    Get(s.runs, item.job.id) == item.job.attempts < Limit(options)
  }

  ghost predicate FlightCounted(options: Options, s: State, f: Flight) {
    match f
    case Taken(item) => WaitingCounted(options, s, item)
    case Running(item) => Get(s.runs, item.job.id) == item.job.attempts + 1 <= Limit(options)
    case Asking(item) => Get(s.runs, item.job.id) == item.job.attempts + 1 < Limit(options)
  }

  /** The attempts a job carries are the executions it has had. */
  ghost predicate Counted(options: Options, s: State) {
    && (forall item :: item in s.queue ==> WaitingCounted(options, s, item))
    && (forall f :: f in s.flights ==> FlightCounted(options, s, f))
    && (forall id :: id in s.runs ==> s.runs[id] <= Limit(options))
    && (forall id :: id in s.runs ==> id in s.enqueued)
  }

  /** The job of flight i is in no other place. */
  lemma OnlyInFlight(s: State, i: nat)
    requires Conserved(s) && i < |s.flights|
    ensures s.flights[i].item.job.id in s.enqueued
    ensures forall item :: item in s.queue ==> item.job.id != s.flights[i].item.job.id
    ensures forall f :: f in RemoveAt(s.flights, i) ==> f.item.job.id != s.flights[i].item.job.id
  {
    hide RemoveAt;
    var id := s.flights[i].item.job.id;
    FlightRemove(s.flights, i);
    var rest := RemoveAt(s.flights, i);
    assert Everywhere(s)[id] <= 1;
    assert id in Everywhere(s);
    forall item | item in s.queue
      ensures item.job.id != id
    {
      var k :| 0 <= k < |s.queue| && s.queue[k] == item;
      assert QueueIds(s.queue)[k] == item.job.id;
      assert item.job.id in multiset(QueueIds(s.queue));
    }
    forall f | f in rest
      ensures f.item.job.id != id
    {
      var k :| 0 <= k < |rest| && rest[k] == f;
      assert FlightIds(rest)[k] == f.item.job.id;
      assert f.item.job.id in multiset(FlightIds(rest));
    }
  }

  lemma ReplaceMembers(flights: seq<Flight>, i: nat, f: Flight)
    requires i < |flights|
    ensures forall g :: g in flights[i := f] ==> g == f || g in RemoveAt(flights, i)
    ensures forall g :: g in RemoveAt(flights, i) ==> g in flights
  {}

  lemma QueueRemoveMembers(queue: seq<Item>, i: nat)
    requires i < |queue|
    ensures forall item :: item in RemoveAt(queue, i) ==> item in queue
  {}

  lemma SettleCounts(options: Options, s: State, i: nat, verdict: Verdict, now: nat, random: real)
    requires Conserved(s) && Counted(options, s) && i < |s.flights| && 0.0 <= random
    requires !s.flights[i].Taken?
    requires verdict.Ask? || verdict.Retry? ==> s.flights[i].item.job.attempts + 1 < Limit(options)
    ensures Counted(options, Settle(s, i, verdict, options, now, random))
  {
    hide RemoveAt, Conserved, Limit, Backoff, Jitter;
    ReplaceMembers(s.flights, i, Asking(s.flights[i].item));
    OnlyInFlight(s, i);
    assert FlightCounted(options, s, s.flights[i]);
    var n := Settle(s, i, verdict, options, now, random);
    assert forall f :: f in n.flights ==> f == Asking(s.flights[i].item) || f in s.flights;
  }

  lemma StepCounts(options: Options, s: State, a: Action)
    requires Conserved(s) && Counted(options, s)
    ensures Counted(options, Step(options, s, a))
  {
    match a
    case Enqueue(id, key, twin) => EnqueueCounts(options, s, a);
    case Take(now) => TakeCounts(options, s, a);
    case Begin(i) => BeginCounts(options, s, i);
    case Finish(i, applied, error, now, random) => FinishCounts(options, s, a);
    case Reply(i, answer, now, random) =>
      hide Settle, Conserved, Counted, Limit;
      if i < |s.flights| && s.flights[i].Asking? && random >= 0.0 {
        AskingHasRoom(options, s, i);
        SettleCounts(options, s, i, JudgeAnswer(answer), now, random);
      }
    case Close =>
  }

  lemma AskingHasRoom(options: Options, s: State, i: nat)
    requires Counted(options, s) && i < |s.flights| && s.flights[i].Asking?
    ensures s.flights[i].item.job.attempts + 1 < Limit(options)
  {
    assert FlightCounted(options, s, s.flights[i]);
  }

  lemma EnqueueCounts(options: Options, s: State, a: Action)
    requires Conserved(s) && Counted(options, s) && a.Enqueue?
    ensures Counted(options, Step(options, s, a))
  {}

  lemma TakeCounts(options: Options, s: State, a: Action)
    requires Conserved(s) && Counted(options, s) && a.Take?
    ensures Counted(options, Step(options, s, a))
  {
    hide Conserved, RemoveAt, Limit;
    var ready := FirstReady(s.queue, a.now);
    if !s.processing && ready.Some? {
      QueueRemoveMembers(s.queue, ready.value);
      assert WaitingCounted(options, s, s.queue[ready.value]);
    }
  }

  lemma BeginCounts(options: Options, s: State, i: nat)
    requires Conserved(s) && Counted(options, s)
    ensures Counted(options, Step(options, s, Begin(i)))
  {
    hide Conserved, RemoveAt, Limit;
    if i < |s.flights| && s.flights[i].Taken? {
      ReplaceMembers(s.flights, i, Running(s.flights[i].item));
      OnlyInFlight(s, i);
      assert FlightCounted(options, s, s.flights[i]);
      var n := Step(options, s, Begin(i));
      assert forall f :: f in n.flights ==> f == Running(s.flights[i].item) || f in RemoveAt(s.flights, i);
    }
  }

  lemma FinishCounts(options: Options, s: State, a: Action)
    requires Conserved(s) && Counted(options, s) && a.Finish?
    ensures Counted(options, Step(options, s, a))
  {
    hide Settle, Limit;
    var i := a.flight;
    if i < |s.flights| && s.flights[i].Running? && a.random >= 0.0 {
      var r := Record(s, i, a.applied);
      assert Conserved(r);
      assert Counted(options, r);
      var job := s.flights[i].item.job;
      var verdict := if a.error.None? then Forget else Judge(job, a.error.value, options);
      assert verdict.Ask? || verdict.Retry? ==> job.attempts + 1 < options.maxAttempts;
      assert options.maxAttempts <= Limit(options) by { LimitCovers(options); }
      SettleCounts(options, r, i, verdict, a.now, a.random);
    }
  }

  lemma LimitCovers(options: Options)
    ensures options.maxAttempts <= Limit(options)
  {}

  /** No job is ever executed more often than the configured number of attempts, which counts as at least one. */
  lemma {:induction false} EveryRunCounts(options: Options, actions: seq<Action>)
    ensures Counted(options, Run(options, actions))
    ensures forall id :: Get(Run(options, actions).runs, id) <= if options.maxAttempts > 1 then options.maxAttempts else 1
  {
    hide Step, Conserved;
    if actions != [] {
      EveryRunCounts(options, actions[..|actions| - 1]);
      EveryRunConserves(options, actions[..|actions| - 1]);
      StepCounts(options, Run(options, actions[..|actions| - 1]), actions[|actions| - 1]);
    }
  }

  /* ---- How a job ends ---- */

  /** An execution of the job ends. */
  predicate Executed(s: State, a: Action, id: nat) {
    && a.Finish? && a.random >= 0.0
    && a.flight < |s.flights| && s.flights[a.flight].Running? && s.flights[a.flight].item.job.id == id
  }

  /** The lookup awaited for the job answers. */
  predicate Replied(s: State, a: Action, id: nat) {
    && a.Reply? && a.random >= 0.0
    && a.flight < |s.flights| && s.flights[a.flight].Asking? && s.flights[a.flight].item.job.id == id
  }

  /** An execution without error, or a lookup that finds the mutation. */
  predicate Completes(s: State, a: Action, id: nat) {
    (Executed(s, a, id) && a.error.None?) || (Replied(s, a, id) && a.answer == Known(true))
  }

  /** An error that must not be retried, the last allowed execution, or a lookup that cannot tell. */
  predicate GivesUp(options: Options, s: State, a: Action, id: nat) {
    || (Executed(s, a, id) && a.error.Some? && (!a.error.value.retryable || Get(s.runs, id) >= options.maxAttempts))
    || (Replied(s, a, id) && a.answer == Absent)
  }

  /** A retryable error of known outcome before the last execution, or a lookup that does not find the mutation. */
  predicate Retries(options: Options, s: State, a: Action, id: nat) {
    || (Executed(s, a, id) && a.error.Some? && a.error.value.retryable && Get(s.runs, id) < options.maxAttempts
        && !a.error.value.submissionUnknown)
    || (Replied(s, a, id) && a.answer == Known(false))
  }

  ghost predicate Completed(options: Options, actions: seq<Action>, id: nat) {
    exists k :: 0 <= k < |actions| && Completes(Run(options, actions[..k]), actions[k], id)
  }

  ghost predicate GaveUp(options: Options, actions: seq<Action>, id: nat) {
    exists k :: 0 <= k < |actions| && GivesUp(options, Run(options, actions[..k]), actions[k], id)
  }

  lemma EndsBefore(options: Options, actions: seq<Action>, id: nat)
    requires actions != []
    ensures var before, last := actions[..|actions| - 1], actions[|actions| - 1];
            && (Completed(options, actions, id) <==> Completed(options, before, id) || Completes(Run(options, before), last, id))
            && (GaveUp(options, actions, id) <==> GaveUp(options, before, id) || GivesUp(options, Run(options, before), last, id))
  {
    hide Run, Completes, GivesUp;
    var n := |actions| - 1;
    assert forall k :: 0 <= k < n ==> actions[..n][..k] == actions[..k];
  }

  lemma FailedIdsAppend(failed: seq<(Job, Reason)>, e: (Job, Reason), id: nat)
    ensures id in FailedIds(failed + [e]) <==> id in FailedIds(failed) || e.0.id == id
  {
    assert FailedIds(failed + [e]) == FailedIds(failed) + [e.0.id];
  }

  lemma EndsInStep(options: Options, s: State, a: Action, id: nat)
    requires Counted(options, s)
    ensures id in Step(options, s, a).done <==> id in s.done || Completes(s, a, id)
    ensures id in FailedIds(Step(options, s, a).failed) <==> id in FailedIds(s.failed) || GivesUp(options, s, a, id)
  {
    hide FirstReady, RemoveAt, Requeued, Limit, FailedIds, Counted;
    if a.Finish? || a.Reply? {
      if a.flight < |s.flights| {
        if !s.flights[a.flight].Taken? {
          InFlightCounted(options, s, a.flight);
        }
        FailedIdsAppend(s.failed, (s.flights[a.flight].item.job, RetrySafetyUnavailable), id);
        if a.Finish? && a.error.Some? {
          FailedIdsAppend(s.failed, (s.flights[a.flight].item.job, Gave(a.error.value)), id);
        }
      }
    }
  }

  /** A job is done exactly when an execution of it ended without error or a lookup found its mutation. */
  lemma {:induction false} DoneExactly(options: Options, actions: seq<Action>, id: nat)
    ensures id in Run(options, actions).done <==> Completed(options, actions, id)
  {
    hide Step, Completes, GivesUp, Counted;
    if actions != [] {
      DoneExactly(options, actions[..|actions| - 1], id);
      EveryRunCounts(options, actions[..|actions| - 1]);
      EndsInStep(options, Run(options, actions[..|actions| - 1]), actions[|actions| - 1], id);
      EndsBefore(options, actions, id);
    }
  }

  /**
   A job is failed exactly when an execution of it ended in an error that must not be retried, or in any error at its last
   allowed execution, or when a lookup could not tell whether its mutation is on the chain.
   */
  lemma {:induction false} FailedExactly(options: Options, actions: seq<Action>, id: nat)
    ensures id in FailedIds(Run(options, actions).failed) <==> GaveUp(options, actions, id)
  {
    hide Step, Completes, GivesUp, Counted;
    if actions != [] {
      FailedExactly(options, actions[..|actions| - 1], id);
      EveryRunCounts(options, actions[..|actions| - 1]);
      EndsInStep(options, Run(options, actions[..|actions| - 1]), actions[|actions| - 1], id);
      EndsBefore(options, actions, id);
    }
  }

  /** The queued item is the job of a flight, back with one more attempt after its delay. */
  ghost predicate ComesBack(options: Options, job: Job, attempts: nat, now: nat, item: Item) {
    item.job == job.(attempts := attempts) && attempts > 0 && WaitsInWindow(item, options, now)
  }

  lemma RequeuedComesBack(options: Options, job: Job, now: nat, random: real)
    requires 0.0 <= random < 1.0
    ensures ComesBack(options, job, job.attempts + 1, now, Requeued(job, options, now, random))
  {
    RetryDelay(job, options, now, random);
  }

  /**
   Every ended execution or answered lookup that neither completes the job, nor gives it up, nor asks a lookup, nor loses it
   to one that throws, puts the job back at the end of the queue with the executions it has had.
   */
  lemma RetriedExactly(options: Options, actions: seq<Action>, a: Action, id: nat)
    requires var s := Run(options, actions); Executed(s, a, id) || Replied(s, a, id)
    requires a.random < 1.0
    ensures var s, n := Run(options, actions), Run(options, actions + [a]);
            if Retries(options, s, a, id) then
              |n.queue| == |s.queue| + 1 && n.queue[..|s.queue|] == s.queue
              && ComesBack(options, s.flights[a.flight].item.job, Get(s.runs, id), a.now, n.queue[|s.queue|])
            else n.queue == s.queue
  {
    hide Run, RemoveAt, Requeued, ComesBack, Limit;
    EveryRunCounts(options, actions);
    var s := Run(options, actions);
    var job := s.flights[a.flight].item.job;
    InFlightCounted(options, s, a.flight);
    hide Counted;
    var n := RunMore(options, actions, a);
    RequeuedComesBack(options, job, a.now, a.random);
  }

  lemma InFlightCounted(options: Options, s: State, i: nat)
    requires Counted(options, s) && i < |s.flights| && !s.flights[i].Taken?
    ensures Get(s.runs, s.flights[i].item.job.id) == s.flights[i].item.job.attempts + 1
  {
    assert FlightCounted(options, s, s.flights[i]);
  }

  /** What a success means: an execution without error applied the mutation, and the lookup finds only what was applied. */
  ghost predicate Trusted(s: State, a: Action) {
    && (a.Finish? && a.error.None? ==> a.applied > 0)
    && (a.Reply? && a.answer == Known(true) && a.flight < |s.flights| ==> Reference(s.flights[a.flight].item.job) in s.references)
  }

  lemma ReferencesStay(options: Options, actions: seq<Action>, k: nat)
    requires k <= |actions|
    ensures Run(options, actions[..k]).references <= Run(options, actions).references
  {
    hide Step;
    if k < |actions| {
      var front := actions[..|actions| - 1];
      ReferencesStay(options, front, k);
      assert front[..k] == actions[..k];
      StepKeepsReferences(options, Run(options, front), actions[|actions| - 1]);
    } else {
      assert actions[..k] == actions;
    }
  }

  lemma StepKeepsReferences(options: Options, s: State, a: Action)
    ensures s.references <= Step(options, s, a).references
  {
    hide FirstReady, RemoveAt, Requeued;
  }

  /** The mutation of every done job is on the chain: some flight of the job completed it, and its reference is there. */
  lemma DoneIsApplied(options: Options, actions: seq<Action>, id: nat)
    requires forall k :: 0 <= k < |actions| ==> Trusted(Run(options, actions[..k]), actions[k])
    requires id in Run(options, actions).done
    ensures exists k :: 0 <= k < |actions| && Completes(Run(options, actions[..k]), actions[k], id)
                        && Reference(Run(options, actions[..k]).flights[actions[k].flight].item.job) in Run(options, actions).references
  {
    hide Run;
    DoneExactly(options, actions, id);
    var k :| 0 <= k < |actions| && Completes(Run(options, actions[..k]), actions[k], id);
    var s := Run(options, actions[..k]);
    var next := RunMore(options, actions[..k], actions[k]);
    assert actions[..k] + [actions[k]] == actions[..k + 1];
    ReferencesStay(options, actions, k + 1);
    CompletedIsThere(options, s, actions[k], id);
  }

  lemma CompletedIsThere(options: Options, s: State, a: Action, id: nat)
    requires Trusted(s, a) && Completes(s, a, id)
    ensures Reference(s.flights[a.flight].item.job) in Step(options, s, a).references
  {
    hide FirstReady, RemoveAt, Requeued;
  }

  /* ---- At most once on the chain ---- */

  /** What the chain and the lookup must be: a definite retryable failure applied nothing, and the lookup is truthful. */
  ghost predicate Believable(s: State, a: Action) {
    match a
    case Finish(i, applied, error, now, random) =>
      applied <= 1 && (error.Some? && error.value.retryable && !error.value.submissionUnknown ==> applied == 0)
    case Reply(i, answer, now, random) =>
      i < |s.flights| && answer.Known? ==> (answer.found <==> Reference(s.flights[i].item.job) in s.references)
    case _ => true
  }

  ghost predicate BelievableRun(options: Options, actions: seq<Action>) {
    actions != [] ==>
      var before := actions[..|actions| - 1];
      BelievableRun(options, before) && Believable(Run(options, before), actions[|actions| - 1])
  }

  ghost predicate FlightApplied(s: State, f: Flight) {
    if f.Asking? then Get(s.commits, f.item.job.id) > 0 ==> Reference(f.item.job) in s.references
    else Get(s.commits, f.item.job.id) == 0
  }

  ghost predicate AppliedOnce(s: State) {
    && (forall item :: item in s.queue ==> Get(s.commits, item.job.id) == 0)
    && (forall f :: f in s.flights ==> FlightApplied(s, f))
    && (forall id :: id in s.commits ==> s.commits[id] <= 1)
    && (forall id :: id in s.commits ==> id in s.enqueued)
  }

  /** Settling is safe when a retried job has applied nothing and an unanswered one can be found by its reference. */
  lemma SettleApplies(options: Options, s: State, i: nat, verdict: Verdict, now: nat, random: real)
    requires Conserved(s) && i < |s.flights| && 0.0 <= random
    requires forall item :: item in s.queue ==> Get(s.commits, item.job.id) == 0
    requires forall f :: f in RemoveAt(s.flights, i) ==> FlightApplied(s, f)
    requires forall id :: id in s.commits ==> s.commits[id] <= 1 && id in s.enqueued
    requires verdict.Retry? ==> Get(s.commits, s.flights[i].item.job.id) == 0
    requires verdict.Ask? ==> FlightApplied(s, Asking(s.flights[i].item))
    ensures AppliedOnce(Settle(s, i, verdict, options, now, random))
  {
    hide RemoveAt, Conserved, Backoff, Jitter;
    ReplaceMembers(s.flights, i, Asking(s.flights[i].item));
    var n := Settle(s, i, verdict, options, now, random);
    assert forall f :: f in n.flights ==> f in RemoveAt(s.flights, i) || (verdict.Ask? && f == Asking(s.flights[i].item));
  }

  lemma StepApplies(options: Options, s: State, a: Action)
    requires Conserved(s) && AppliedOnce(s) && Believable(s, a)
    ensures AppliedOnce(Step(options, s, a))
  {
    match a
    case Enqueue(id, key, twin) =>
    case Take(now) => TakeApplies(options, s, a);
    case Begin(i) => BeginApplies(options, s, i);
    case Finish(i, applied, error, now, random) => FinishApplies(options, s, a);
    case Reply(i, answer, now, random) =>
      hide Conserved, RemoveAt, Settle;
      if i < |s.flights| && s.flights[i].Asking? && random >= 0.0 {
        ReplaceMembers(s.flights, i, s.flights[i]);
        assert FlightApplied(s, s.flights[i]);
        SettleApplies(options, s, i, JudgeAnswer(answer), now, random);
      }
    case Close =>
  }

  lemma BeginApplies(options: Options, s: State, i: nat)
    requires Conserved(s) && AppliedOnce(s)
    ensures AppliedOnce(Step(options, s, Begin(i)))
  {
    hide Conserved, RemoveAt;
    if i < |s.flights| && s.flights[i].Taken? {
      ReplaceMembers(s.flights, i, Running(s.flights[i].item));
      assert FlightApplied(s, s.flights[i]);
      var n := Step(options, s, Begin(i));
      assert forall f :: f in n.flights ==> f == Running(s.flights[i].item) || f in s.flights;
    }
  }

  lemma TakeApplies(options: Options, s: State, a: Action)
    requires Conserved(s) && AppliedOnce(s) && a.Take?
    ensures AppliedOnce(Step(options, s, a))
  {}

  lemma FinishApplies(options: Options, s: State, a: Action)
    requires Conserved(s) && AppliedOnce(s) && a.Finish? && Believable(s, a)
    ensures AppliedOnce(Step(options, s, a))
  {
    hide RemoveAt, Settle;
    var i := a.flight;
    if i < |s.flights| && s.flights[i].Running? && a.random >= 0.0 {
      var job := s.flights[i].item.job;
      var r := Record(s, i, a.applied);
      ReplaceMembers(s.flights, i, s.flights[i]);
      OnlyInFlight(s, i);
      assert FlightApplied(s, s.flights[i]);
      assert Conserved(r);
      var verdict := if a.error.None? then Forget else Judge(job, a.error.value, options);
      forall f | f in RemoveAt(r.flights, i)
        ensures FlightApplied(r, f)
      {
        assert FlightApplied(s, f);
      }
      SettleApplies(options, r, i, verdict, a.now, a.random);
    }
  }

  /** In every believable run, over all retries of a job, its mutation is applied at most once. */
  lemma {:induction false} EveryRunAppliesOnce(options: Options, actions: seq<Action>)
    requires BelievableRun(options, actions)
    ensures AppliedOnce(Run(options, actions))
    ensures forall id :: Get(Run(options, actions).commits, id) <= 1
  {
    hide Step, Conserved, Believable;
    if actions != [] {
      EveryRunAppliesOnce(options, actions[..|actions| - 1]);
      EveryRunConserves(options, actions[..|actions| - 1]);
      StepApplies(options, Run(options, actions[..|actions| - 1]), actions[|actions| - 1]);
    }
  }

  /* ---- Running a job through the gas stations ---- */

  function ToError(r: Result<string, G.Failure>): Option<Error> {
    if r.Ok? then None else Some(Error(r.error.retryable, r.error.submissionUnknown))
  }

  /** The step in which a job's mutation is executed by the gas stations; `applied` is what the chain did. */
  function Sponsored(flight: nat, stations: seq<G.Station>, applied: seq<bool>, message: G.Failure, now: nat, random: real): Action
    requires |applied| == |stations|
  {
    var applications := G.Applications(applied, G.Tried(stations));
    Finish(flight, applications, ToError(G.Published(G.Outcome(stations), message)), now, random)
  }

  /** Some call of the gas stations, none of whose 2xx replies lacked a digest, ends as the action says. */
  ghost predicate FromStations(a: Action)
    requires a.Finish?
  {
    exists stations, applied, message ::
      G.Fits(stations, applied) && !G.SawUndigested(stations)
      && a == Sponsored(a.flight, stations, applied, message, a.now, a.random)
  }

  /** Executions are sponsored calls, and the lookup answers truthfully. */
  ghost predicate SponsoredStep(s: State, a: Action) {
    && (a.Finish? ==> FromStations(a))
    && (a.Reply? && a.flight < |s.flights| && a.answer.Known? ==>
          (a.answer.found <==> Reference(s.flights[a.flight].item.job) in s.references))
  }

  ghost predicate SponsoredRun(options: Options, actions: seq<Action>) {
    forall k :: 0 <= k < |actions| ==> SponsoredStep(Run(options, actions[..k]), actions[k])
  }

  /** Stations whose 2xx replies carry a digest are all the worker needs to believe. */
  lemma SponsoredIsBelievable(s: State, a: Action)
    requires SponsoredStep(s, a)
    ensures Believable(s, a)
  {
    if a.Finish? {
      var stations, applied, message :|
        G.Fits(stations, applied) && !G.SawUndigested(stations)
        && a == Sponsored(a.flight, stations, applied, message, a.now, a.random);
      G.PublishedIsTrue(stations, applied, message);
    }
  }

  lemma {:induction false} SponsoredRunIsBelievable(options: Options, actions: seq<Action>)
    requires SponsoredRun(options, actions)
    ensures BelievableRun(options, actions)
  {
    hide Run, SponsoredStep, Believable;
    if actions != [] {
      var n := |actions| - 1;
      forall k | 0 <= k < n
        ensures SponsoredStep(Run(options, actions[..n][..k]), actions[..n][k])
      {
        assert actions[..n][..k] == actions[..k];
      }
      SponsoredRunIsBelievable(options, actions[..n]);
      SponsoredIsBelievable(Run(options, actions[..n]), actions[n]);
    }
  }

  /**
   Across all retries of a job and all gas stations each retry goes through, its mutation is applied at most once, when
   the lookup is truthful and every 2xx execute reply carries a digest.
   */
  lemma SponsoredAppliesOnce(options: Options, actions: seq<Action>, id: nat)
    requires SponsoredRun(options, actions)
    ensures Get(Run(options, actions).commits, id) <= 1
  {
    hide Run, SponsoredRun;
    SponsoredRunIsBelievable(options, actions);
    EveryRunAppliesOnce(options, actions);
  }

  /* ---- Where jobs come from, and how an undisturbed one ends ---- */

  /** The run enqueues the job at this position. */
  ghost predicate EnqueuedAt(actions: seq<Action>, id: nat, k: int) {
    0 <= k < |actions| && actions[k].Enqueue? && actions[k].id == id
  }

  lemma {:induction false} EnqueuedExactly(options: Options, actions: seq<Action>, id: nat)
    ensures id in Run(options, actions).enqueued <==> exists k :: EnqueuedAt(actions, id, k)
  {
    if actions != [] {
      var n := |actions| - 1;
      EnqueuedExactly(options, actions[..n], id);
      EnqueuedInStep(options, Run(options, actions[..n]), actions[n], id);
      if k :| EnqueuedAt(actions[..n], id, k) {
        assert EnqueuedAt(actions, id, k);
      }
      if k :| EnqueuedAt(actions, id, k) {
        assert k < n ==> EnqueuedAt(actions[..n], id, k);
      }
      assert actions[n].Enqueue? && actions[n].id == id ==> EnqueuedAt(actions, id, n);
    }
  }

  lemma EnqueuedInStep(options: Options, s: State, a: Action, id: nat)
    ensures id in Step(options, s, a).enqueued <==> id in s.enqueued || (a.Enqueue? && a.id == id)
  {}

  /** How often this action applied the job's mutation. */
  ghost function AppliedBy(s: State, a: Action, id: nat): nat {
    if Executed(s, a, id) then a.applied else 0
  }

  ghost function AppliedSum(options: Options, actions: seq<Action>, id: nat): nat {
    if actions == [] then 0
    else
      var before := actions[..|actions| - 1];
      AppliedSum(options, before, id) + AppliedBy(Run(options, before), actions[|actions| - 1], id)
  }

  lemma CommitsInStep(options: Options, s: State, a: Action, id: nat)
    ensures Get(Step(options, s, a).commits, id) == Get(s.commits, id) + AppliedBy(s, a, id)
  {}

  /** The recorded applications of a job are those its executions report. */
  lemma {:induction false} CommitsExactly(options: Options, actions: seq<Action>, id: nat)
    ensures Get(Run(options, actions).commits, id) == AppliedSum(options, actions, id)
  {
    hide Step;
    if actions != [] {
      var before := actions[..|actions| - 1];
      CommitsExactly(options, before, id);
      CommitsInStep(options, Run(options, before), actions[|actions| - 1], id);
    }
  }

  /** An execution of a job with this reference applied its mutation. */
  ghost predicate AppliesReference(s: State, a: Action, reference: (string, string)) {
    && a.Finish? && a.random >= 0.0 && a.applied > 0
    && a.flight < |s.flights| && s.flights[a.flight].Running?
    && s.flights[a.flight].item.job.twin == reference.0 && s.flights[a.flight].item.job.key == reference.1
  }

  ghost predicate ReferenceApplied(options: Options, actions: seq<Action>, reference: (string, string), k: int) {
    0 <= k < |actions| && AppliesReference(Run(options, actions[..k]), actions[k], reference)
  }

  lemma ReferencesInStep(options: Options, s: State, a: Action, reference: (string, string))
    ensures reference in Step(options, s, a).references <==> reference in s.references || AppliesReference(s, a, reference)
  {}

  /** The references on the chain are exactly those whose mutation some execution applied. */
  lemma {:induction false} ReferencesExactly(options: Options, actions: seq<Action>, reference: (string, string))
    ensures reference in Run(options, actions).references <==> exists k :: ReferenceApplied(options, actions, reference, k)
  {
    hide Step, AppliesReference;
    if actions != [] {
      var n := |actions| - 1;
      var before := actions[..n];
      ReferencesExactly(options, before, reference);
      ReferencesInStep(options, Run(options, before), actions[n], reference);
      if k :| ReferenceApplied(options, before, reference, k) {
        assert before[..k] == actions[..k];
        assert ReferenceApplied(options, actions, reference, k);
      }
      if k :| ReferenceApplied(options, actions, reference, k) {
        if k < n {
          assert before[..k] == actions[..k];
          assert ReferenceApplied(options, before, reference, k);
        }
      }
      assert AppliesReference(Run(options, before), actions[n], reference) ==> ReferenceApplied(options, actions, reference, n);
    }
  }

  /** Once a job has begun, the worker takes nothing until a call that ended clears the flag. */
  lemma FlagStopsTaking(options: Options, actions: seq<Action>, i: nat, now: nat)
    requires i < |Run(options, actions).flights| && Run(options, actions).flights[i].Taken?
    ensures var s := Run(options, actions + [Begin(i)]);
            && s.processing && Step(options, s, Take(now)) == s
            && Get(s.runs, s.flights[i].item.job.id) == Get(Run(options, actions).runs, s.flights[i].item.job.id) + 1
            && s.flights[i] == Running(Run(options, actions).flights[i].item)
    ensures var s := Run(options, actions); s.closing > 0 ==> !Step(options, s, Close).processing && Step(options, s, Close).closing == s.closing - 1
  {
    var s1 := RunMore(options, actions, Begin(i));
  }

  lemma SettleClearsOnce(options: Options, s: State, i: nat, verdict: Verdict, now: nat, random: real)
    requires i < |s.flights| && 0.0 <= random
    ensures var n := Settle(s, i, verdict, options, now, random);
            n.closing + |n.flights| == s.closing + |s.flights| && s.closing <= n.closing <= s.closing + 1 && n.processing == s.processing
  {
    hide Requeued;
  }

  /** A flight that ends leaves one flag to clear, whatever becomes of its job. */
  lemma EndedClearsOnce(options: Options, s: State, a: Action)
    requires a.Finish? || a.Reply?
    ensures var n := Step(options, s, a);
            n.closing + |n.flights| == s.closing + |s.flights| && s.closing <= n.closing <= s.closing + 1 && n.processing == s.processing
  {
    hide Settle, Judge, JudgeAnswer;
    if a.flight < |s.flights| && a.random >= 0.0 {
      match a
      case Finish(i, applied, error, now, random) =>
        var verdict := if error.None? then Forget else Judge(s.flights[i].item.job, error.value, options);
        SettleClearsOnce(options, Record(s, i, applied), i, verdict, now, random);
      case Reply(i, answer, now, random) =>
        SettleClearsOnce(options, s, i, JudgeAnswer(answer), now, random);
      case _ =>
    }
  }

  /** No call has anything to clear before some job's execution has ended. */
  lemma {:induction false} NothingToClear(options: Options, actions: seq<Action>)
    requires forall a :: a in actions ==> !a.Finish? && !a.Reply?
    ensures Run(options, actions).closing == 0
  {
    if actions != [] {
      NothingToClear(options, actions[..|actions| - 1]);
      assert !actions[|actions| - 1].Finish? && !actions[|actions| - 1].Reply?;
    }
  }

  /** A job is listed as failed with the error it ended in, or with the retry that could not be made safe. */
  lemma FailedReason(options: Options, actions: seq<Action>, a: Action, id: nat)
    requires GivesUp(options, Run(options, actions), a, id)
    ensures var s, n := Run(options, actions), Run(options, actions + [a]);
            && |n.failed| == |s.failed| + 1 && n.failed[..|s.failed|] == s.failed
            && n.failed[|s.failed|] == (s.flights[a.flight].item.job, if a.Finish? then Gave(a.error.value) else RetrySafetyUnavailable)
  {
    hide Requeued, Counted;
    var s := Run(options, actions);
    var n := RunMore(options, actions, a);
    EveryRunCounts(options, actions);
    InFlightCounted(options, s, a.flight);
  }

  /** On an idle worker, a new job that executes without error is done after one execution. */
  lemma JobCompletes(options: Options, actions: seq<Action>, id: nat, key: string, twin: string) returns (more: seq<Action>)
    requires var s := Run(options, actions); s.queue == [] && s.flights == [] && !s.processing && id !in s.enqueued
    ensures var s, n := Run(options, actions), Run(options, actions + more);
            && n.done == s.done + [id] && n.queue == [] && n.flights == [] && n.failed == s.failed && n.lost == s.lost
            && !n.processing && Get(n.runs, id) == Get(s.runs, id) + 1 && Get(n.commits, id) == Get(s.commits, id) + 1
            && (twin, key) in n.references
  {
    hide Run;
    more := [Enqueue(id, key, twin), Take(0), Begin(0), Finish(0, 1, None, 0, 0.0), Close];
    var s1 := RunMore(options, actions, more[0]);
    var s2 := RunMore(options, actions + [more[0]], more[1]);
    var s3 := RunMore(options, actions + [more[0]] + [more[1]], more[2]);
    var s4 := RunMore(options, actions + [more[0]] + [more[1]] + [more[2]], more[3]);
    var s5 := RunMore(options, actions + [more[0]] + [more[1]] + [more[2]] + [more[3]], more[4]);
    assert actions + more == actions + [more[0]] + [more[1]] + [more[2]] + [more[3]] + [more[4]];
  }
}
