/** The idempotency middleware: a claim on the request's key, a replay of the recorded reply, and every run of both. */
module Idempotency {
  import opened Wrappers

  /* The runs are those whose handlers reply within the time to live. */

  datatype Entry =
    | Pending(fingerprint: string, expiresAt: nat)
    | Complete(fingerprint: string, status: nat, body: string, expiresAt: nat)

  type Entries = map<string, Entry>

  datatype Claim = Acquired | Taken(entry: Entry)

  datatype Decision = PassThrough | Proceed | Conflict | InProgress | Replay(status: nat, body: string)

  datatype Request = Request(verb: string, key: Option<string>, fingerprint: string)

  function Live(entries: Entries, key: string, now: nat): Option<Entry> {
    if key in entries && entries[key].expiresAt > now then Some(entries[key]) else None
  }

  class MemoryIdempotencyStore {
    const ttl: nat
    var entries: Entries

    constructor (ttl: nat)
      ensures this.ttl == ttl && entries == map[]
    {
      this.ttl := ttl;
      entries := map[];
    }

    /** Reading an expired entry forgets it. */
    method Get(key: string, now: nat) returns (r: Option<Entry>)
      modifies this
      ensures r == Live(old(entries), key, now)
      ensures entries == if r.Some? then old(entries) else old(entries) - {key}
    {
      if key in entries && entries[key].expiresAt > now {
        return Some(entries[key]);
      }
      entries := entries - {key};
      r := None;
    }

    method Put(key: string, entry: Entry)
      modifies this
      ensures entries == old(entries)[key := entry]
    {
      entries := entries[key := entry];
    }

    method Acquire(key: string, fingerprint: string, ttlMs: nat, now: nat) returns (claim: Claim)
      modifies this
      ensures match Live(old(entries), key, now)
              case Some(entry) => claim == Taken(entry) && entries == old(entries)
              case None => claim == Acquired && entries == old(entries)[key := Pending(fingerprint, now + ttlMs)]
    {
      if key in entries && entries[key].expiresAt > now {
        return Taken(entries[key]);
      }
      entries := entries - {key};
      entries := entries[key := Pending(fingerprint, now + ttlMs)];
      claim := Acquired;
    }

    method Delete(key: string)
      modifies this
      ensures entries == old(entries) - {key}
    {
      entries := entries - {key};
    }

    method Clear()
      modifies this
      ensures entries == map[]
    {
      entries := map[];
    }
  }

  /* ---- The middleware's two halves ---- */

  predicate Guarded(request: Request) {
    request.verb in {"POST", "PUT", "PATCH", "DELETE"} && request.key.Some? && request.key.value != ""
  }

  function Decide(entries: Entries, request: Request, now: nat): Decision {
    if !Guarded(request) then PassThrough
    else
      match Live(entries, request.key.value, now)
      case None => Proceed
      case Some(entry) =>
        if entry.fingerprint != request.fingerprint then Conflict
        else if entry.Complete? then Replay(entry.status, entry.body)
        else InProgress
  }

  function Claimed(entries: Entries, request: Request, ttl: nat, now: nat): Entries {
    if Decide(entries, request, now).Proceed?
    then entries[request.key.value := Pending(request.fingerprint, now + ttl)] else entries
  }

  /** A handler's reply is recorded unless it is a server error, which gives the key back. */
  function Recorded(entries: Entries, key: string, fingerprint: string, status: nat, body: string, ttl: nat, now: nat): Entries {
    if status < 500 then entries[key := Complete(fingerprint, status, body, now + ttl)] else entries - {key}
  }

  method Handle(store: MemoryIdempotencyStore, request: Request, ttl: nat, now: nat) returns (decision: Decision)
    modifies store
    ensures decision == Decide(old(store.entries), request, now)
    ensures store.entries == Claimed(old(store.entries), request, ttl, now)
  {
    if request.verb !in {"POST", "PUT", "PATCH", "DELETE"} {
      return PassThrough;
    }
    if request.key.None? || request.key.value == "" {
      return PassThrough;
    }
    var claim := store.Acquire(request.key.value, request.fingerprint, ttl, now);
    if claim.Taken? {
      if claim.entry.fingerprint != request.fingerprint {
        return Conflict;
      }
      if claim.entry.Complete? {
        return Replay(claim.entry.status, claim.entry.body);
      }
      return InProgress;
    }
    decision := Proceed;
  }

  method RespondJson(store: MemoryIdempotencyStore, key: string, fingerprint: string, status: nat, body: string, ttl: nat, now: nat)
    modifies store
    ensures store.entries == Recorded(old(store.entries), key, fingerprint, status, body, ttl, now)
  {
    if status < 500 {
      store.Put(key, Complete(fingerprint, status, body, now + ttl));
    } else {
      store.Delete(key);
    }
  }

  /**
   A request passes through, and leaves the store alone, exactly when it does not write or names no key; every other one is
   decided on, and claims its key exactly when it proceeds.
   */
  lemma PassesExactly(entries: Entries, request: Request, ttl: nat, now: nat)
    ensures Decide(entries, request, now) == PassThrough <==>
            || !(request.verb == "POST" || request.verb == "PUT" || request.verb == "PATCH" || request.verb == "DELETE")
            || request.key == None || request.key == Some("")
    ensures !Decide(entries, request, now).Proceed? ==> Claimed(entries, request, ttl, now) == entries
    ensures Decide(entries, request, now).Proceed? ==>
              request.key.Some? && Claimed(entries, request, ttl, now) == entries[request.key.value := Pending(request.fingerprint, now + ttl)]
  {}

  /* ---- Every interleaving of requests ---- */

  datatype Handler = Handler(key: string, fingerprint: string, started: nat)

  datatype Completion = Completion(at: nat, fingerprint: string, status: nat, body: string)

  /** `log` records, per key, the replies below 500 in the order they were given. */
  datatype State = State(entries: Entries, now: nat, handlers: map<nat, Handler>, log: map<string, seq<Completion>>)

  datatype Action =
    | Arrive(id: nat, request: Request)
    | Respond(id: nat, status: nat, body: string)
    | Tick(elapsed: nat)

  function LogOf(s: State, key: string): seq<Completion> {
    if key in s.log then s.log[key] else []
  }

  function Init(): State {
    State(map[], 0, map[], map[])
  }

  function Step(ttl: nat, s: State, a: Action): State {
    match a
    case Arrive(id, request) =>
      if id in s.handlers || !Decide(s.entries, request, s.now).Proceed? then s
      else s.(entries := Claimed(s.entries, request, ttl, s.now),
              handlers := s.handlers[id := Handler(request.key.value, request.fingerprint, s.now)])
    case Respond(id, status, body) =>
      if id !in s.handlers then s
      else
        var h := s.handlers[id];
        s.(entries := Recorded(s.entries, h.key, h.fingerprint, status, body, ttl, s.now),
           handlers := s.handlers - {id},
           log := if status < 500 then s.log[h.key := LogOf(s, h.key) + [Completion(s.now, h.fingerprint, status, body)]] else s.log)
    case Tick(elapsed) => s.(now := s.now + elapsed)
  }

  /** Handlers reply within the time to live: time does not pass the deadline of a running one. */
  ghost predicate Timely(ttl: nat, s: State, a: Action) {
    a.Tick? ==> forall id :: id in s.handlers ==> s.now + a.elapsed < s.handlers[id].started + ttl
  }

  function Run(ttl: nat, actions: seq<Action>): State {
    if actions == [] then Init() else Step(ttl, Run(ttl, actions[..|actions| - 1]), actions[|actions| - 1])
  }

  ghost predicate TimelyRun(ttl: nat, actions: seq<Action>) {
    actions != [] ==>
      var before := actions[..|actions| - 1];
      TimelyRun(ttl, before) && Timely(ttl, Run(ttl, before), actions[|actions| - 1])
  }

  ghost predicate OnKey(s: State, id: nat, key: string) {
    id in s.handlers && s.handlers[id].key == key
  }

  ghost predicate Busy(s: State, key: string) {
    exists id :: OnKey(s, id, key)
  }

  /** The reply that still counts: the last one on the key, unless its time to live is over. */
  function Current(ttl: nat, s: State, key: string): Option<Completion> {
    var log := LogOf(s, key);
    if log != [] && s.now < log[|log| - 1].at + ttl then Some(log[|log| - 1]) else None
  }

  predicate Spaced(ttl: nat, log: seq<Completion>) {
    forall i, j :: 0 <= i < j < |log| ==> log[i].at + ttl <= log[j].at
  }

  /* ---- Invariant ---- */

  ghost predicate HandlerOk(ttl: nat, s: State, id: nat)
    requires id in s.handlers
  {
    var h := s.handlers[id];
    && h.started <= s.now < h.started + ttl
    && h.key in s.entries && s.entries[h.key] == Pending(h.fingerprint, h.started + ttl)
    && Over(ttl, LogOf(s, h.key), h.started)
  }

  /** Every reply of the log is at least the time to live older than the moment. */
  predicate Over(ttl: nat, log: seq<Completion>, moment: nat) {
    forall i :: 0 <= i < |log| ==> log[i].at + ttl <= moment
  }

  /** On a key nobody works on, the store holds the last reply or nothing that matters. */
  ghost predicate IdleOk(ttl: nat, s: State, key: string) {
    var log := LogOf(s, key);
    if key in s.entries then
      log != [] && var last := log[|log| - 1]; s.entries[key] == Complete(last.fingerprint, last.status, last.body, last.at + ttl)
    else Over(ttl, log, s.now)
  }

  predicate LogOk(ttl: nat, s: State, key: string) {
    Spaced(ttl, LogOf(s, key)) && forall i :: 0 <= i < |LogOf(s, key)| ==> LogOf(s, key)[i].at <= s.now
  }

  ghost predicate Good(ttl: nat, s: State) {
    && (forall id :: id in s.handlers ==> HandlerOk(ttl, s, id))
    && (forall i, j :: i in s.handlers && j in s.handlers && s.handlers[i].key == s.handlers[j].key ==> i == j)
    && (forall key :: !Busy(s, key) ==> IdleOk(ttl, s, key))
    && (forall key :: LogOk(ttl, s, key))
  }

  lemma OtherKeyIdle(ttl: nat, s: State, n: State, key: string)
    requires !Busy(s, key) ==> IdleOk(ttl, s, key)
    requires LogOf(n, key) == LogOf(s, key) && s.now <= n.now
    requires key in n.entries <==> key in s.entries
    requires key in s.entries ==> n.entries[key] == s.entries[key]
    requires Busy(n, key) == Busy(s, key)
    ensures !Busy(n, key) ==> IdleOk(ttl, n, key)
  {}

  lemma TickKeeps(ttl: nat, s: State, elapsed: nat)
    requires Good(ttl, s) && Timely(ttl, s, Tick(elapsed))
    ensures Good(ttl, Step(ttl, s, Tick(elapsed)))
  {
    hide Spaced;
    var n := Step(ttl, s, Tick(elapsed));
    forall key
      ensures LogOk(ttl, n, key) && (!Busy(n, key) ==> IdleOk(ttl, n, key))
    {
      assert LogOk(ttl, s, key);
      assert forall id :: OnKey(n, id, key) <==> OnKey(s, id, key);
      OtherKeyIdle(ttl, s, n, key);
    }
    forall id | id in n.handlers
      ensures HandlerOk(ttl, n, id)
    {
      assert HandlerOk(ttl, s, id);
    }
  }

  /** A claim on a key means nobody works on it, and its last reply is over. */
  lemma ProceedMeansFree(ttl: nat, s: State, request: Request)
    requires Good(ttl, s) && Decide(s.entries, request, s.now).Proceed?
    ensures !Busy(s, request.key.value) && Over(ttl, LogOf(s, request.key.value), s.now)
  {
    var key := request.key.value;
    forall id
      ensures !OnKey(s, id, key)
    {
      assert OnKey(s, id, key) ==> HandlerOk(ttl, s, id);
    }
    assert IdleOk(ttl, s, key) && LogOk(ttl, s, key);
  }

  lemma ArriveKeeps(ttl: nat, s: State, id: nat, request: Request)
    requires Good(ttl, s) && ttl > 0
    ensures Good(ttl, Step(ttl, s, Arrive(id, request)))
  {
    hide Spaced;
    if id !in s.handlers && Decide(s.entries, request, s.now).Proceed? {
      var n := Step(ttl, s, Arrive(id, request));
      var claimed := request.key.value;
      ProceedMeansFree(ttl, s, request);
      forall other | other in n.handlers
        ensures HandlerOk(ttl, n, other)
      {
        if other != id {
          assert HandlerOk(ttl, s, other) && OnKey(s, other, s.handlers[other].key);
        }
      }
      forall i, j | i in n.handlers && j in n.handlers && n.handlers[i].key == n.handlers[j].key
        ensures i == j
      {
        assert i != id ==> OnKey(s, i, s.handlers[i].key);
        assert j != id ==> OnKey(s, j, s.handlers[j].key);
      }
      forall key
        ensures LogOk(ttl, n, key) && (!Busy(n, key) ==> IdleOk(ttl, n, key))
      {
        assert LogOk(ttl, s, key);
        assert OnKey(n, id, claimed);
        if key != claimed {
          assert forall other :: OnKey(n, other, key) <==> OnKey(s, other, key);
          OtherKeyIdle(ttl, s, n, key);
        }
      }
    }
  }

  lemma RespondKeeps(ttl: nat, s: State, id: nat, status: nat, body: string)
    requires Good(ttl, s)
    ensures Good(ttl, Step(ttl, s, Respond(id, status, body)))
  {
    hide LogOk, IdleOk;
    if id in s.handlers {
      var n := Step(ttl, s, Respond(id, status, body));
      var h := s.handlers[id];
      assert HandlerOk(ttl, s, id);
      forall other | other in n.handlers
        ensures HandlerOk(ttl, n, other)
      {
        assert HandlerOk(ttl, s, other);
        assert s.handlers[other].key != h.key;
      }
      forall key
        ensures LogOk(ttl, n, key) && (!Busy(n, key) ==> IdleOk(ttl, n, key))
      {
        RespondKeepsKey(ttl, s, id, status, body, key);
      }
    }
  }

  lemma RespondKeepsKey(ttl: nat, s: State, id: nat, status: nat, body: string, key: string)
    requires Good(ttl, s) && id in s.handlers
    ensures var n := Step(ttl, s, Respond(id, status, body)); LogOk(ttl, n, key) && (!Busy(n, key) ==> IdleOk(ttl, n, key))
  {
    hide Spaced;
    var n := Step(ttl, s, Respond(id, status, body));
    var h := s.handlers[id];
    assert HandlerOk(ttl, s, id);
    assert LogOk(ttl, s, key);
    if key != h.key {
      assert forall other :: OnKey(n, other, key) <==> OnKey(s, other, key);
      OtherKeyIdle(ttl, s, n, key);
    } else {
      SpacedAppend(ttl, LogOf(s, key), Completion(s.now, h.fingerprint, status, body), h.started);
    }
  }

  lemma SpacedAppend(ttl: nat, log: seq<Completion>, c: Completion, moment: nat)
    requires Spaced(ttl, log) && Over(ttl, log, moment) && moment <= c.at
    ensures Spaced(ttl, log + [c])
  {}

  lemma {:induction false} EveryRunGood(ttl: nat, actions: seq<Action>)
    requires ttl > 0 && TimelyRun(ttl, actions)
    ensures Good(ttl, Run(ttl, actions))
  {
    hide Step, Timely;
    if actions == [] {
      assert Good(ttl, Init()) by { StartGood(ttl); }
    } else {
      var before := actions[..|actions| - 1];
      EveryRunGood(ttl, before);
      match actions[|actions| - 1]
      case Arrive(id, request) => ArriveKeeps(ttl, Run(ttl, before), id, request);
      case Respond(id, status, body) => RespondKeeps(ttl, Run(ttl, before), id, status, body);
      case Tick(elapsed) => TickKeeps(ttl, Run(ttl, before), elapsed);
    }
  }

  lemma StartGood(ttl: nat)
    ensures Good(ttl, Init())
  {}

  /* ---- Main results ---- */

  /** At most one handler runs per key. */
  lemma OneHandlerPerKey(ttl: nat, actions: seq<Action>, i: nat, j: nat, key: string)
    requires ttl > 0 && TimelyRun(ttl, actions)
    requires OnKey(Run(ttl, actions), i, key) && OnKey(Run(ttl, actions), j, key)
    ensures i == j
  {
    hide Run, HandlerOk, IdleOk, LogOk;
    EveryRunGood(ttl, actions);
  }

  /** Two replies below 500 on one key are at least the time to live apart. */
  lemma OneCompletionPerWindow(ttl: nat, actions: seq<Action>, key: string, i: nat, j: nat)
    requires ttl > 0 && TimelyRun(ttl, actions)
    requires i < j < |LogOf(Run(ttl, actions), key)|
    ensures LogOf(Run(ttl, actions), key)[i].at + ttl <= LogOf(Run(ttl, actions), key)[j].at
  {
    hide Run, HandlerOk, IdleOk;
    EveryRunGood(ttl, actions);
    assert LogOk(ttl, Run(ttl, actions), key);
  }

  /**
   What a guarded request is told depends only on the history of its key: a running handler makes it wait or conflict,
   a reply that still counts is replayed to the same request and refused to any other, and otherwise it runs.
   */
  lemma DecidedByHistory(ttl: nat, actions: seq<Action>, request: Request)
    requires ttl > 0 && TimelyRun(ttl, actions) && Guarded(request)
    ensures var s := Run(ttl, actions);
            var key := request.key.value;
            var decision := Decide(s.entries, request, s.now);
            && (forall id :: OnKey(s, id, key) ==>
                  decision == if s.handlers[id].fingerprint == request.fingerprint then InProgress else Conflict)
            && (!Busy(s, key) ==>
                  match Current(ttl, s, key)
                  case None => decision == Proceed
                  case Some(c) => decision == if c.fingerprint == request.fingerprint then Replay(c.status, c.body) else Conflict)
  {
    hide Run, TimelyRun;
    EveryRunGood(ttl, actions);
    var s := Run(ttl, actions);
    var key := request.key.value;
    assert LogOk(ttl, s, key);
    forall id | OnKey(s, id, key)
      ensures Decide(s.entries, request, s.now)
              == if s.handlers[id].fingerprint == request.fingerprint then InProgress else Conflict
    {
      assert HandlerOk(ttl, s, id);
    }
    if !Busy(s, key) {
      assert IdleOk(ttl, s, key);
    }
  }

  /** After a server error the key is free for any request. */
  lemma ServerErrorReleases(ttl: nat, actions: seq<Action>, id: nat, status: nat, body: string, request: Request)
    requires ttl > 0 && TimelyRun(ttl, actions) && status >= 500
    requires Guarded(request) && OnKey(Run(ttl, actions), id, request.key.value)
    ensures var s := Run(ttl, actions + [Respond(id, status, body)]);
            Decide(s.entries, request, s.now) == Proceed && !Busy(s, request.key.value)
  {
    hide TimelyRun;
    var longer := actions + [Respond(id, status, body)];
    assert longer[..|longer| - 1] == actions;
    EveryRunGood(ttl, actions);
    var s := Run(ttl, longer);
    forall other
      ensures !OnKey(s, other, request.key.value)
    {
      OneOnKey(ttl, Run(ttl, actions), id, other, request.key.value);
    }
  }

  lemma OneOnKey(ttl: nat, s: State, i: nat, j: nat, key: string)
    requires Good(ttl, s) && OnKey(s, i, key)
    ensures OnKey(s, j, key) ==> i == j
  {}

  /** The reply that action a gives on the key, if its handler runs and it is not a server error. */
  ghost function ReplyOn(s: State, a: Action, key: string): seq<Completion> {
    if a.Respond? && OnKey(s, a.id, key) && a.status <= 499
    then [Completion(s.now, s.handlers[a.id].fingerprint, a.status, a.body)] else []
  }

  /** All replies below 500 that were given on a key, in order, read off the actions. */
  ghost function Replies(ttl: nat, actions: seq<Action>, key: string): seq<Completion> {
    if actions == [] then []
    else
      var before := actions[..|actions| - 1];
      Replies(ttl, before, key) + ReplyOn(Run(ttl, before), actions[|actions| - 1], key)
  }

  lemma StepLogs(ttl: nat, s: State, a: Action, key: string)
    ensures LogOf(Step(ttl, s, a), key) == LogOf(s, key) + ReplyOn(s, a, key)
  {
    assert LogOf(s, key) + [] == LogOf(s, key);
  }

  lemma {:induction false} LogExactly(ttl: nat, actions: seq<Action>, key: string)
    ensures LogOf(Run(ttl, actions), key) == Replies(ttl, actions, key)
  {
    hide Step, ReplyOn;
    if actions != [] {
      LogExactly(ttl, actions[..|actions| - 1], key);
      StepLogs(ttl, Run(ttl, actions[..|actions| - 1]), actions[|actions| - 1], key);
    }
  }

  lemma RunMore(ttl: nat, actions: seq<Action>, a: Action)
    ensures Run(ttl, actions + [a]) == Step(ttl, Run(ttl, actions), a)
  {
    assert (actions + [a])[..|actions|] == actions;
  }

  /**
   A request that runs its handler, gets a reply and is repeated before the time to live is over: the same request gets the
   same reply again, another one on the key a conflict, and after a server error either runs. Once the time to live is over
   it runs again.
   */
  lemma RepeatedRequest(ttl: nat, actions: seq<Action>, id: nat, request: Request, status: nat, body: string, later: nat, again: Request)
    requires var s := Run(ttl, actions); Decide(s.entries, request, s.now) == Proceed && id !in s.handlers
    requires Guarded(again) && again.key == request.key && later < ttl
    ensures var s := Run(ttl, actions + [Arrive(id, request)] + [Respond(id, status, body)] + [Tick(later)]);
            Decide(s.entries, again, s.now) ==
            if status >= 500 then Proceed else if again.fingerprint == request.fingerprint then Replay(status, body) else Conflict
    ensures var s := Run(ttl, actions + [Arrive(id, request)] + [Respond(id, status, body)] + [Tick(later)]);
            Decide(Step(ttl, s, Tick(ttl - later)).entries, again, Step(ttl, s, Tick(ttl - later)).now) == Proceed
  {
    hide Run;
    RunMore(ttl, actions, Arrive(id, request));
    RunMore(ttl, actions + [Arrive(id, request)], Respond(id, status, body));
    RunMore(ttl, actions + [Arrive(id, request)] + [Respond(id, status, body)], Tick(later));
  }

  /** While the handler of a request runs, in time, its repetition is told to wait and another request on the key conflicts. */
  lemma RunningRequest(ttl: nat, actions: seq<Action>, id: nat, request: Request, later: nat, again: Request)
    requires var s := Run(ttl, actions); Decide(s.entries, request, s.now) == Proceed && id !in s.handlers
    requires Guarded(again) && again.key == request.key && later < ttl
    ensures var s := Run(ttl, actions + [Arrive(id, request)] + [Tick(later)]);
            Decide(s.entries, again, s.now) == if again.fingerprint == request.fingerprint then InProgress else Conflict
  {
    hide Run;
    RunMore(ttl, actions, Arrive(id, request));
    RunMore(ttl, actions + [Arrive(id, request)], Tick(later));
  }
}
