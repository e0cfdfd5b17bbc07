/** The device workbench on top of the shared catalog: servers register, classify, revoke and rotate devices concurrently. */
module Devices {
  import opened Wrappers
  import opened PlantCatalog

  /* Every record write is one put of the catalog machine, and any task may fail or die between two awaits. */

  datatype Life = Waiting | Creating | Created(twin: string)

  /** The stored device record; every other document kept in the same catalog is `Other`. */
  datatype Doc = Device(life: Life, revoked: bool, rotating: bool, token: nat, configured: bool) | Other

  datatype Kind = Register | Classify | Revoke | Rotate

  /** Where a task stands; `w` is the catalog writer of its latest put. */
  datatype TaskPhase =
    | Entered
    | HasRead(revision: nat, doc: Doc)
    | Writing(w: nat, doc: Doc)
    | Saved(w: nat, revision: nat, doc: Doc)
    | Called(w: nat, revision: nat, doc: Doc)
    | Answered(w: nat, revision: nat, doc: Doc, twin: string)
    | WritingLast(w: nat)
    | Finished

  datatype Task = Task(server: nat, kind: Kind, key: Key, phase: TaskPhase)

  /** Who started a writer: which task, whether with its last put, and the token and Twin id that task had obtained. */
  datatype Origin = Origin(task: nat, kind: Kind, last: bool, token: nat, twin: string)

  /** `owner` tells where each writer comes from; `calls` lists the invocations of the real creation. */
  datatype Workbench = Workbench(store: State<Doc>, tasks: map<nat, Task>, owner: map<nat, Origin>,
                                 busy: set<(nat, Key)>, calls: seq<(Key, nat)>)

  datatype Move =
    | Store(a: Action<Doc>)
    | Start(t: nat, server: nat, kind: Kind, key: Key)
    | Read(t: nat)
    | PutFirst(t: nat, w: nat, token: nat)
    | PutReturns(t: nat)
    | CallCreate(t: nat)
    | AnswerCreate(t: nat, twin: string)
    | PutLast(t: nat, w: nat)
    | GiveUp(t: nat)
    | Die(server: nat)

  predicate IsDevice(key: Key) {
    "devices:" <= key.scope
  }

  /** The keys of devices are those in the scope of some owner's devices. */
  lemma DeviceKeys(key: Key)
    ensures IsDevice(key) <==> exists owner :: key.scope == "devices:" + owner
  {
    if IsDevice(key) {
      assert key.scope == "devices:" + key.scope[8..];
    }
  }

  /** The record a task's first put writes, with the base revision it names. */
  function FirstPut(task: Task, token: nat): Option<(nat, Doc)> {
    match (task.kind, task.phase)
    case (Register, Entered) => Some((0, Device(Waiting, false, false, token, false)))
    case (Classify, HasRead(revision, doc)) =>
      if doc.Device? then Some((revision, doc.(life := Creating))) else None
    case (Rotate, HasRead(revision, doc)) =>
      if doc.Device? then Some((revision, doc.(rotating := true, configured := true, token := token))) else None
    case _ => None
  }

  function LastPut(task: Task): Option<(nat, Doc)> {
    match (task.kind, task.phase)
    case (Register, HasRead(revision, doc)) => if doc.Device? then Some((revision, doc.(configured := true))) else None
    case (Revoke, HasRead(revision, doc)) => if doc.Device? then Some((revision, doc.(revoked := true))) else None
    case (Classify, Answered(_, revision, doc, twin)) => if doc.Device? then Some((revision, doc.(life := Created(twin)))) else None
    case (Rotate, Saved(_, revision, doc)) => if doc.Device? then Some((revision, doc.(rotating := false, revoked := false))) else None
    case _ => None
  }

  predicate UsesBusy(kind: Kind) {
    kind != Register
  }

  function SetPhase(s: Workbench, t: nat, phase: TaskPhase): Workbench
    requires t in s.tasks
  {
    s.(tasks := s.tasks[t := s.tasks[t].(phase := phase)])
  }

  /** Leaving an operation, normally or by an error, gives its busy mark back. */
  function End(s: Workbench, t: nat): Workbench
    requires t in s.tasks
  {
    var task := s.tasks[t];
    SetPhase(if UsesBusy(task.kind) then s.(busy := s.busy - {(task.server, task.key)}) else s, t, Finished)
  }

  /** The token drawn for a first put; a last put draws none. The Twin id is the creation's answer. */
  function OriginOf(s: Workbench, t: nat, last: bool, token: nat): Origin
    requires t in s.tasks
  {
    Origin(t, s.tasks[t].kind, last, token, if s.tasks[t].phase.Answered? then s.tasks[t].phase.twin else "")
  }

  function Put(s: Workbench, t: nat, w: nat, base: nat, doc: Doc, phase: TaskPhase, token: nat): Workbench
    requires t in s.tasks
  {
    var request := Request(s.tasks[t].key, base, doc, None);
    SetPhase(s.(store := Step(s.store, Begin(w, request)), owner := s.owner[w := OriginOf(s, t, phase.WritingLast?, token)]), t, phase)
  }

  function Next(s: Workbench, m: Move): Workbench {
    match m
    case Store(a) =>
      if a.Begin? && (IsDevice(a.request.key) || a.w in s.owner) then s else s.(store := Step(s.store, a))
    case Start(t, server, kind, key) =>
      if t in s.tasks || !IsDevice(key) then s
      else if !UsesBusy(kind) then s.(tasks := s.tasks[t := Task(server, kind, key, Entered)])
      else if (server, key) in s.busy then s.(tasks := s.tasks[t := Task(server, kind, key, Finished)])
      else s.(tasks := s.tasks[t := Task(server, kind, key, Entered)], busy := s.busy + {(server, key)})
    case Read(t) =>
      if t !in s.tasks then s
      else
        var task := s.tasks[t];
        if !(task.phase.Entered? && task.kind != Register) && !(task.phase.Saved? && task.kind == Register) then s
        else
          var history := History(s.store.log, task.key);
          if history == [] then End(s, t)
          else
            var doc := history[|history| - 1].document;
            if task.kind == Classify && (!doc.Device? || doc.revoked || doc.life != Waiting) then End(s, t)
            else SetPhase(s, t, HasRead(|history|, doc))
    case PutFirst(t, w, token) =>
      if t !in s.tasks || w in s.store.writers || w in s.owner then s
      else
        var put := FirstPut(s.tasks[t], token);
        if put.None? then s else Put(s, t, w, put.value.0, put.value.1, Writing(w, put.value.1), token)
    case PutReturns(t) =>
      if t !in s.tasks then s
      else
        var p := s.tasks[t].phase;
        if !(p.Writing? || p.WritingLast?) || p.w !in s.store.writers || !s.store.writers[p.w].phase.Done? then s
        else
          var outcome := s.store.writers[p.w].phase.outcome;
          if p.Writing? && outcome.Success? then SetPhase(s, t, Saved(p.w, outcome.revision, p.doc)) else End(s, t)
    case CallCreate(t) =>
      if t !in s.tasks || s.tasks[t].kind != Classify || !s.tasks[t].phase.Saved? then s
      else
        var p := s.tasks[t].phase;
        SetPhase(s.(calls := s.calls + [(s.tasks[t].key, t)]), t, Called(p.w, p.revision, p.doc))
    case AnswerCreate(t, twin) =>
      if t !in s.tasks || !s.tasks[t].phase.Called? then s
      else
        var p := s.tasks[t].phase;
        SetPhase(s, t, Answered(p.w, p.revision, p.doc, twin))
    case PutLast(t, w) =>
      if t !in s.tasks || w in s.store.writers || w in s.owner then s
      else
        var put := LastPut(s.tasks[t]);
        if put.None? then s else Put(s, t, w, put.value.0, put.value.1, WritingLast(w), 0)
    case GiveUp(t) =>
      if t !in s.tasks || s.tasks[t].phase.Finished? then s else End(s, t)
    case Die(server) =>
      s.(tasks := map t | t in s.tasks :: if s.tasks[t].server == server then s.tasks[t].(phase := Finished) else s.tasks[t],
         busy := set b | b in s.busy && b.0 != server)
  }

  function Run(s: Workbench, moves: seq<Move>): Workbench {
    if moves == [] then s else Next(Run(s, moves[..|moves| - 1]), moves[|moves| - 1])
  }

  function Empty(): Workbench {
    Workbench(Initial(), map[], map[], {}, [])
  }

  /* ---- The invariant ---- */

  /** Two records agree but for what a first or last put of the given origin is for. */
  predicate Effect(o: Origin, before: Option<Doc>, after: Doc) {
    after.Device? && (before.Some? ==> before.value.Device?) &&
    match o.kind
    case Register =>
      if !o.last then before.None? && after.life == Waiting && !after.revoked && !after.rotating && after.token == o.token && !after.configured
      else before.Some? && after.configured && SameLife(before.value, after) && SameMarks(before.value, after) && SameToken(before.value, after)
    case Classify =>
      && before.Some? && SameMarks(before.value, after) && SameCredentials(before.value, after)
      && (if !o.last then before.value.life == Waiting && !before.value.revoked && after.life == Creating
          else before.value.life == Creating && after.life == Created(o.twin))
    case Revoke =>
      && o.last && before.Some? && SameLife(before.value, after) && SameCredentials(before.value, after)
      && after.revoked && after.rotating == before.value.rotating
    case Rotate =>
      && before.Some? && SameLife(before.value, after)
      && (if !o.last then after.rotating && after.revoked == before.value.revoked && after.configured && after.token == o.token
          else before.value.rotating && SameCredentials(before.value, after) && !after.rotating && !after.revoked)
  }

  predicate SameLife(a: Doc, b: Doc)
    requires a.Device? && b.Device?
  {
    a.life == b.life
  }

  predicate SameMarks(a: Doc, b: Doc)
    requires a.Device? && b.Device?
  {
    a.revoked == b.revoked && a.rotating == b.rotating
  }

  predicate SameToken(a: Doc, b: Doc)
    requires a.Device? && b.Device?
  {
    a.token == b.token
  }

  predicate SameCredentials(a: Doc, b: Doc)
    requires a.Device? && b.Device?
  {
    a.token == b.token && a.configured == b.configured
  }

  /** How one stored record may follow another: the life stays, or a waiting, unrevoked device starts, or a started one ends created. */
  predicate Follows(before: Doc, after: Doc) {
    && before.Device? && after.Device?
    && (after.life == before.life
        || (before.life == Waiting && !before.revoked && after.life == Creating)
        || (before.life == Creating && after.life.Created?))
  }

  ghost predicate LifeForward(h: seq<Commit<Doc>>) {
    && (h != [] ==> h[0].document.Device? && h[0].document.life == Waiting)
    && (forall i :: 0 < i < |h| ==> Follows(h[i - 1].document, h[i].document))
  }

  /** Record i is where the device's creation was marked as started. */
  predicate Starts(h: seq<Commit<Doc>>, i: int) {
    && 0 < i < |h|
    && h[i - 1].document.Device? && h[i - 1].document.life == Waiting
    && h[i].document.Device? && h[i].document.life == Creating
  }

  /** The record before position i. */
  ghost function Before(h: seq<Commit<Doc>>, i: int): Option<Doc>
    requires 0 <= i <= |h|
  {
    if i == 0 then None else Some(h[i - 1].document)
  }

  /** A device put in flight changes a committed record as its origin says. */
  ghost predicate WellBased(log: map<Key, seq<Commit<Doc>>>, o: Origin, r: Request<Doc>) {
    0 <= r.revision <= |History(log, r.key)| && Effect(o, Before(History(log, r.key), r.revision), r.document)
  }

  /** Record i of the key changes the one before it as its writer's origin says. */
  ghost predicate Wrote(s: Workbench, key: Key, i: int) {
    var h := History(s.store.log, key);
    0 <= i < |h| && h[i].writer in s.owner && Effect(s.owner[h[i].writer], Before(h, i), h[i].document)
  }

  ghost predicate Written(s: Workbench, key: Key) {
    forall i :: 0 <= i < |History(s.store.log, key)| ==> Wrote(s, key, i)
  }

  /** A writer in flight for a device has an origin, and is based as that says. */
  ghost predicate WriterOk(s: Workbench, w: nat)
    requires w in s.store.writers
  {
    IsDevice(s.store.writers[w].request.key) ==> w in s.owner && WellBased(s.store.log, s.owner[w], s.store.writers[w].request)
  }

  /** A writer's origin is of the kind of the task that started it. */
  ghost predicate OriginOk(s: Workbench, o: Origin) {
    o.task in s.tasks && s.tasks[o.task].kind == o.kind
  }

  lemma EffectFollows(o: Origin, before: Option<Doc>, after: Doc)
    requires Effect(o, before, after)
    ensures after.Device? && (if before.None? then after.life == Waiting else Follows(before.value, after))
  {}

  lemma WrittenForward(s: Workbench, key: Key)
    requires Written(s, key)
    ensures LifeForward(History(s.store.log, key))
  {
    hide Effect;
    var h := History(s.store.log, key);
    if h != [] {
      assert Wrote(s, key, 0);
      EffectFollows(s.owner[h[0].writer], None, h[0].document);
    }
    forall i | 0 < i < |h|
      ensures Follows(h[i - 1].document, h[i].document)
    {
      assert Wrote(s, key, i);
      EffectFollows(s.owner[h[i].writer], Before(h, i), h[i].document);
    }
  }

  ghost predicate Recorded(log: map<Key, seq<Commit<Doc>>>, key: Key, revision: nat, doc: Doc) {
    0 < revision <= |History(log, key)| && History(log, key)[revision - 1].document == doc
  }

  /** The put of task t that writer w carries out. */
  ghost predicate InFlight(s: Workbench, t: nat, w: nat, doc: Doc)
    requires t in s.tasks
  {
    && w in s.store.writers && w in s.owner && s.owner[w].task == t
    && s.store.writers[w].request.key == s.tasks[t].key && s.store.writers[w].request.document == doc
  }

  ghost predicate WaitingAt(log: map<Key, seq<Commit<Doc>>>, key: Key, revision: int) {
    && 0 < revision <= |History(log, key)|
    && History(log, key)[revision - 1].document.Device? && History(log, key)[revision - 1].document.life == Waiting
  }

  ghost predicate TaskOk(s: Workbench, t: nat)
    requires t in s.tasks
  {
    var task := s.tasks[t];
    var p, h := task.phase, History(s.store.log, task.key);
    && IsDevice(task.key)
    && (p.HasRead? ==> Recorded(s.store.log, task.key, p.revision, p.doc)
                       && (task.kind == Classify ==> p.doc.Device? && p.doc.life == Waiting && !p.doc.revoked))
    && (p.Writing? ==> InFlight(s, t, p.w, p.doc))
    && (p.Writing? && task.kind == Classify ==>
          p.doc.Device? && p.doc.life == Creating && WaitingAt(s.store.log, task.key, s.store.writers[p.w].request.revision))
    && (p.Saved? || p.Called? || p.Answered? ==>
          Recorded(s.store.log, task.key, p.revision, p.doc)
          && (task.kind == Classify ==> Starts(h, p.revision - 1) && OwnedBy(s, task.key, p.revision - 1, t)))
    && (task.kind == Rotate && (p.Writing? || p.Saved?) ==> p.doc.Device? && p.doc.rotating)
    && (p.Called? || p.Answered? ==> task.kind == Classify)
    && (task.kind == Classify && (p.Entered? || p.HasRead? || p.Writing? || p.Saved?) ==> (task.key, t) !in s.calls)
  }

  /** The i-th record of the key was written by task t. */
  ghost predicate OwnedBy(s: Workbench, key: Key, i: int, t: nat) {
    && 0 <= i < |History(s.store.log, key)|
    && History(s.store.log, key)[i].writer in s.owner && s.owner[History(s.store.log, key)[i].writer].task == t
  }

  /** Every creation call belongs to the task that marked the start of the creation. */
  ghost predicate CallOk(s: Workbench, c: (Key, nat)) {
    c.1 in s.tasks && s.tasks[c.1].key == c.0 && exists i :: Starts(History(s.store.log, c.0), i) && OwnedBy(s, c.0, i, c.1)
  }

  ghost predicate Good(s: Workbench) {
    && Inv(s.store)
    && (forall k :: IsDevice(k) ==> Written(s, k))
    && (forall w :: w in s.store.writers ==> WriterOk(s, w))
    && (forall w :: w in s.owner ==> OriginOk(s, s.owner[w]))
    && (forall t :: t in s.tasks ==> TaskOk(s, t))
    && (forall i :: 0 <= i < |s.calls| ==> CallOk(s, s.calls[i]))
    && (forall i, j :: 0 <= i < j < |s.calls| ==> s.calls[i] != s.calls[j])
  }

  lemma {:induction false} LifeNeverReturns(h: seq<Commit<Doc>>, i: nat, j: nat)
    requires LifeForward(h) && i <= j < |h|
    ensures h[i].document.Device? && h[j].document.Device?
    ensures h[j].document.life == Waiting ==> h[i].document.life == Waiting
    ensures h[i].document.life.Created? ==> h[j].document.life == h[i].document.life
    decreases j
  {
    if i < j {
      LifeNeverReturns(h, i, j - 1);
      assert Follows(h[j - 1].document, h[j].document);
    } else if 0 < i {
      assert Follows(h[i - 1].document, h[i].document);
    }
  }

  /** A device's creation is marked as started at most once. */
  lemma OneStart(h: seq<Commit<Doc>>, i: int, j: int)
    requires LifeForward(h) && Starts(h, i) && Starts(h, j)
    ensures i == j
  {
    if i < j {
      LifeNeverReturns(h, i, j - 1);
    } else if j < i {
      LifeNeverReturns(h, j, i - 1);
    }
  }

  /* ---- Growth keeps what was established ---- */

  ghost predicate LogGrows(a: map<Key, seq<Commit<Doc>>>, b: map<Key, seq<Commit<Doc>>>) {
    forall k :: History(a, k) <= History(b, k)
  }

  /** Writers, their requests and owners stay; histories only get longer. */
  ghost predicate Grown(s: Workbench, n: Workbench) {
    && LogGrows(s.store.log, n.store.log)
    && (forall w :: w in s.store.writers ==> w in n.store.writers && n.store.writers[w].request == s.store.writers[w].request)
    && (forall w :: w in s.owner ==> w in n.owner && n.owner[w] == s.owner[w])
  }

  lemma OwnedGrows(s: Workbench, n: Workbench, key: Key, i: int, t: nat)
    requires Grown(s, n) && OwnedBy(s, key, i, t)
    ensures OwnedBy(n, key, i, t)
  {}

  lemma StartsGrows(s: Workbench, n: Workbench, key: Key, i: int)
    requires Grown(s, n) && Starts(History(s.store.log, key), i)
    ensures Starts(History(n.store.log, key), i)
  {}

  lemma TaskGrows(s: Workbench, n: Workbench, t: nat)
    requires Grown(s, n) && t in s.tasks && t in n.tasks && n.tasks[t] == s.tasks[t] && TaskOk(s, t)
    requires (s.tasks[t].key, t) in n.calls ==> (s.tasks[t].key, t) in s.calls
    ensures TaskOk(n, t)
  {}

  lemma CallGrows(s: Workbench, n: Workbench, c: (Key, nat))
    requires Grown(s, n) && CallOk(s, c) && c.1 in n.tasks && n.tasks[c.1].key == c.0
    ensures CallOk(n, c)
  {
    var i :| Starts(History(s.store.log, c.0), i) && OwnedBy(s, c.0, i, c.1);
    StartsGrows(s, n, c.0, i);
    OwnedGrows(s, n, c.0, i, c.1);
  }

  lemma WrittenGrows(s: Workbench, n: Workbench, key: Key)
    requires Grown(s, n) && Written(s, key) && History(n.store.log, key) == History(s.store.log, key)
    ensures Written(n, key)
  {
    hide Effect;
    forall i | 0 <= i < |History(n.store.log, key)|
      ensures Wrote(n, key, i)
    {
      assert Wrote(s, key, i);
    }
  }

  /** A step after which only task t looks different, with t itself still in order. */
  lemma OneTaskMoves(s: Workbench, n: Workbench, t: nat)
    requires Good(s) && Grown(s, n) && Inv(n.store)
    requires n.store.log == s.store.log
    requires forall w :: w in n.store.writers ==> WriterOk(n, w)
    requires forall w :: w in n.owner ==> OriginOk(n, n.owner[w])
    requires forall u :: u in s.tasks ==> u in n.tasks && n.tasks[u].key == s.tasks[u].key
    requires forall u :: u in n.tasks && u != t ==> u in s.tasks && n.tasks[u] == s.tasks[u]
    requires t in n.tasks ==> TaskOk(n, t)
    requires n.calls == s.calls || (t in n.tasks && n.calls == s.calls + [(n.tasks[t].key, t)] && CallOk(n, (n.tasks[t].key, t))
                                    && (n.tasks[t].key, t) !in s.calls)
    ensures Good(n)
  {
    forall k | IsDevice(k) ensures Written(n, k) {
      WrittenGrows(s, n, k);
    }
    forall u | u in n.tasks ensures TaskOk(n, u) {
      if u != t {
        TaskGrows(s, n, u);
      }
    }
    forall i | 0 <= i < |n.calls| ensures CallOk(n, n.calls[i]) {
      if i < |s.calls| {
        CallGrows(s, n, s.calls[i]);
      }
    }
    forall i, j | 0 <= i < j < |n.calls| ensures n.calls[i] != n.calls[j] {
      if j == |s.calls| {
        assert s.calls[i] in s.calls;
      }
    }
  }

  lemma SameStore(s: Workbench, n: Workbench)
    requires Good(s) && n.store == s.store && n.owner == s.owner
    requires forall u :: u in s.tasks ==> u in n.tasks && n.tasks[u].kind == s.tasks[u].kind
    ensures Grown(s, n) && Inv(n.store)
    ensures forall w :: w in n.store.writers ==> WriterOk(n, w)
    ensures forall w :: w in n.owner ==> OriginOk(n, n.owner[w])
  {
    hide Effect, Inv, Written, TaskOk, CallOk;
    assert forall w :: w in s.store.writers ==> WriterOk(s, w);
    assert forall w :: w in s.owner ==> OriginOk(s, s.owner[w]);
  }

  /* ---- The catalog moves ---- */

  lemma BasedGrows(a: map<Key, seq<Commit<Doc>>>, b: map<Key, seq<Commit<Doc>>>, o: Origin, r: Request<Doc>)
    requires LogGrows(a, b) && WellBased(a, o, r)
    ensures WellBased(b, o, r)
  {
    hide Effect;
    assert Before(History(b, r.key), r.revision) == Before(History(a, r.key), r.revision);
  }

  lemma StoreGrown(s: Workbench, a: Action<Doc>)
    ensures Grown(s, s.(store := Step(s.store, a)))
  {
    StepExtends(s.store, a);
    RequestsStay(s.store, a);
    hide Step;
  }

  lemma StoreGrows(s: Workbench, a: Action<Doc>)
    requires Good(s) && (a.Begin? ==> !IsDevice(a.request.key))
    ensures var n := s.(store := Step(s.store, a));
            && Grown(s, n) && Inv(n.store)
            && (forall w :: w in n.store.writers ==> WriterOk(n, w))
  {
    StepKeeps(s.store, a);
    StoreGrown(s, a);
    RequestsStay(s.store, a);
    hide Step, Inv, TaskOk, CallOk, Written, WellBased;
    var n := s.(store := Step(s.store, a));
    forall w | w in n.store.writers ensures WriterOk(n, w) {
      if w in s.store.writers && IsDevice(s.store.writers[w].request.key) {
        assert WriterOk(s, w);
        BasedGrows(s.store.log, n.store.log, s.owner[w], s.store.writers[w].request);
      }
    }
  }

  ghost predicate SameRequests(s: State<Doc>, t: State<Doc>) {
    s.writers.Keys == t.writers.Keys && forall w :: w in s.writers ==> t.writers[w].request == s.writers[w].request
  }

  lemma LockingKeepsRequests(s: State<Doc>, a: Action<Doc>)
    requires a.OpenLock? || a.Load? || a.Validate? || a.Crash?
    ensures SameRequests(s, Step(s, a))
  {
    hide ValidRequest, RevisionOf;
  }

  lemma WritingKeepsRequests(s: State<Doc>, a: Action<Doc>)
    requires a.StoreBlob? || a.WriteTemporary? || a.Rename? || a.Release? || a.Fault?
    ensures SameRequests(s, Step(s, a))
  {
    hide Replace, AtomicPut, ProjectionOf, NewPointer;
  }

  lemma RequestsStay(s: State<Doc>, a: Action<Doc>)
    ensures var t := Step(s, a);
            && (forall w :: w in s.writers ==> w in t.writers && t.writers[w].request == s.writers[w].request)
            && (forall w :: w in t.writers && w !in s.writers ==> a.Begin? && a.w == w && t.writers[w].request == a.request)
  {
    if !a.Begin? {
      hide Step;
      if a.OpenLock? || a.Load? || a.Validate? || a.Crash? {
        LockingKeepsRequests(s, a);
      } else {
        WritingKeepsRequests(s, a);
      }
    }
  }

  /** A committed device record changes the one before it as its writer's origin says. */
  lemma CommitIsWritten(s: Workbench, a: Action<Doc>, key: Key)
    requires Good(s) && IsDevice(key) && Grown(s, s.(store := Step(s.store, a)))
    ensures Written(s.(store := Step(s.store, a)), key)
  {
    var n := s.(store := Step(s.store, a));
    StepIsAtomic(s.store, a);
    hide Step, Inv, Effect, TaskOk, CallOk;
    var h, g := History(s.store.log, key), History(n.store.log, key);
    if n.store.log != s.store.log && s.store.writers[a.w].request.key == key {
      var r := s.store.writers[a.w].request;
      assert WriterOk(s, a.w);
      assert g == h + [Commit(a.w, r.document, r.publication)];
      forall i | 0 <= i < |g|
        ensures Wrote(n, key, i)
      {
        assert Before(g, i) == Before(h, i);
        if i < |h| {
          assert Wrote(s, key, i);
        }
      }
    } else {
      WrittenGrows(s, n, key);
    }
  }

  lemma StoreKeepsGood(s: Workbench, a: Action<Doc>)
    requires Good(s)
    ensures Good(Next(s, Store(a)))
  {
    hide Step, Inv, TaskOk, CallOk, Written, WriterOk;
    if !(a.Begin? && (IsDevice(a.request.key) || a.w in s.owner)) {
      var n := Next(s, Store(a));
      StoreGrows(s, a);
      forall k | IsDevice(k) ensures Written(n, k) {
        CommitIsWritten(s, a, k);
      }
      assert forall w :: w in s.owner ==> OriginOk(s, s.owner[w]);
      forall u | u in n.tasks ensures TaskOk(n, u) {
        TaskGrows(s, n, u);
      }
      forall i | 0 <= i < |n.calls| ensures CallOk(n, n.calls[i]) {
        CallInTasks(s, s.calls[i]);
        CallGrows(s, n, s.calls[i]);
      }
    }
  }

  lemma CallInTasks(s: Workbench, c: (Key, nat))
    requires CallOk(s, c)
    ensures c.1 in s.tasks && s.tasks[c.1].key == c.0
  {
  }

  /* ---- The task moves ---- */

  lemma UncalledTask(s: Workbench, t: nat)
    requires Good(s) && t !in s.tasks
    ensures forall c :: c in s.calls ==> c.1 != t
  {}

  lemma StartKeepsGood(s: Workbench, m: Move)
    requires Good(s) && m.Start?
    ensures Good(Next(s, m))
  {
    hide Inv, Written, WriterOk, OriginOk, CallOk, Step;
    var n := Next(s, m);
    if m.t !in s.tasks && IsDevice(m.key) {
      SameStore(s, n);
      UncalledTask(s, m.t);
      assert n.calls == s.calls && TaskOk(n, m.t);
      OneTaskMoves(s, n, m.t);
    }
  }

  lemma EndKeepsGood(s: Workbench, t: nat)
    requires Good(s) && t in s.tasks
    ensures Good(End(s, t))
  {
    SameStore(s, End(s, t));
    assert TaskOk(s, t);
    hide Inv, Written, WriterOk, OriginOk;
    OneTaskMoves(s, End(s, t), t);
  }

  lemma ReadKeepsGood(s: Workbench, t: nat)
    requires Good(s)
    ensures Good(Next(s, Read(t)))
  {
    var n := Next(s, Read(t));
    if t in s.tasks && n != s {
      assert TaskOk(s, t);
      if n == End(s, t) {
        EndKeepsGood(s, t);
      } else {
        SameStore(s, n);
        hide Inv, Written, WriterOk, OriginOk;
        OneTaskMoves(s, n, t);
      }
    }
  }

  /** A first put is that of a task that has not called yet; what it writes is what the task goes on with. */
  ghost predicate PutFits(s: Workbench, t: nat, w: nat, base: nat, doc: Doc, phase: TaskPhase)
    requires t in s.tasks
  {
    phase == WritingLast(w) || (phase == Writing(w, doc) && !s.tasks[t].phase.Called? && !s.tasks[t].phase.Answered?
      && (s.tasks[t].kind == Rotate ==> doc.Device? && doc.rotating)
      && (s.tasks[t].kind == Classify ==>
            doc.Device? && doc.life == Creating && WaitingAt(s.store.log, s.tasks[t].key, base) && (s.tasks[t].key, t) !in s.calls))
  }

  lemma PutWriters(s: Workbench, t: nat, w: nat, base: nat, doc: Doc, phase: TaskPhase, token: nat)
    requires Good(s) && t in s.tasks && w !in s.store.writers && w !in s.owner
    requires WellBased(s.store.log, OriginOf(s, t, phase.WritingLast?, token), Request(s.tasks[t].key, base, doc, None))
    ensures var n := Put(s, t, w, base, doc, phase, token);
            && Grown(s, n) && n.store.log == s.store.log
            && (forall v :: v in n.store.writers ==> WriterOk(n, v)) && (forall v :: v in n.owner ==> OriginOk(n, n.owner[v]))
  {
    hide Inv, Written, WellBased, Step, Effect, TaskOk, CallOk;
    var n := Put(s, t, w, base, doc, phase, token);
    BeginIsQuiet(s.store, w, Request(s.tasks[t].key, base, doc, None));
    forall v | v in n.store.writers ensures WriterOk(n, v) {
      if v != w {
        assert WriterOk(s, v);
      }
    }
    forall v | v in n.owner ensures OriginOk(n, n.owner[v]) {
      if v != w {
        assert OriginOk(s, s.owner[v]);
      }
    }
  }

  lemma PutTask(s: Workbench, t: nat, w: nat, base: nat, doc: Doc, phase: TaskPhase, token: nat)
    requires t in s.tasks && TaskOk(s, t) && w !in s.store.writers && w !in s.owner && PutFits(s, t, w, base, doc, phase)
    ensures TaskOk(Put(s, t, w, base, doc, phase, token), t)
  {
    hide Step;
    BeginIsQuiet(s.store, w, Request(s.tasks[t].key, base, doc, None));
  }

  lemma PutKeepsGood(s: Workbench, t: nat, w: nat, base: nat, doc: Doc, phase: TaskPhase, token: nat)
    requires Good(s) && t in s.tasks && w !in s.store.writers && w !in s.owner && PutFits(s, t, w, base, doc, phase)
    requires WellBased(s.store.log, OriginOf(s, t, phase.WritingLast?, token), Request(s.tasks[t].key, base, doc, None))
    ensures Good(Put(s, t, w, base, doc, phase, token))
  {
    hide Inv, Written, WriterOk, WellBased, Step, CallOk, TaskOk, OriginOk, Grown;
    var n := Put(s, t, w, base, doc, phase, token);
    StepKeeps(s.store, Begin(w, Request(s.tasks[t].key, base, doc, None)));
    PutWriters(s, t, w, base, doc, phase, token);
    PutTask(s, t, w, base, doc, phase, token);
    OneTaskMoves(s, n, t);
  }

  lemma BeginIsQuiet(s: State<Doc>, w: nat, r: Request<Doc>)
    requires w !in s.writers
    ensures var t := Step(s, Begin(w, r));
            && t.log == s.log && w in t.writers && t.writers[w].request == r
            && (forall v :: v in s.writers ==> v in t.writers && t.writers[v] == s.writers[v])
            && (forall v :: v in t.writers ==> v in s.writers || v == w)
  {
  }

  lemma PutFirstKeepsGood(s: Workbench, t: nat, w: nat, token: nat)
    requires Good(s)
    ensures Good(Next(s, PutFirst(t, w, token)))
  {
    if t in s.tasks && w !in s.store.writers && w !in s.owner && FirstPut(s.tasks[t], token).Some? {
      var put := FirstPut(s.tasks[t], token).value;
      assert TaskOk(s, t);
      PutKeepsGood(s, t, w, put.0, put.1, Writing(w, put.1), token);
    }
  }

  lemma LastPutFits(s: Workbench, t: nat, w: nat)
    requires t in s.tasks && w !in s.store.writers && TaskOk(s, t) && LastPut(s.tasks[t]).Some?
    ensures var (base, doc) := LastPut(s.tasks[t]).value;
            && PutFits(s, t, w, base, doc, WritingLast(w))
            && WellBased(s.store.log, OriginOf(s, t, true, 0), Request(s.tasks[t].key, base, doc, None))
  {}

  lemma PutLastKeepsGood(s: Workbench, t: nat, w: nat)
    requires Good(s)
    ensures Good(Next(s, PutLast(t, w)))
  {
    hide LastPut, TaskOk, PutFits, WellBased, Put;
    if t in s.tasks && w !in s.store.writers && w !in s.owner && LastPut(s.tasks[t]).Some? {
      var put := LastPut(s.tasks[t]).value;
      LastPutFits(s, t, w);
      PutKeepsGood(s, t, w, put.0, put.1, WritingLast(w), 0);
    }
  }

  lemma ReturnKeepsGood(s: Workbench, t: nat)
    requires Good(s)
    ensures Good(Next(s, PutReturns(t)))
  {
    var n := Next(s, PutReturns(t));
    if t in s.tasks && n != s {
      assert TaskOk(s, t);
      var p := s.tasks[t].phase;
      if n == End(s, t) {
        EndKeepsGood(s, t);
      } else {
        assert WriterConsistent(s.store, p.w);
        SameStore(s, n);
        hide Inv, Written, WriterOk, OriginOk;
        OneTaskMoves(s, n, t);
      }
    }
  }

  lemma CallKeepsGood(s: Workbench, t: nat)
    requires Good(s)
    ensures Good(Next(s, CallCreate(t)))
  {
    var n := Next(s, CallCreate(t));
    if t in s.tasks && n != s {
      assert TaskOk(s, t);
      SameStore(s, n);
      hide Inv, Written, WriterOk, OriginOk;
      var key, i := s.tasks[t].key, s.tasks[t].phase.revision - 1;
      assert Starts(History(n.store.log, key), i) && OwnedBy(n, key, i, t);
      OneTaskMoves(s, n, t);
    }
  }

  lemma AnswerKeepsGood(s: Workbench, t: nat, twin: string)
    requires Good(s)
    ensures Good(Next(s, AnswerCreate(t, twin)))
  {
    var n := Next(s, AnswerCreate(t, twin));
    if t in s.tasks && n != s {
      assert TaskOk(s, t);
      SameStore(s, n);
      hide Inv, Written, WriterOk, OriginOk;
      OneTaskMoves(s, n, t);
    }
  }

  lemma DieKeepsGood(s: Workbench, server: nat)
    requires Good(s)
    ensures Good(Next(s, Die(server)))
  {
    var n := Next(s, Die(server));
    SameStore(s, n);
    hide Inv, Written, WriterOk, OriginOk;
    forall k | IsDevice(k) ensures Written(n, k) {
      WrittenGrows(s, n, k);
    }
    forall u | u in n.tasks ensures TaskOk(n, u) {
      assert TaskOk(s, u);
      if n.tasks[u] == s.tasks[u] {
        TaskGrows(s, n, u);
      }
    }
    forall i | 0 <= i < |n.calls| ensures CallOk(n, n.calls[i]) {
      CallGrows(s, n, s.calls[i]);
    }
  }

  lemma NextKeepsGood(s: Workbench, m: Move)
    requires Good(s)
    ensures Good(Next(s, m))
  {
    match m
    case Store(a) => StoreKeepsGood(s, a);
    case Start(_, _, _, _) => StartKeepsGood(s, m);
    case Read(t) => ReadKeepsGood(s, t);
    case PutFirst(t, w, token) => PutFirstKeepsGood(s, t, w, token);
    case PutReturns(t) => ReturnKeepsGood(s, t);
    case CallCreate(t) => CallKeepsGood(s, t);
    case AnswerCreate(t, twin) => AnswerKeepsGood(s, t, twin);
    case PutLast(t, w) => PutLastKeepsGood(s, t, w);
    case GiveUp(t) =>
      if t in s.tasks && !s.tasks[t].phase.Finished? {
        EndKeepsGood(s, t);
      }
    case Die(server) => DieKeepsGood(s, server);
  }

  lemma {:induction false} EveryRunGood(moves: seq<Move>)
    ensures Good(Run(Empty(), moves))
  {
    if moves != [] {
      EveryRunGood(moves[..|moves| - 1]);
      NextKeepsGood(Run(Empty(), moves[..|moves| - 1]), moves[|moves| - 1]);
    } else {
      EveryRunConsistent<Doc>([]);
    }
  }

  /* ---- What holds over all runs ---- */

  /**
   Over every run of any number of server processes, however tasks interleave, fail or die, the real
   creation is invoked at most once per device.
   */
  lemma CreateAtMostOnce(moves: seq<Move>, i: nat, j: nat)
    requires i < j < |Run(Empty(), moves).calls|
    ensures Run(Empty(), moves).calls[i].0 != Run(Empty(), moves).calls[j].0
  {
    EveryRunGood(moves);
    hide Run;
    CallsDiffer(Run(Empty(), moves), i, j);
  }

  lemma CallsDiffer(s: Workbench, i: nat, j: nat)
    requires Good(s) && i < j < |s.calls|
    ensures s.calls[i].0 != s.calls[j].0
  {
    var a, b := s.calls[i], s.calls[j];
    assert CallOk(s, a) && CallOk(s, b) && TaskOk(s, a.1);
    hide Good;
    if a.0 == b.0 {
      var h := History(s.store.log, a.0);
      var p :| Starts(h, p) && OwnedBy(s, a.0, p, a.1);
      var q :| Starts(h, q) && OwnedBy(s, b.0, q, b.1);
      StartIsUnique(s, a.0, p, q);
    }
  }

  lemma StartIsUnique(s: Workbench, key: Key, p: int, q: int)
    requires Good(s) && IsDevice(key) && Starts(History(s.store.log, key), p) && Starts(History(s.store.log, key), q)
    ensures p == q
  {
    WrittenForward(s, key);
    OneStart(History(s.store.log, key), p, q);
  }

  /** A device that is still waiting has never been created, and a device on its way was created at most once. */
  lemma WaitingMeansNoCall(moves: seq<Move>, key: Key, i: nat)
    requires var s := Run(Empty(), moves);
             && IsDevice(key) && i < |s.calls| && s.calls[i].0 == key
    ensures var h := History(Run(Empty(), moves).store.log, key);
            h != [] && h[|h| - 1].document.Device? && h[|h| - 1].document.life != Waiting
  {
    EveryRunGood(moves);
    hide Run;
    CalledHasStarted(Run(Empty(), moves), key, i);
  }

  lemma CalledHasStarted(s: Workbench, key: Key, i: nat)
    requires Good(s) && IsDevice(key) && i < |s.calls| && s.calls[i].0 == key
    ensures var h := History(s.store.log, key);
            h != [] && h[|h| - 1].document.Device? && h[|h| - 1].document.life != Waiting
  {
    assert CallOk(s, s.calls[i]);
    assert Written(s, key);
    hide Good, Written;
    WrittenForward(s, key);
    var h := History(s.store.log, key);
    var p :| Starts(h, p) && OwnedBy(s, key, p, s.calls[i].1);
    LifeNeverReturns(h, p, |h| - 1);
  }

  /** No write returns a record from creating or created to waiting, and a recorded Twin id is never replaced. */
  lemma NoWriteReturnsToWaiting(moves: seq<Move>, key: Key, i: nat, j: nat)
    requires IsDevice(key) && i <= j < |History(Run(Empty(), moves).store.log, key)|
    ensures var h := History(Run(Empty(), moves).store.log, key);
            && h[i].document.Device? && h[j].document.Device?
            && (h[i].document.life != Waiting ==> h[j].document.life != Waiting)
            && (h[i].document.life.Created? ==> h[j].document.life == h[i].document.life)
  {
    EveryRunGood(moves);
    hide Run;
    WrittenForward(Run(Empty(), moves), key);
    LifeNeverReturns(History(Run(Empty(), moves).store.log, key), i, j);
  }

  /* ---- What every write does ---- */

  /**
   When a put succeeds, the record at its revision is its own, and differs from the one before it in exactly what the
   kind of its task and its turn are for.
   */
  lemma SucceededPut(moves: seq<Move>, w: nat, revision: nat)
    requires var s := Run(Empty(), moves).store;
             w in s.writers && IsDevice(s.writers[w].request.key) && s.writers[w].phase == Done(Success(revision))
    ensures var s := Run(Empty(), moves);
            var h := History(s.store.log, s.store.writers[w].request.key);
            && 0 < revision <= |h| && h[revision - 1].writer == w && w in s.owner
            && s.owner[w].task in s.tasks && s.tasks[s.owner[w].task].kind == s.owner[w].kind
            && Effect(s.owner[w], Before(h, revision - 1), h[revision - 1].document)
  {
    EveryRunGood(moves);
    hide Run, Effect;
    var s := Run(Empty(), moves);
    assert WriterConsistent(s.store, w) && WriterOk(s, w);
    hide Inv, WriterConsistent;
    assert Wrote(s, s.store.writers[w].request.key, revision - 1);
    assert OriginOk(s, s.owner[w]);
  }

  /** The origin of record i of the key. */
  ghost predicate WrittenBy(s: Workbench, key: Key, i: int, kind: Kind, last: bool) {
    var h := History(s.store.log, key);
    0 <= i < |h| && h[i].writer in s.owner && s.owner[h[i].writer].kind == kind && s.owner[h[i].writer].last == last
  }

  ghost predicate Revokes(s: Workbench, key: Key, i: int) {
    WrittenBy(s, key, i, Revoke, true)
  }

  ghost predicate Restores(s: Workbench, key: Key, i: int) {
    WrittenBy(s, key, i, Rotate, true)
  }

  /** Records i to j: revoked by the first of them, and never restored after it. */
  ghost predicate RevokedSince(s: Workbench, key: Key, i: int, j: int) {
    Revokes(s, key, i) && forall k :: i < k <= j ==> !Restores(s, key, k)
  }

  lemma {:induction false} RevokedIs(s: Workbench, key: Key, j: nat)
    requires Written(s, key) && j < |History(s.store.log, key)|
    ensures History(s.store.log, key)[j].document.Device?
    ensures History(s.store.log, key)[j].document.revoked <==> exists i :: 0 <= i <= j && RevokedSince(s, key, i, j)
  {
    assert Wrote(s, key, j);
    var h := History(s.store.log, key);
    if Revokes(s, key, j) {
      assert RevokedSince(s, key, j, j);
    } else if j > 0 {
      RevokedIs(s, key, j - 1);
      if h[j - 1].document.revoked && !Restores(s, key, j) {
        var i :| 0 <= i <= j - 1 && RevokedSince(s, key, i, j - 1);
        assert RevokedSince(s, key, i, j);
      }
      if i :| 0 <= i <= j && RevokedSince(s, key, i, j) {
        assert !Restores(s, key, j) && RevokedSince(s, key, i, j - 1);
      }
    }
  }

  /** A device is revoked exactly while some revocation has not been followed by a finished rotation. */
  lemma RevokedExactly(moves: seq<Move>, key: Key, j: nat)
    requires IsDevice(key) && j < |History(Run(Empty(), moves).store.log, key)|
    ensures var s := Run(Empty(), moves);
            var doc := History(s.store.log, key)[j].document;
            doc.Device? && (doc.revoked <==> exists i :: 0 <= i <= j && RevokedSince(s, key, i, j))
  {
    EveryRunGood(moves);
    hide Run;
    RevokedIs(Run(Empty(), moves), key, j);
  }

  /** After a successful revocation no creation is started until a rotation has succeeded. */
  lemma NoStartWhileRevoked(moves: seq<Move>, key: Key, i: nat, j: nat)
    requires var s := Run(Empty(), moves);
             IsDevice(key) && i < j && Revokes(s, key, i) && Starts(History(s.store.log, key), j)
    ensures exists k :: i < k < j && Restores(Run(Empty(), moves), key, k)
  {
    EveryRunGood(moves);
    hide Run, Effect;
    var s := Run(Empty(), moves);
    var h := History(s.store.log, key);
    RevokedIs(s, key, j - 1);
    assert RevokedSince(s, key, i, j - 1) || exists k :: i < k < j && Restores(s, key, k);
    WrittenForward(s, key);
    assert Follows(h[j - 1].document, h[j].document);
  }

  /** Record i carries a newly drawn token: the registration's or a rotation's first record. */
  ghost predicate Draws(s: Workbench, key: Key, i: int) {
    WrittenBy(s, key, i, Register, false) || WrittenBy(s, key, i, Rotate, false)
  }

  ghost predicate DrawnSince(s: Workbench, key: Key, i: int, j: int) {
    Draws(s, key, i) && forall k :: i < k <= j ==> !Draws(s, key, k)
  }

  lemma {:induction false} TokenIs(s: Workbench, key: Key, j: nat)
    requires Written(s, key) && j < |History(s.store.log, key)|
    ensures var h := History(s.store.log, key);
            h[j].document.Device? && exists i :: 0 <= i <= j && DrawnSince(s, key, i, j) && h[j].document.token == s.owner[h[i].writer].token
  {
    assert Wrote(s, key, j);
    if Draws(s, key, j) {
      assert DrawnSince(s, key, j, j);
    } else {
      TokenIs(s, key, j - 1);
      var h := History(s.store.log, key);
      var i :| 0 <= i <= j - 1 && DrawnSince(s, key, i, j - 1) && h[j - 1].document.token == s.owner[h[i].writer].token;
      assert DrawnSince(s, key, i, j);
    }
  }

  /** A device's record always holds the token drawn last: by its registration or by a rotation whose first write succeeded. */
  lemma TokenExactly(moves: seq<Move>, key: Key, j: nat)
    requires IsDevice(key) && j < |History(Run(Empty(), moves).store.log, key)|
    ensures var s := Run(Empty(), moves);
            var h := History(s.store.log, key);
            h[j].document.Device? && exists i :: 0 <= i <= j && DrawnSince(s, key, i, j) && h[j].document.token == s.owner[h[i].writer].token
  {
    EveryRunGood(moves);
    hide Run;
    TokenIs(Run(Empty(), moves), key, j);
  }

  /* ---- Tasks that nothing interrupts ---- */

  function Stores(actions: seq<Action<Doc>>): seq<Move> {
    seq(|actions|, i requires 0 <= i < |actions| => Store(actions[i]))
  }

  lemma {:induction false} RunMore(s: Workbench, a: seq<Move>, b: seq<Move>)
    ensures Run(s, a + b) == Run(Run(s, a), b)
  {
    hide Next;
    if b == [] {
      assert a + b == a;
    } else {
      assert (a + b)[..|a + b| - 1] == a + b[..|b| - 1];
      RunMore(s, a, b[..|b| - 1]);
    }
  }

  lemma RunOne(s: Workbench, m: Move)
    ensures Run(s, [m]) == Next(s, m)
  {
    hide Next;
    assert [m][..0] == [];
  }

  lemma {:induction false} RunKeepsGood(s: Workbench, moves: seq<Move>)
    requires Good(s)
    ensures Good(Run(s, moves))
  {
    hide Next, Good;
    if moves != [] {
      RunKeepsGood(s, moves[..|moves| - 1]);
      NextKeepsGood(Run(s, moves[..|moves| - 1]), moves[|moves| - 1]);
    }
  }

  lemma {:induction false} RunStores(s: Workbench, actions: seq<Action<Doc>>)
    requires forall a :: a in actions ==> !a.Begin?
    ensures Run(s, Stores(actions)) == s.(store := Exec(s.store, actions))
  {
    hide Step;
    if actions != [] {
      var front := actions[..|actions| - 1];
      assert Stores(actions)[..|actions| - 1] == Stores(front);
      RunStores(s, front);
    }
  }

  /** The put that a move starts, and the task it leaves when the put succeeds. */
  function PutOf(s: Workbench, m: Move): Option<(nat, Doc)>
    requires (m.PutFirst? || m.PutLast?) && m.t in s.tasks
  {
    if m.PutFirst? then FirstPut(s.tasks[m.t], m.token) else LastPut(s.tasks[m.t])
  }

  ghost predicate Fresh(s: Workbench, w: nat, uri: nat) {
    w !in s.store.writers && w !in s.owner && uri !in s.store.blobs
  }

  /** Nothing is in the way of a put of this device. */
  ghost predicate Free(s: Workbench, key: Key) {
    Good(s) && !s.store.lockFile && IsDevice(key) && ValidId(key.plant) && |History(s.store.log, key)| + 2 < MAX_SAFE
  }

  /** The state a successful put leaves: one more record, the task further on, and nothing else of the workbench touched. */
  ghost predicate PutDone(s: Workbench, n: Workbench, t: nat, w: nat, uri: nat, doc: Doc, phase: TaskPhase)
    requires t in s.tasks
  {
    var key := s.tasks[t].key;
    && Good(n) && !n.store.lockFile && n.calls == s.calls
    && History(n.store.log, key) == History(s.store.log, key) + [Commit(w, doc, None)]
    && n.tasks == s.tasks[t := s.tasks[t].(phase := phase)]
    && n.store.writers.Keys == s.store.writers.Keys + {w} && n.owner.Keys == s.owner.Keys + {w}
    && n.store.blobs.Keys == s.store.blobs.Keys + {uri}
  }

  /** The workbench while and after writer w does its put, the store apart. */
  function Putting(s: Workbench, m: Move, doc: Doc, store: State<Doc>): Workbench
    requires (m.PutFirst? || m.PutLast?) && m.t in s.tasks
  {
    SetPhase(s.(store := store, owner := s.owner[m.w := OriginOf(s, m.t, m.PutLast?, if m.PutFirst? then m.token else 0)]), m.t,
             if m.PutFirst? then Writing(m.w, doc) else WritingLast(m.w))
  }

  lemma PutStarts(s: Workbench, m: Move, uri: nat)
    requires (m.PutFirst? || m.PutLast?) && m.t in s.tasks && Fresh(s, m.w, uri) && PutOf(s, m).Some?
    ensures var (base, doc) := PutOf(s, m).value;
            Next(s, m) == Putting(s, m, doc, Step(s.store, Begin(m.w, Request(s.tasks[m.t].key, base, doc, None))))
  {
    hide Step, FirstPut, LastPut;
  }

  lemma PutReturned(s: Workbench, m: Move, doc: Doc, store: State<Doc>, revision: nat)
    requires (m.PutFirst? || m.PutLast?) && m.t in s.tasks
    requires m.w in store.writers && store.writers[m.w].phase == Done(Success(revision))
    ensures var n := Next(Putting(s, m, doc, store), PutReturns(m.t));
            && n.store == store && n.calls == s.calls && n.owner.Keys == s.owner.Keys + {m.w}
            && n.tasks == s.tasks[m.t := s.tasks[m.t].(phase := if m.PutFirst? then Saved(m.w, revision, doc) else Finished)]
  {
    hide Step, FirstPut, LastPut;
  }

  lemma RunPut(s: Workbench, m: Move, rest: seq<Action<Doc>>)
    requires (m.PutFirst? || m.PutLast?) && forall a :: a in rest ==> !a.Begin?
    ensures var s1 := Next(s, m);
            Run(s, [m] + Stores(rest) + [PutReturns(m.t)]) == Next(s1.(store := Exec(s1.store, rest)), PutReturns(m.t))
  {
    hide Next, Exec;
    var s1 := Next(s, m);
    RunOne(s, m);
    RunMore(s, [m], Stores(rest));
    RunStores(s1, rest);
    RunOne(s1.(store := Exec(s1.store, rest)), PutReturns(m.t));
    RunMore(s, [m] + Stores(rest), [PutReturns(m.t)]);
  }

  lemma PutCompletes(s: Workbench, m: Move, uri: nat) returns (moves: seq<Move>)
    requires (m.PutFirst? || m.PutLast?) && m.t in s.tasks && Free(s, s.tasks[m.t].key) && Fresh(s, m.w, uri)
    requires PutOf(s, m).Some? && PutOf(s, m).value.0 == |History(s.store.log, s.tasks[m.t].key)|
    ensures var (base, doc) := PutOf(s, m).value;
            PutDone(s, Run(s, moves), m.t, m.w, uri, doc, if m.PutFirst? then Saved(m.w, base + 1, doc) else Finished)
  {
    hide Good, Step, Exec, PutOf, Run, Next, ValidId, Putting;
    var (base, doc) := PutOf(s, m).value;
    var r := Request(s.tasks[m.t].key, base, doc, None);
    var all := Alone(m.w, r, uri);
    moves := [m] + Stores(all[1..]) + [PutReturns(m.t)];
    PutStarts(s, m, uri);
    RunPut(s, m, all[1..]);
    assert all == [all[0]] + all[1..];
    ExecOne(s.store, all[0], all[1..]);
    GoodStore(s);
    UninterruptedPut(s.store, m.w, r, uri);
    var store := Exec(s.store, all);
    assert all[0] == Begin(m.w, r);
    PutStore(s, m, doc, Step(s.store, all[0]), store);
    PutReturned(s, m, doc, store, base + 1);
    RunKeepsGood(s, moves);
  }

  lemma PutStore(s: Workbench, m: Move, doc: Doc, a: State<Doc>, b: State<Doc>)
    requires (m.PutFirst? || m.PutLast?) && m.t in s.tasks
    ensures Putting(s, m, doc, a).store == a && Putting(s, m, doc, a).(store := b) == Putting(s, m, doc, b)
  {}

  lemma GoodStore(s: Workbench)
    requires Good(s)
    ensures Inv(s.store)
  {}

  /** The record a device has now. */
  ghost function Latest(s: Workbench, key: Key): Doc
    requires History(s.store.log, key) != []
  {
    History(s.store.log, key)[|History(s.store.log, key)| - 1].document
  }

  /** The task can start on the device, and two puts of its own find nothing in the way. */
  ghost predicate CanStart(s: Workbench, t: nat, server: nat, key: Key, v: nat, w: nat, uri: nat, next: nat) {
    && Free(s, key) && |History(s.store.log, key)| + 3 < MAX_SAFE && t !in s.tasks && (server, key) !in s.busy
    && Fresh(s, v, uri) && Fresh(s, w, next) && v != w && uri != next
  }

  lemma LatestIsDevice(s: Workbench, key: Key)
    requires Good(s) && IsDevice(key) && History(s.store.log, key) != []
    ensures Latest(s, key).Device?
  {
    assert Written(s, key);
    hide Good, Effect;
    assert Wrote(s, key, |History(s.store.log, key)| - 1);
    EffectDevice(s, key, |History(s.store.log, key)| - 1);
  }

  lemma EffectDevice(s: Workbench, key: Key, i: nat)
    requires Wrote(s, key, i)
    ensures History(s.store.log, key)[i].document.Device?
  {}

  /** A task that starts on an unmarked device reads its latest record. */
  lemma Opens(s: Workbench, t: nat, server: nat, kind: Kind, key: Key) returns (n: Workbench)
    requires Free(s, key) && t !in s.tasks && (server, key) !in s.busy && History(s.store.log, key) != [] && kind != Register
    requires kind == Classify ==> Latest(s, key).Device? && Latest(s, key).life == Waiting && !Latest(s, key).revoked
    ensures n == Run(s, [Start(t, server, kind, key)] + [Read(t)])
    ensures Free(n, key) && n.store == s.store && n.owner == s.owner && n.calls == s.calls && t in n.tasks
    ensures n.tasks[t] == Task(server, kind, key, HasRead(|History(s.store.log, key)|, Latest(s, key)))
  {
    hide Good, Step, Run, ValidId;
    var s1 := Next(s, Start(t, server, kind, key));
    n := Next(s1, Read(t));
    RunOne(s, Start(t, server, kind, key));
    RunOne(s1, Read(t));
    RunMore(s, [Start(t, server, kind, key)], [Read(t)]);
    NextKeepsGood(s, Start(t, server, kind, key));
    NextKeepsGood(s1, Read(t));
  }

  /** A task that reads a device nobody registered is over, and its mark is gone. */
  lemma UnknownDeviceEnds(s: Workbench, t: nat)
    requires t in s.tasks && s.tasks[t].phase == Entered && s.tasks[t].kind != Register && History(s.store.log, s.tasks[t].key) == []
    ensures var n := Next(s, Read(t));
            && t in n.tasks && n.tasks[t].phase == Finished && (s.tasks[t].server, s.tasks[t].key) !in n.busy
            && n.store == s.store && n.calls == s.calls
  {}

  /** An undisturbed revocation records the device as revoked and leaves everything else of the record alone. */
  lemma RevokeCompletes(s: Workbench, t: nat, server: nat, key: Key, w: nat, uri: nat) returns (moves: seq<Move>)
    requires Free(s, key) && t !in s.tasks && (server, key) !in s.busy && Fresh(s, w, uri) && History(s.store.log, key) != []
    ensures Latest(s, key).Device? && History(Run(s, moves).store.log, key) != []
    ensures var d := Latest(s, key); Latest(Run(s, moves), key) == Device(d.life, true, d.rotating, d.token, d.configured)
  {
    hide Good, Step, Run, ValidId, Next;
    LatestIsDevice(s, key);
    var n := Opens(s, t, server, Revoke, key);
    var more := PutCompletes(n, PutLast(t, w), uri);
    moves := [Start(t, server, Revoke, key)] + [Read(t)] + more;
    RunMore(s, [Start(t, server, Revoke, key)] + [Read(t)], more);
  }

  /** An undisturbed rotation leaves a device that is neither revoked nor pending, with the new token. */
  lemma RotateCompletes(s: Workbench, t: nat, server: nat, key: Key, token: nat, v: nat, w: nat, uri: nat, next: nat) returns (moves: seq<Move>)
    requires CanStart(s, t, server, key, v, w, uri, next) && History(s.store.log, key) != []
    ensures Latest(s, key).Device? && History(Run(s, moves).store.log, key) != []
    ensures Latest(Run(s, moves), key) == Device(Latest(s, key).life, false, false, token, true)
  {
    hide Good, Step, Run, ValidId, Next;
    LatestIsDevice(s, key);
    var n := Opens(s, t, server, Rotate, key);
    var first := PutCompletes(n, PutFirst(t, v, token), uri);
    var n1 := Run(n, first);
    var last := PutCompletes(n1, PutLast(t, w), next);
    moves := [Start(t, server, Rotate, key)] + [Read(t)] + (first + last);
    RunMore(s, [Start(t, server, Rotate, key)] + [Read(t)], first + last);
    RunMore(n, first, last);
  }

  /** The creation is called and answers. */
  lemma Creates(s: Workbench, t: nat, twin: string) returns (n: Workbench)
    requires Good(s) && t in s.tasks && s.tasks[t].kind == Classify && s.tasks[t].phase.Saved?
    ensures n == Run(s, [CallCreate(t)] + [AnswerCreate(t, twin)]) && Good(n)
    ensures n.store == s.store && n.owner == s.owner && n.calls == s.calls + [(s.tasks[t].key, t)] && t in n.tasks
    ensures var p := s.tasks[t].phase; n.tasks[t] == s.tasks[t].(phase := Answered(p.w, p.revision, p.doc, twin))
  {
    hide Good, Step, Run;
    var called := Next(s, CallCreate(t));
    n := Next(called, AnswerCreate(t, twin));
    NextKeepsGood(s, CallCreate(t));
    NextKeepsGood(called, AnswerCreate(t, twin));
    RunOne(s, CallCreate(t));
    RunOne(called, AnswerCreate(t, twin));
    RunMore(s, [CallCreate(t)], [AnswerCreate(t, twin)]);
  }

  /** The registration reads its own record back. */
  lemma ReadsBack(s: Workbench, t: nat) returns (n: Workbench)
    requires Good(s) && t in s.tasks && s.tasks[t].kind == Register && s.tasks[t].phase.Saved?
    requires History(s.store.log, s.tasks[t].key) != []
    ensures n == Run(s, [Read(t)]) && Good(n) && n.store == s.store && n.owner == s.owner && t in n.tasks
    ensures var key := s.tasks[t].key; n.tasks[t] == s.tasks[t].(phase := HasRead(|History(s.store.log, key)|, Latest(s, key)))
  {
    hide Good, Step, Run;
    n := Next(s, Read(t));
    NextKeepsGood(s, Read(t));
    RunOne(s, Read(t));
  }

  /** An undisturbed classification of a waiting, unrevoked device invokes the creation once and records its Twin. */
  lemma ClassifyCompletes(s: Workbench, t: nat, server: nat, key: Key, twin: string, v: nat, w: nat, uri: nat, next: nat) returns (moves: seq<Move>)
    requires CanStart(s, t, server, key, v, w, uri, next) && History(s.store.log, key) != []
    requires Latest(s, key).Device? && Latest(s, key).life == Waiting && !Latest(s, key).revoked
    ensures History(Run(s, moves).store.log, key) != [] && Run(s, moves).calls == s.calls + [(key, t)]
    ensures var d := Latest(s, key); Latest(Run(s, moves), key) == Device(Created(twin), false, d.rotating, d.token, d.configured)
  {
    hide Good, Step, Run, ValidId, Next;
    var n := Opens(s, t, server, Classify, key);
    var first := PutCompletes(n, PutFirst(t, v, 0), uri);
    var n1 := Run(n, first);
    var n3 := Creates(n1, t, twin);
    var last := PutCompletes(n3, PutLast(t, w), next);
    var called := [CallCreate(t)] + [AnswerCreate(t, twin)];
    moves := [Start(t, server, Classify, key)] + [Read(t)] + (first + (called + last));
    RunMore(s, [Start(t, server, Classify, key)] + [Read(t)], first + (called + last));
    RunMore(n, first, called + last);
    RunMore(n1, called, last);
  }

  /** An undisturbed registration ends with a waiting, configured device that holds the drawn token. */
  lemma RegisterCompletes(s: Workbench, t: nat, server: nat, key: Key, token: nat, v: nat, w: nat, uri: nat, next: nat) returns (moves: seq<Move>)
    requires CanStart(s, t, server, key, v, w, uri, next) && History(s.store.log, key) == []
    ensures History(Run(s, moves).store.log, key) != []
    ensures Latest(Run(s, moves), key) == Device(Waiting, false, false, token, true)
  {
    hide Good, Step, Run, ValidId;
    var n := Next(s, Start(t, server, Register, key));
    NextKeepsGood(s, Start(t, server, Register, key));
    RunOne(s, Start(t, server, Register, key));
    hide Next;
    var first := PutCompletes(n, PutFirst(t, v, token), uri);
    var n1 := Run(n, first);
    var n2 := ReadsBack(n1, t);
    var last := PutCompletes(n2, PutLast(t, w), next);
    moves := [Start(t, server, Register, key)] + (first + ([Read(t)] + last));
    RunMore(s, [Start(t, server, Register, key)], first + ([Read(t)] + last));
    RunMore(n, first, [Read(t)] + last);
    RunMore(n1, [Read(t)], last);
  }

  /* ---- The busy marks ---- */

  /** The task revokes, classifies or rotates, and has not ended. */
  predicate Working(task: Task) {
    task.kind in {Revoke, Classify, Rotate} && !task.phase.Finished?
  }

  predicate SameDevice(a: Task, b: Task) {
    a.server == b.server && a.key == b.key
  }

  predicate BothWork(a: Task, b: Task) {
    Working(a) && Working(b) && SameDevice(a, b)
  }

  ghost predicate HasWorker(s: Workbench, b: (nat, Key)) {
    exists t :: t in s.tasks && Working(s.tasks[t]) && (s.tasks[t].server, s.tasks[t].key) == b
  }

  /** The busy marks of a server are exactly the devices its classify, revoke and rotate tasks are working on, one task each. */
  ghost predicate BusyExact(s: Workbench) {
    && (forall t :: t in s.tasks && Working(s.tasks[t]) ==> (s.tasks[t].server, s.tasks[t].key) in s.busy)
    && (forall t, u :: t in s.tasks && u in s.tasks && BothWork(s.tasks[t], s.tasks[u]) ==> t == u)
    && (forall b :: b in s.busy ==> HasWorker(s, b))
  }

  lemma WorkerStays(s: Workbench, n: Workbench, b: (nat, Key))
    requires HasWorker(s, b)
    requires forall t :: t in s.tasks && Working(s.tasks[t]) && (s.tasks[t].server, s.tasks[t].key) == b ==>
               t in n.tasks && Working(n.tasks[t]) && SameDevice(s.tasks[t], n.tasks[t])
    ensures HasWorker(n, b)
  {}

  lemma PhaseKeepsBusy(s: Workbench, n: Workbench, t: nat)
    requires BusyExact(s) && n.busy == s.busy && t in s.tasks && n.tasks.Keys == s.tasks.Keys
    requires forall u :: u in s.tasks && u != t ==> n.tasks[u] == s.tasks[u]
    requires n.tasks[t].server == s.tasks[t].server && n.tasks[t].kind == s.tasks[t].kind && n.tasks[t].key == s.tasks[t].key
    requires !s.tasks[t].phase.Finished? && !n.tasks[t].phase.Finished?
    ensures BusyExact(n)
  {}

  lemma EndKeepsBusy(s: Workbench, t: nat)
    requires BusyExact(s) && t in s.tasks && !s.tasks[t].phase.Finished?
    ensures BusyExact(End(s, t))
  {
    var n := End(s, t);
    forall b | b in n.busy ensures HasWorker(n, b) {
      WorkerStays(s, n, b);
    }
  }

  lemma StartKeepsBusy(s: Workbench, t: nat, task: Task)
    requires BusyExact(s) && t !in s.tasks
    requires Working(task) ==> (task.server, task.key) !in s.busy
    ensures BusyExact(s.(tasks := s.tasks[t := task], busy := if Working(task) then s.busy + {(task.server, task.key)} else s.busy))
  {
    var n := s.(tasks := s.tasks[t := task], busy := if Working(task) then s.busy + {(task.server, task.key)} else s.busy);
    forall b | b in n.busy ensures HasWorker(n, b) {
      if b in s.busy {
        WorkerStays(s, n, b);
      } else {
        assert t in n.tasks;
      }
    }
  }

  lemma DieKeepsBusy(s: Workbench, server: nat)
    requires BusyExact(s)
    ensures BusyExact(Next(s, Die(server)))
  {
    var n := Next(s, Die(server));
    forall b | b in n.busy ensures HasWorker(n, b) {
      WorkerStays(s, n, b);
    }
  }

  lemma NextKeepsBusy(s: Workbench, m: Move)
    requires BusyExact(s)
    ensures BusyExact(Next(s, m))
  {
    hide BusyExact, Step;
    var n := Next(s, m);
    if m.Start? {
      if m.t !in s.tasks && IsDevice(m.key) {
        StartKeepsBusy(s, m.t, n.tasks[m.t]);
      }
    } else if m.Die? {
      DieKeepsBusy(s, m.server);
    } else if m.Store? {
      StoreKeepsBusy(s, n);
    } else if m.t in s.tasks && n != s {
      if n == End(s, m.t) {
        EndKeepsBusy(s, m.t);
      } else {
        PhaseKeepsBusy(s, n, m.t);
      }
    }
  }

  lemma StoreKeepsBusy(s: Workbench, n: Workbench)
    requires BusyExact(s) && n.tasks == s.tasks && n.busy == s.busy
    ensures BusyExact(n)
  {
  }

  /** Revoking, classifying or rotating a device that the server works on is refused at once; a registration never is. */
  lemma BusyRefuses(moves: seq<Move>, t: nat, u: nat, kind: Kind)
    requires var s := Run(Empty(), moves); t in s.tasks && Working(s.tasks[t]) && u !in s.tasks && IsDevice(s.tasks[t].key)
    ensures var s := Run(Empty(), moves);
            var n := Next(s, Start(u, s.tasks[t].server, kind, s.tasks[t].key));
            && n.store == s.store && n.busy == s.busy && n.calls == s.calls
            && n.tasks == s.tasks[u := Task(s.tasks[t].server, kind, s.tasks[t].key, if kind == Register then Entered else Finished)]
  {
    hide Run, IsDevice;
    EveryRunBusy(moves);
  }

  /** In every run each server works on a device with at most one classify, revoke or rotate at a time, and forgets none of its marks. */
  lemma {:induction false} EveryRunBusy(moves: seq<Move>)
    ensures BusyExact(Run(Empty(), moves))
  {
    if moves != [] {
      EveryRunBusy(moves[..|moves| - 1]);
      NextKeepsBusy(Run(Empty(), moves[..|moves| - 1]), moves[|moves| - 1]);
    }
  }
}
