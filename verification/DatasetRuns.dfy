/** Every interleaving of dataset calls with each other, with policy changes and with expiring jobs. */
module DatasetRuns {
  import opened Wrappers
  import opened SharedDatasets

  /** A preparation waits for its first policy read, then collects samples under the rights it read. */
  datatype Phase = Waiting | Collecting(filteredAt: nat)

  datatype Prep = Prep(twin: string, did: string, token: string, phase: Phase)

  /** A historical query collecting samples under the rights of a revision. */
  datatype Query = Query(twin: string, did: string, token: string, filteredAt: nat)

  /** What a call handed out, and the revision it read as current when it did. */
  datatype Handed = Handed(twin: string, did: string, contents: Archive, revision: nat)

  datatype State = State(
    now: nat, revisions: map<string, nat>, jobs: Jobs, running: nat,
    preps: map<nat, Prep>, queries: map<nat, Query>, used: set<nat>, handed: seq<Handed>)

  /** `expiresAt` is None when the policy read denies access or the session is over. */
  datatype Action =
    | Tick(elapsed: nat)
    | PolicyChange(twin: string)
    | Remove(id: nat)
    | Create(id: nat, twin: string, token: string, expiresAt: Option<nat>)
    | PrepRead(id: nat, expiresAt: Option<nat>)
    | PrepFail(id: nat)
    | PrepFinish(id: nat, size: nat, expiresAt: Option<nat>)
    | Download(id: nat, twin: string, token: string, expiresAt: Option<nat>)
    | QueryStart(id: nat, twin: string, token: string, expiresAt: Option<nat>)
    | QueryFinish(id: nat, size: nat, expiresAt: Option<nat>)
    | QueryFail(id: nat)

  function Revision(s: State, twin: string): nat {
    if twin in s.revisions then s.revisions[twin] else 0
  }

  /** `who` is the DID each session token belongs to. */
  function Read(s: State, who: string -> string, twin: string, token: string, expiresAt: Option<nat>): Option<Access> {
    if expiresAt.None? then None else Some(Access(who(token), Revision(s, twin), expiresAt.value))
  }

  /** The preparation of a job ends without an archive. */
  function Failing(s: State, id: nat): State
    requires s.running > 0
  {
    s.(jobs := WithStatus(s.jobs, id, Failed), preps := s.preps - {id}, running := s.running - 1)
  }

  function Step(who: string -> string, s: State, a: Action): State {
    match a
    case Tick(elapsed) => s.(now := s.now + elapsed)
    case PolicyChange(twin) => s.(revisions := s.revisions[twin := Revision(s, twin) + 1])
    case Remove(id) => s.(jobs := Without(s.jobs, id))
    case Create(id, twin, token, expiresAt) =>
      var access := Read(s, who, twin, token, expiresAt);
      if access.None? || id in s.used then s
      else
        var live := Live(s.jobs, s.now);
        if Full(live, s.running, access.value.did) then s.(jobs := live)
        else
          s.(jobs := live + [NewJob(id, twin, token, access.value, s.now)], running := s.running + 1,
             preps := s.preps[id := Prep(twin, access.value.did, token, Waiting)], used := s.used + {id})
    case PrepRead(id, expiresAt) =>
      if id !in s.preps || !s.preps[id].phase.Waiting? || s.running == 0 then s
      else
        var p := s.preps[id];
        var access := Read(s, who, p.twin, p.token, expiresAt);
        if access.None? then Failing(s, id)
        else s.(preps := s.preps[id := p.(phase := Collecting(access.value.revision))])
    case PrepFail(id) => if id !in s.preps || s.running == 0 then s else Failing(s, id)
    case PrepFinish(id, size, expiresAt) =>
      if id !in s.preps || !s.preps[id].phase.Collecting? || s.running == 0 then s
      else
        var p := s.preps[id];
        var archive := Archive(size, p.twin, p.did, p.phase.filteredAt);
        var exposed := Exposed(s.jobs, id, archive, Read(s, who, p.twin, p.token, expiresAt), s.now);
        if size > MAX_ARCHIVE || exposed.Err? then Failing(s, id)
        else s.(jobs := exposed.value, preps := s.preps - {id}, running := s.running - 1)
    case Download(id, twin, token, expiresAt) =>
      var access := Read(s, who, twin, token, expiresAt);
      if access.None? then s
      else
        var (jobs, r) := Downloaded(s.jobs, twin, token, id, access.value, s.now);
        s.(jobs := jobs, handed := s.handed + if r.Ok? then [Handed(twin, access.value.did, r.value, access.value.revision)] else [])
    case QueryStart(id, twin, token, expiresAt) =>
      var access := Read(s, who, twin, token, expiresAt);
      if access.None? || id in s.used || s.running >= MAX_CONCURRENT then s
      else s.(running := s.running + 1, used := s.used + {id},
              queries := s.queries[id := Query(twin, access.value.did, token, access.value.revision)])
    case QueryFinish(id, size, expiresAt) =>
      if id !in s.queries || s.running == 0 then s
      else
        var q := s.queries[id];
        var access := Read(s, who, q.twin, q.token, expiresAt);
        var over := s.(queries := s.queries - {id}, running := s.running - 1);
        if access.None? || access.value.revision != q.filteredAt then over
        else over.(handed := s.handed + [Handed(q.twin, q.did, Archive(size, q.twin, q.did, q.filteredAt), access.value.revision)])
    case QueryFail(id) =>
      if id !in s.queries || s.running == 0 then s else s.(queries := s.queries - {id}, running := s.running - 1)
  }

  function Init(): State {
    State(0, map[], [], 0, map[], map[], {}, [])
  }

  function Run(who: string -> string, actions: seq<Action>): State {
    if actions == [] then Init() else Step(who, Run(who, actions[..|actions| - 1]), actions[|actions| - 1])
  }

  /* ---- Facts about the job table ---- */

  predicate DistinctIds(jobs: Jobs) {
    forall i, j :: 0 <= i < j < |jobs| ==> jobs[i].id != jobs[j].id
  }

  /** The table `b` holds nothing that `a` does not, and counts no higher. */
  ghost predicate Smaller(b: Jobs, a: Jobs) {
    && (forall job :: job in b ==> job in a)
    && |b| <= |a| && Resident(b) <= Resident(a)
    && (forall did :: OfDid(b, did) <= OfDid(a, did))
    && (DistinctIds(a) ==> DistinctIds(b))
  }

  /** Dropping or keeping the last job keeps a smaller table smaller. */
  lemma SmallerStep(b: Jobs, a: Jobs, keep: bool)
    requires a != [] && Smaller(b, a[..|a| - 1])
    ensures Smaller(b + if keep then [a[|a| - 1]] else [], a)
  {
    var before := a[..|a| - 1];
    var last := a[|a| - 1];
    assert a == before + [last];
    Appended(before, last);
    if keep {
      Appended(b, last);
      if DistinctIds(a) {
        KeptDistinct(b, a);
      }
    } else {
      assert b + [] == b;
      assert DistinctIds(a) ==> DistinctIds(before);
    }
  }

  lemma KeptDistinct(b: Jobs, a: Jobs)
    requires a != [] && Smaller(b, a[..|a| - 1]) && DistinctIds(a)
    ensures DistinctIds(b + [a[|a| - 1]])
  {
    hide Resident, OfDid;
    var before := a[..|a| - 1];
    var r := b + [a[|a| - 1]];
    assert DistinctIds(before);
    forall i, j | 0 <= i < j < |r|
      ensures r[i].id != r[j].id
    {
      if j < |b| {
        assert b[i].id != b[j].id;
      } else {
        assert b[i] in before;
        var k :| 0 <= k < |before| && before[k] == b[i];
        assert a[k].id != a[|a| - 1].id;
      }
    }
  }

  lemma {:induction false} LiveSmaller(jobs: Jobs, now: nat)
    ensures Smaller(Live(jobs, now), jobs)
  {
    hide Smaller;
    if jobs == [] {
      NothingSmaller();
    } else {
      LiveSmaller(jobs[..|jobs| - 1], now);
      SmallerStep(Live(jobs[..|jobs| - 1], now), jobs, jobs[|jobs| - 1].expiresAt > now);
    }
  }

  lemma {:induction false} WithoutSmaller(jobs: Jobs, id: nat)
    ensures Smaller(Without(jobs, id), jobs)
  {
    hide Smaller;
    if jobs == [] {
      NothingSmaller();
    } else {
      WithoutSmaller(jobs[..|jobs| - 1], id);
      SmallerStep(Without(jobs[..|jobs| - 1], id), jobs, jobs[|jobs| - 1].id != id);
    }
  }

  lemma NothingSmaller()
    ensures Smaller([], [])
  {}

  lemma {:induction false} FindIn(jobs: Jobs, id: nat)
    ensures match Find(jobs, id)
            case Some(job) => job in jobs && job.id == id
            case None => forall job :: job in jobs ==> job.id != id
  {
    if jobs != [] {
      FindIn(jobs[..|jobs| - 1], id);
      assert jobs == jobs[..|jobs| - 1] + [jobs[|jobs| - 1]];
    }
  }

  lemma OnlyOne(jobs: Jobs, a: Job, b: Job)
    requires DistinctIds(jobs) && a in jobs && b in jobs && a.id == b.id
    ensures a == b
  {}

  /** Changing a status changes one job and nothing that is counted. */
  lemma {:induction false} StatusCounts(jobs: Jobs, id: nat, status: Status)
    ensures var r := WithStatus(jobs, id, status);
            && |r| == |jobs|
            && (forall i :: 0 <= i < |r| ==> r[i] == if jobs[i].id == id then jobs[i].(status := status) else jobs[i])
            && (forall did :: OfDid(r, did) == OfDid(jobs, did))
  {
    if jobs != [] {
      var r := WithStatus(jobs, id, status);
      StatusCounts(jobs[..|jobs| - 1], id, status);
      assert r[..|r| - 1] == WithStatus(jobs[..|jobs| - 1], id, status);
    }
  }

  lemma {:induction false} StatusAbsent(jobs: Jobs, id: nat, status: Status)
    requires forall i :: 0 <= i < |jobs| ==> jobs[i].id != id
    ensures WithStatus(jobs, id, status) == jobs
  {
    if jobs != [] {
      StatusAbsent(jobs[..|jobs| - 1], id, status);
    }
  }

  /** A new status adds at most its own bytes. */
  lemma {:induction false} StatusBytes(jobs: Jobs, id: nat, status: Status)
    requires DistinctIds(jobs)
    ensures Resident(WithStatus(jobs, id, status)) <= Resident(jobs) + if status.Ready? then status.archive.size else 0
  {
    if jobs != [] {
      var r := WithStatus(jobs, id, status);
      var before := jobs[..|jobs| - 1];
      assert r[..|r| - 1] == WithStatus(before, id, status);
      if jobs[|jobs| - 1].id == id {
        StatusAbsent(before, id, status);
      } else {
        StatusBytes(before, id, status);
      }
    }
  }

  lemma Appended(jobs: Jobs, job: Job)
    ensures Resident(jobs + [job]) == Resident(jobs) + Bytes(job)
    ensures forall did :: OfDid(jobs + [job], did) == OfDid(jobs, did) + if job.did == did then 1 else 0
  {}

  /* ---- What one call answers ---- */

  lemma {:induction false} LiveExactly(jobs: Jobs, now: nat)
    ensures forall job :: job in Live(jobs, now) <==> job in jobs && now < job.expiresAt
  {
    if jobs != [] {
      LiveExactly(jobs[..|jobs| - 1], now);
      assert jobs == jobs[..|jobs| - 1] + [jobs[|jobs| - 1]];
    }
  }

  lemma {:induction false} WithoutExactly(jobs: Jobs, id: nat)
    ensures forall job :: job in Without(jobs, id) <==> job in jobs && job.id != id
  {
    if jobs != [] {
      WithoutExactly(jobs[..|jobs| - 1], id);
      assert jobs == jobs[..|jobs| - 1] + [jobs[|jobs| - 1]];
    }
  }

  /** The job is still there for whoever asks: of this Twin, this DID and this session, and not expired. */
  ghost predicate Reachable(job: Job, twin: string, token: string, id: nat, access: Access, now: nat) {
    job.id == id && job.twin == twin && job.did == access.did && job.token == token && now < job.expiresAt
  }

  /**
   A download hands out the archive of exactly the prepared job that is reachable and of the current policy revision, tells
   a missing, a revoked and an unfinished job apart, and takes exactly the expired jobs and a revoked one out of the table.
   */
  lemma DownloadExactly(jobs: Jobs, twin: string, token: string, id: nat, access: Access, now: nat, archive: Archive)
    requires DistinctIds(jobs)
    ensures var (left, r) := Downloaded(jobs, twin, token, id, access, now);
            && (r == Ok(archive) <==>
                  exists job :: job in jobs && Reachable(job, twin, token, id, access, now)
                                && job.revision == access.revision && job.status == Ready(archive))
            && (r == Err(NotFound) <==> forall job :: job in jobs ==> !Reachable(job, twin, token, id, access, now))
            && (r == Err(Revoked) <==>
                  exists job :: job in jobs && Reachable(job, twin, token, id, access, now) && job.revision != access.revision)
            && (r == Err(NotReady) <==>
                  exists job :: job in jobs && Reachable(job, twin, token, id, access, now)
                                && job.revision == access.revision && !job.status.Ready?)
            && (forall job :: job in left <==> job in jobs && now < job.expiresAt && (r == Err(Revoked) ==> job.id != id))
  {
    hide Live, Find, Without;
    var live := Live(jobs, now);
    LiveExactly(jobs, now);
    FindIn(live, id);
    WithoutExactly(live, id);
    if Find(live, id).Some? {
      var found := Find(live, id).value;
      forall job | job in jobs && Reachable(job, twin, token, id, access, now)
        ensures job == found
      {
        OnlyOne(jobs, job, found);
      }
    }
  }

  ghost function OfDidAt(jobs: Jobs, did: string): set<int> {
    set i | 0 <= i < |jobs| && jobs[i].did == did
  }

  lemma {:induction false} OfDidCounts(jobs: Jobs, did: string)
    ensures OfDid(jobs, did) == |OfDidAt(jobs, did)|
  {
    if jobs != [] {
      var n := |jobs| - 1;
      OfDidCounts(jobs[..n], did);
      assert OfDidAt(jobs, did) == OfDidAt(jobs[..n], did) + if jobs[n].did == did then {n} else {};
    }
  }

  /**
   A request for a dataset is refused as busy exactly when two preparations or queries run, 32 jobs are alive or four of
   them are the DID's; otherwise its job lives for ten minutes, or as long as the session if that ends before.
   */
  lemma CreateExactly(jobs: Jobs, running: nat, id: nat, twin: string, token: string, access: Access, now: nat)
    ensures var live := Live(jobs, now);
            Full(live, running, access.did) <==> !(running < 2 && |live| < 32 && |OfDidAt(live, access.did)| < 4)
    ensures var job := NewJob(id, twin, token, access, now);
            && job.id == id && job.twin == twin && job.token == token && job.did == access.did
            && job.revision == access.revision && job.status == Preparing
            && job.expiresAt <= now + 10 * 60 * 1000 && job.expiresAt <= access.expiresAt
            && (job.expiresAt == now + 10 * 60 * 1000 || job.expiresAt == access.expiresAt)
  {
    OfDidCounts(Live(jobs, now), access.did);
  }

  /** The bytes of the prepared archives in the table. */
  lemma {:induction false} ResidentSums(jobs: Jobs, job: Job)
    ensures Resident([]) == 0
    ensures Resident(jobs + [job]) == Resident(jobs) + match job.status case Ready(archive) => archive.size case _ => 0
  {}

  /**
   A finished archive is exposed exactly when the session still reads the policy, at the job's revision, the job is still
   there and not expired, and the archive fits beside those in memory; then exactly that job changes.
   */
  lemma ExposeExactly(jobs: Jobs, id: nat, archive: Archive, access: Option<Access>, now: nat)
    requires DistinctIds(jobs)
    ensures var r := Exposed(jobs, id, archive, access, now);
            && (r.Ok? <==>
                  && access.Some? && Resident(jobs) + archive.size <= 64 * 1024 * 1024
                  && exists job :: job in jobs && job.id == id && now < job.expiresAt && job.revision == access.value.revision)
            && (r == Err(NotFound) <==> access == None)
            && (r == Err(Expired) <==> access.Some? && forall job :: job in jobs && job.id == id ==> job.expiresAt <= now)
            && (r == Err(Revoked) <==>
                  access.Some? && exists job :: job in jobs && job.id == id && now < job.expiresAt && job.revision != access.value.revision)
            && (r.Err? ==> r.error in {NotFound, Expired, Revoked, Capacity})
            && (r.Ok? ==> |r.value| == |jobs| && forall i :: 0 <= i < |jobs| ==>
                  r.value[i] == if jobs[i].id == id then jobs[i].(status := Ready(archive)) else jobs[i])
  {
    hide Find, WithStatus, Resident;
    FindIn(jobs, id);
    StatusCounts(jobs, id, Ready(archive));
    if Find(jobs, id).Some? {
      var found := Find(jobs, id).value;
      forall job | job in jobs && job.id == id ensures job == found {
        OnlyOne(jobs, job, found);
      }
    }
  }

  /* ---- Capacity ---- */

  ghost predicate Counted(s: State) {
    && s.running == |s.preps| + |s.queries| <= MAX_CONCURRENT
    && (forall id :: id in s.preps ==> id in s.used && id !in s.queries)
    && (forall id :: id in s.queries ==> id in s.used)
  }

  ghost predicate Bounded(jobs: Jobs) {
    && DistinctIds(jobs)
    && |jobs| <= MAX_JOBS
    && (forall did :: OfDid(jobs, did) <= MAX_PER_DID)
    && Resident(jobs) <= MAX_RESIDENT
  }

  lemma FailedBounded(jobs: Jobs, id: nat)
    requires Bounded(jobs)
    ensures Bounded(WithStatus(jobs, id, Failed))
  {
    StatusCounts(jobs, id, Failed);
    StatusBytes(jobs, id, Failed);
  }

  lemma ExposedBounded(jobs: Jobs, id: nat, archive: Archive, access: Option<Access>, now: nat)
    requires Bounded(jobs) && Exposed(jobs, id, archive, access, now).Ok?
    ensures Bounded(Exposed(jobs, id, archive, access, now).value)
  {
    StatusCounts(jobs, id, Ready(archive));
    StatusBytes(jobs, id, Ready(archive));
  }

  lemma CreatedBounded(live: Jobs, running: nat, job: Job)
    requires Bounded(live) && !Full(live, running, job.did) && Bytes(job) == 0
    requires forall other :: other in live ==> other.id != job.id
    ensures Bounded(live + [job])
  {
    Appended(live, job);
    forall i | 0 <= i < |live|
      ensures live[i].id != job.id
    {
      assert live[i] in live;
    }
  }

  lemma StepCounted(who: string -> string, s: State, a: Action)
    requires Counted(s)
    ensures Counted(Step(who, s, a))
  {
    match a
    case Create(id, twin, token, expiresAt) => CreateCounted(who, s, a);
    case QueryStart(id, twin, token, expiresAt) => QueryStartCounted(who, s, a);
    case PrepRead(id, expiresAt) => PrepReadCounted(who, s, a);
    case PrepFail(id) => PrepEndCounted(who, s, a);
    case PrepFinish(id, size, expiresAt) => PrepEndCounted(who, s, a);
    case QueryFinish(id, size, expiresAt) => QueryEndCounted(who, s, a);
    case QueryFail(id) => QueryEndCounted(who, s, a);
    case _ => OtherCounted(who, s, a);
  }

  lemma OtherCounted(who: string -> string, s: State, a: Action)
    requires Counted(s) && (a.Tick? || a.PolicyChange? || a.Remove? || a.Download?)
    ensures Counted(Step(who, s, a))
  {}

  lemma CreateCounted(who: string -> string, s: State, a: Action)
    requires Counted(s) && a.Create?
    ensures Counted(Step(who, s, a))
  {}

  lemma QueryStartCounted(who: string -> string, s: State, a: Action)
    requires Counted(s) && a.QueryStart?
    ensures Counted(Step(who, s, a))
  {}

  lemma PrepReadCounted(who: string -> string, s: State, a: Action)
    requires Counted(s) && a.PrepRead?
    ensures Counted(Step(who, s, a))
  {}

  lemma PrepEndCounted(who: string -> string, s: State, a: Action)
    requires Counted(s) && (a.PrepFail? || a.PrepFinish?)
    ensures Counted(Step(who, s, a))
  {}

  lemma QueryEndCounted(who: string -> string, s: State, a: Action)
    requires Counted(s) && (a.QueryFail? || a.QueryFinish?)
    ensures Counted(Step(who, s, a))
  {}

  /* ---- Capacity of the table ---- */

  ghost predicate Tabled(s: State) {
    Bounded(s.jobs) && forall job :: job in s.jobs ==> job.id in s.used
  }

  lemma SmallerTabled(s: State, n: State)
    requires Tabled(s) && Smaller(n.jobs, s.jobs) && s.used <= n.used
    ensures Tabled(n)
  {}

  lemma StatusTabled(s: State, n: State, id: nat, status: Status)
    requires Tabled(s) && n.jobs == WithStatus(s.jobs, id, status) && n.used == s.used
    requires Bounded(n.jobs)
    ensures Tabled(n)
  {
    StatusCounts(s.jobs, id, status);
    forall job | job in n.jobs
      ensures job.id in n.used
    {
      var i :| 0 <= i < |n.jobs| && n.jobs[i] == job;
      assert s.jobs[i] in s.jobs;
    }
  }

  lemma FailingTabled(s: State, id: nat)
    requires Tabled(s) && s.running > 0
    ensures Tabled(Failing(s, id))
  {
    hide Bounded, WithStatus;
    FailedBounded(s.jobs, id);
    StatusTabled(s, Failing(s, id), id, Failed);
  }

  lemma CreateTabled(who: string -> string, s: State, a: Action)
    requires Tabled(s) && a.Create?
    ensures Tabled(Step(who, s, a))
  {
    hide Bounded, Smaller, Live, Full;
    var live := Live(s.jobs, s.now);
    LiveSmaller(s.jobs, s.now);
    var middle := s.(jobs := live);
    SmallerTabled(s, middle);
    var n := Step(who, s, a);
    if n.jobs != s.jobs && n.jobs != live {
      var access := Read(s, who, a.twin, a.token, a.expiresAt).value;
      CreatedBounded(live, s.running, NewJob(a.id, a.twin, a.token, access, s.now));
    }
  }

  lemma FinishTabled(who: string -> string, s: State, a: Action)
    requires Tabled(s) && a.PrepFinish?
    ensures Tabled(Step(who, s, a))
  {
    hide Bounded, WithStatus, Find, Resident, Tabled;
    if a.id in s.preps && s.preps[a.id].phase.Collecting? && s.running > 0 {
      FailingTabled(s, a.id);
      var p := s.preps[a.id];
      var archive := Archive(a.size, p.twin, p.did, p.phase.filteredAt);
      var access := Read(s, who, p.twin, p.token, a.expiresAt);
      if Exposed(s.jobs, a.id, archive, access, s.now).Ok? && a.size <= MAX_ARCHIVE {
        TabledBounded(s);
        ExposedBounded(s.jobs, a.id, archive, access, s.now);
        StatusTabled(s, Step(who, s, a), a.id, Ready(archive));
      }
    }
  }

  lemma TabledBounded(s: State)
    requires Tabled(s)
    ensures Bounded(s.jobs)
  {}

  lemma TabledDistinct(s: State)
    requires Tabled(s)
    ensures DistinctIds(s.jobs)
  {}

  lemma DownloadTabled(who: string -> string, s: State, a: Action)
    requires Tabled(s) && a.Download?
    ensures Tabled(Step(who, s, a))
  {
    hide Bounded, Smaller, Live, Find, Without;
    var live := Live(s.jobs, s.now);
    LiveSmaller(s.jobs, s.now);
    SmallerTabled(s, s.(jobs := live));
    WithoutSmaller(live, a.id);
    SmallerTabled(s.(jobs := live), s.(jobs := Without(live, a.id)));
  }

  lemma StepTabled(who: string -> string, s: State, a: Action)
    requires Tabled(s)
    ensures Tabled(Step(who, s, a))
  {
    hide Bounded, WithStatus, Without, Live, Find, Full, Exposed, Downloaded;
    match a
    case Create(id, twin, token, expiresAt) => CreateTabled(who, s, a);
    case Download(id, twin, token, expiresAt) => DownloadTabled(who, s, a);
    case PrepFinish(id, size, expiresAt) => FinishTabled(who, s, a);
    case Remove(id) =>
      WithoutSmaller(s.jobs, id);
      SmallerTabled(s, Step(who, s, a));
    case PrepRead(id, expiresAt) =>
      if s.running > 0 {
        FailingTabled(s, id);
      }
    case PrepFail(id) =>
      if s.running > 0 {
        FailingTabled(s, id);
      }
    case _ =>
  }

  lemma {:induction false} EveryRunCapacity(who: string -> string, actions: seq<Action>)
    ensures Counted(Run(who, actions)) && Tabled(Run(who, actions))
  {
    hide Step, Counted, Tabled;
    if actions == [] {
      StartCapacity();
    } else {
      var before := actions[..|actions| - 1];
      EveryRunCapacity(who, before);
      StepCounted(who, Run(who, before), actions[|actions| - 1]);
      StepTabled(who, Run(who, before), actions[|actions| - 1]);
    }
  }

  lemma StartCapacity()
    ensures Counted(Init()) && Tabled(Init())
  {}

  /**
   At every moment the counter equals the preparations and queries under way and is at most 2, there are at most 32 jobs
   and 4 per DID, and the archives in memory are at most 64 MiB.
   */
  lemma CapacityHolds(who: string -> string, actions: seq<Action>, did: string)
    ensures var s := Run(who, actions);
            && s.running == |s.preps| + |s.queries| <= 2
            && |s.jobs| <= 32 && OfDid(s.jobs, did) <= 4
            && Resident(s.jobs) <= 64 * 1024 * 1024
  {
    hide Run;
    EveryRunCapacity(who, actions);
  }

  /* ---- Revisions ---- */

  /** A job's archive was filtered for the job's own Twin and DID under the job's own revision. */
  ghost predicate JobOk(s: State, job: Job) {
    && job.revision <= Revision(s, job.twin)
    && (job.status.Ready? ==> job.status.archive.twin == job.twin && job.status.archive.did == job.did
                              && job.status.archive.filteredAt == job.revision)
  }

  /** While its job is still there, a preparation reads for the same Twin and DID, at or after the job's revision. */
  ghost predicate PrepOk(s: State, id: nat)
    requires id in s.preps
  {
    var p := s.preps[id];
    && (p.phase.Collecting? ==> p.phase.filteredAt <= Revision(s, p.twin))
    && (forall job :: job in s.jobs && job.id == id ==>
          && job.twin == p.twin && job.did == p.did && !job.status.Ready?
          && (p.phase.Collecting? ==> job.revision <= p.phase.filteredAt))
  }

  ghost predicate HandedOk(h: Handed) {
    h.contents.filteredAt == h.revision && h.contents.twin == h.twin && h.contents.did == h.did
  }

  ghost predicate Filtered(s: State) {
    && (forall job :: job in s.jobs ==> JobOk(s, job))
    && (forall id :: id in s.preps ==> PrepOk(s, id))
    && (forall id :: id in s.queries ==> s.queries[id].filteredAt <= Revision(s, s.queries[id].twin))
    && (forall i :: 0 <= i < |s.handed| ==> HandedOk(s.handed[i]))
  }

  /** Fewer jobs and preparations, and a policy that only moves on. */
  lemma FewerFiltered(s: State, n: State)
    requires Filtered(s)
    requires forall job :: job in n.jobs ==> job in s.jobs
    requires forall id :: id in n.preps ==> id in s.preps && n.preps[id] == s.preps[id]
    requires forall id :: id in n.queries ==> id in s.queries && n.queries[id] == s.queries[id]
    requires forall twin :: Revision(s, twin) <= Revision(n, twin)
    requires n.handed == s.handed
    ensures Filtered(n)
  {}

  lemma FailingFiltered(s: State, id: nat)
    requires Filtered(s) && s.running > 0
    ensures Filtered(Failing(s, id))
  {
    hide Revision;
    StatusCounts(s.jobs, id, Failed);
    var n := Failing(s, id);
    assert forall twin :: Revision(n, twin) == Revision(s, twin) by { SameRevision(s, n); }
    forall job | job in n.jobs
      ensures JobOk(n, job)
    {
      var i :| 0 <= i < |n.jobs| && n.jobs[i] == job;
      assert JobOk(s, s.jobs[i]);
    }
    forall other | other in n.preps
      ensures PrepOk(n, other)
    {
      assert PrepOk(s, other);
      forall job | job in n.jobs && job.id == other
        ensures job in s.jobs
      {
        var i :| 0 <= i < |n.jobs| && n.jobs[i] == job;
      }
    }
  }

  lemma SameRevision(s: State, n: State)
    requires n.revisions == s.revisions
    ensures forall twin :: Revision(n, twin) == Revision(s, twin)
  {}

  lemma CreateFiltered(who: string -> string, s: State, a: Action)
    requires Filtered(s) && Counted(s) && Tabled(s) && a.Create?
    ensures Filtered(Step(who, s, a))
  {
    hide Bounded, Counted, Live, Full, Revision;
    LiveSmaller(s.jobs, s.now);
    var n := Step(who, s, a);
    SameRevision(s, n);
    var middle := s.(jobs := Live(s.jobs, s.now));
    SameRevision(s, middle);
    FewerFiltered(s, middle);
    if n.running != s.running {
      forall job | job in n.jobs
        ensures JobOk(n, job)
      {
        assert job in middle.jobs ==> JobOk(middle, job);
      }
      forall id | id in n.preps
        ensures PrepOk(n, id)
      {
        if id != a.id {
          assert PrepOk(middle, id);
        } else {
          forall job | job in middle.jobs
            ensures job.id != id
          {
            assert job in s.jobs;
          }
        }
      }
    }
  }

  lemma PrepReadFiltered(who: string -> string, s: State, a: Action)
    requires Filtered(s) && a.PrepRead?
    ensures Filtered(Step(who, s, a))
  {
    hide WithStatus, Revision;
    var id := a.id;
    if id in s.preps && s.preps[id].phase.Waiting? && s.running > 0 {
      FailingFiltered(s, id);
      var n := Step(who, s, a);
      if n.running == s.running {
        SameRevision(s, n);
        assert PrepOk(s, id);
        forall job | job in n.jobs
          ensures JobOk(n, job)
        {
          assert JobOk(s, job);
        }
        forall other | other in n.preps
          ensures PrepOk(n, other)
        {
          assert PrepOk(s, other);
        }
      }
    }
  }

  lemma FinishFiltered(who: string -> string, s: State, a: Action)
    requires Filtered(s) && Tabled(s) && a.PrepFinish?
    ensures Filtered(Step(who, s, a))
  {
    hide WithStatus, Revision, Bounded, Resident;
    var id := a.id;
    if id in s.preps && s.preps[id].phase.Collecting? && s.running > 0 {
      FailingFiltered(s, id);
      var p := s.preps[id];
      var archive := Archive(a.size, p.twin, p.did, p.phase.filteredAt);
      var access := Read(s, who, p.twin, p.token, a.expiresAt);
      if a.size <= MAX_ARCHIVE && Exposed(s.jobs, id, archive, access, s.now).Ok? {
        TabledDistinct(s);
        ExposedFiltered(s, Step(who, s, a), id, archive, access);
      }
    }
  }

  /** The recheck pins the revision under which the samples were filtered to the job's. */
  lemma ExposedFiltered(s: State, n: State, id: nat, archive: Archive, access: Option<Access>)
    requires Filtered(s) && id in s.preps && s.preps[id].phase.Collecting?
    requires archive.twin == s.preps[id].twin && archive.did == s.preps[id].did && archive.filteredAt == s.preps[id].phase.filteredAt
    requires access.Some? && access.value.revision == Revision(s, s.preps[id].twin)
    requires Exposed(s.jobs, id, archive, access, s.now).Ok? && n.jobs == Exposed(s.jobs, id, archive, access, s.now).value
    requires DistinctIds(s.jobs)
    requires n.preps == s.preps - {id} && n.queries == s.queries && n.handed == s.handed && n.revisions == s.revisions
    ensures Filtered(n)
  {
    hide WithStatus, Revision, Resident;
    SameRevision(s, n);
    StatusCounts(s.jobs, id, Ready(archive));
    FindIn(s.jobs, id);
    assert PrepOk(s, id);
    forall job | job in n.jobs
      ensures JobOk(n, job)
    {
      var i :| 0 <= i < |n.jobs| && n.jobs[i] == job;
      assert JobOk(s, s.jobs[i]);
      if s.jobs[i].id == id {
        OnlyOne(s.jobs, s.jobs[i], Find(s.jobs, id).value);
      }
    }
    forall other | other in n.preps
      ensures PrepOk(n, other)
    {
      assert PrepOk(s, other);
      forall job | job in n.jobs && job.id == other
        ensures job in s.jobs
      {
        var i :| 0 <= i < |n.jobs| && n.jobs[i] == job;
      }
    }
  }

  lemma DownloadFiltered(who: string -> string, s: State, a: Action)
    requires Filtered(s) && a.Download?
    ensures Filtered(Step(who, s, a))
  {
    hide Live, Find, Without, Revision, PrepOk, JobOk;
    var live := Live(s.jobs, s.now);
    LiveSmaller(s.jobs, s.now);
    WithoutSmaller(live, a.id);
    FindIn(live, a.id);
    var n := Step(who, s, a);
    var middle := n.(handed := s.handed);
    SameRevision(s, middle);
    FewerFiltered(s, middle);
    forall id | id in n.preps
      ensures PrepOk(n, id)
    {
      PrepSame(middle, n, id);
    }
    forall job | job in n.jobs
      ensures JobOk(n, job)
    {
      JobSame(middle, n, job);
    }
    SameRevision(s, n);
    if n.handed != s.handed {
      JobArchive(s, Find(live, a.id).value);
    }
  }

  lemma JobArchive(s: State, job: Job)
    requires JobOk(s, job) && job.status.Ready?
    ensures var c := job.status.archive; c.twin == job.twin && c.did == job.did && c.filteredAt == job.revision
  {}

  lemma PrepSame(s: State, n: State, id: nat)
    requires id in s.preps && PrepOk(s, id) && n.preps == s.preps && n.jobs == s.jobs && n.revisions == s.revisions
    ensures PrepOk(n, id)
  {}

  lemma QueryFiltered(who: string -> string, s: State, a: Action)
    requires Filtered(s) && (a.QueryStart? || a.QueryFinish? || a.QueryFail?)
    ensures Filtered(Step(who, s, a))
  {
    hide Revision, JobOk, PrepOk;
    var n := Step(who, s, a);
    SameRevision(s, n);
    forall id | id in n.preps
      ensures PrepOk(n, id)
    {
      PrepSame(s, n, id);
    }
    forall job | job in n.jobs
      ensures JobOk(n, job)
    {
      JobSame(s, n, job);
    }
  }

  lemma JobSame(s: State, n: State, job: Job)
    requires JobOk(s, job) && n.revisions == s.revisions
    ensures JobOk(n, job)
  {}

  lemma StepFiltered(who: string -> string, s: State, a: Action)
    requires Filtered(s) && Counted(s) && Tabled(s)
    ensures Filtered(Step(who, s, a))
  {
    hide WithStatus, Without, Live, Find, Full, Exposed, Downloaded, Counted, Tabled, Filtered;
    match a
    case Create(id, twin, token, expiresAt) => CreateFiltered(who, s, a);
    case Download(id, twin, token, expiresAt) => DownloadFiltered(who, s, a);
    case PrepFinish(id, size, expiresAt) => FinishFiltered(who, s, a);
    case PrepRead(id, expiresAt) => PrepReadFiltered(who, s, a);
    case PrepFail(id) =>
      if s.running > 0 {
        FailingFiltered(s, id);
      }
    case Remove(id) =>
      WithoutSmaller(s.jobs, id);
      FewerFiltered(s, Step(who, s, a));
    case Tick(elapsed) => FewerFiltered(s, Step(who, s, a));
    case PolicyChange(twin) => FewerFiltered(s, Step(who, s, a));
    case _ => QueryFiltered(who, s, a);
  }

  lemma {:induction false} EveryRunFiltered(who: string -> string, actions: seq<Action>)
    ensures Filtered(Run(who, actions))
  {
    hide Step, Counted, Tabled, Filtered;
    if actions == [] {
      assert Filtered(Init()) by { StartFiltered(); }
    } else {
      var before := actions[..|actions| - 1];
      EveryRunFiltered(who, before);
      EveryRunCapacity(who, before);
      StepFiltered(who, Run(who, before), actions[|actions| - 1]);
    }
  }

  lemma StartFiltered()
    ensures Filtered(Init())
  {}

  /**
   Whatever a download or a historical query hands out was filtered for that Twin and DID under the policy revision that
   was current when it was handed out.
   */
  lemma HandedUnderCurrentPolicy(who: string -> string, actions: seq<Action>, i: nat)
    requires i < |Run(who, actions).handed|
    ensures var h := Run(who, actions).handed[i];
            h.contents.filteredAt == h.revision && h.contents.twin == h.twin && h.contents.did == h.did
  {
    hide Run, JobOk, PrepOk;
    EveryRunFiltered(who, actions);
    assert HandedOk(Run(who, actions).handed[i]);
  }

  /** The recorded revision is the one current at that step. */
  lemma HandedRevisionIsCurrent(who: string -> string, s: State, a: Action)
    requires |Step(who, s, a).handed| > |s.handed|
    ensures var h := Step(who, s, a).handed;
            && |h| == |s.handed| + 1 && h[..|s.handed|] == s.handed
            && h[|s.handed|].revision == Revision(s, h[|s.handed|].twin) && Step(who, s, a).revisions == s.revisions
  {
    hide WithStatus, Without, Live, Find, Full, Exposed, Downloaded, Revision;
  }

  /* ---- How calls end ---- */

  /** The preparation is over, its place is free, and its job, if it is still there, has failed. */
  ghost predicate GaveUp(s: State, n: State, id: nat) {
    && id !in n.preps && n.running + 1 == s.running && |n.jobs| == |s.jobs|
    && forall i :: 0 <= i < |n.jobs| ==>
         n.jobs[i] == Job(s.jobs[i].id, s.jobs[i].twin, s.jobs[i].did, s.jobs[i].token, s.jobs[i].revision, s.jobs[i].expiresAt,
                          if s.jobs[i].id == id then Failed else s.jobs[i].status)
  }

  lemma FailingGivesUp(s: State, id: nat)
    requires id in s.preps && s.running > 0
    ensures GaveUp(s, Failing(s, id), id)
  {
    hide WithStatus;
    StatusCounts(s.jobs, id, Failed);
  }

  /** A preparation that fails, is denied a policy read or prepares too much gives its job up; however it ends, its place is free. */
  lemma PreparationsEnd(who: string -> string, actions: seq<Action>, id: nat, size: nat, expiresAt: Option<nat>)
    requires id in Run(who, actions).preps
    ensures var s := Run(who, actions);
            && GaveUp(s, Step(who, s, PrepFail(id)), id)
            && (s.preps[id].phase.Waiting? ==> GaveUp(s, Step(who, s, PrepRead(id, None)), id))
            && (s.preps[id].phase.Collecting? && (size > 16 * 1024 * 1024 || expiresAt == None) ==>
                  GaveUp(s, Step(who, s, PrepFinish(id, size, expiresAt)), id))
            && (s.preps[id].phase.Collecting? ==>
                  var n := Step(who, s, PrepFinish(id, size, expiresAt)); id !in n.preps && n.running + 1 == s.running)
  {
    hide Run, WithStatus, Tabled, GaveUp;
    EveryRunCapacity(who, actions);
    FailingGivesUp(Run(who, actions), id);
  }

  /** A query that fails hands out nothing, and however it ends, its place is free. */
  lemma QueriesEnd(who: string -> string, actions: seq<Action>, id: nat, size: nat, expiresAt: Option<nat>)
    requires id in Run(who, actions).queries
    ensures var s := Run(who, actions);
            && (var n := Step(who, s, QueryFail(id)); id !in n.queries && n.running + 1 == s.running && n.handed == s.handed)
            && (var n := Step(who, s, QueryFinish(id, size, expiresAt)); id !in n.queries && n.running + 1 == s.running)
  {
    hide Run, Tabled;
    EveryRunCapacity(who, actions);
  }

  lemma RunMore(who: string -> string, actions: seq<Action>, a: Action)
    ensures Run(who, actions + [a]) == Step(who, Run(who, actions), a)
  {
    assert (actions + [a])[..|actions|] == actions;
  }

  /** A job that is over, or of another revision than the current one, hands out nothing. */
  lemma ClosedJob(who: string -> string, s: State, job: Job, token: string, ends: Option<nat>)
    requires DistinctIds(s.jobs) && job in s.jobs && (job.expiresAt <= s.now || job.revision != Revision(s, job.twin))
    ensures Step(who, s, Download(job.id, job.twin, token, ends)).handed == s.handed
  {
    hide Live, Find, Without;
    if ends.Some? {
      var access := Access(who(token), Revision(s, job.twin), ends.value);
      var r := Downloaded(s.jobs, job.twin, token, job.id, access, s.now).1;
      if r.Ok? {
        DownloadExactly(s.jobs, job.twin, token, job.id, access, s.now, r.value);
        var other :| other in s.jobs && Reachable(other, job.twin, token, job.id, access, s.now) && other.revision == access.revision;
        OnlyOne(s.jobs, job, other);
      }
    }
  }

  /** Once its time is over, or once the policy has changed, a job hands out nothing any more. */
  lemma StaleJobIsClosed(who: string -> string, actions: seq<Action>, job: Job, elapsed: nat, token: string, ends: Option<nat>)
    requires job in Run(who, actions).jobs
    ensures var late := Run(who, actions + [Tick(elapsed)]);
            job.expiresAt <= Run(who, actions).now + elapsed ==> Step(who, late, Download(job.id, job.twin, token, ends)).handed == late.handed
    ensures var changed := Run(who, actions + [PolicyChange(job.twin)]);
            Step(who, changed, Download(job.id, job.twin, token, ends)).handed == changed.handed
  {
    hide Run, Step, DistinctIds;
    var s := Run(who, actions);
    EveryRunCapacity(who, actions);
    TabledDistinct(s);
    EveryRunFiltered(who, actions);
    assert JobOk(s, job);
    RunMore(who, actions, Tick(elapsed));
    RunMore(who, actions, PolicyChange(job.twin));
    StepsOn(who, s, elapsed, job.twin);
    if job.expiresAt <= s.now + elapsed {
      ClosedJob(who, Run(who, actions + [Tick(elapsed)]), job, token, ends);
    }
    ClosedJob(who, Run(who, actions + [PolicyChange(job.twin)]), job, token, ends);
  }

  /** Time passes, and a policy change makes a new revision of that Twin's policy and of no other. */
  lemma StepsOn(who: string -> string, s: State, elapsed: nat, twin: string)
    ensures var late := Step(who, s, Tick(elapsed)); late.now == s.now + elapsed && late.jobs == s.jobs
    ensures var changed := Step(who, s, PolicyChange(twin));
            && changed.jobs == s.jobs && Revision(changed, twin) > Revision(s, twin)
            && forall other :: other != twin ==> Revision(changed, other) == Revision(s, other)
  {}

  /** A request that reads the policy clears the expired jobs away, and a download also the job it finds revoked, and a removal just its job. */
  lemma RequestsPrune(who: string -> string, actions: seq<Action>, id: nat, twin: string, token: string, ends: nat)
    ensures var s := Run(who, actions);
            var access := Access(who(token), Revision(s, twin), ends);
            forall job :: job in Step(who, s, Download(id, twin, token, Some(ends))).jobs <==>
                          && job in s.jobs && s.now < job.expiresAt
                          && !(Reachable(job, twin, token, id, access, s.now) && job.revision != access.revision)
    ensures var s := Run(who, actions);
            id !in s.used ==>
              forall job :: job in s.jobs && s.now < job.expiresAt <==>
                            job in Step(who, s, Create(id, twin, token, Some(ends))).jobs && job.id in s.used
    ensures var s := Run(who, actions);
            forall job :: job in Step(who, s, Remove(id)).jobs <==> job in s.jobs && job.id != id
  {
    WithoutExactly(Run(who, actions).jobs, id);
    hide Run, Live, Find, Without, Full, Tabled;
    var s := Run(who, actions);
    var access := Access(who(token), Revision(s, twin), ends);
    EveryRunCapacity(who, actions);
    TabledDistinct(s);
    TabledUsed(s);
    LiveExactly(s.jobs, s.now);
    DownloadExactly(s.jobs, twin, token, id, access, s.now, Archive(0, "", "", 0));
    forall job | job in s.jobs && job.id == id
      ensures forall other :: other in s.jobs && other.id == id ==> other == job
    {
      forall other | other in s.jobs && other.id == id
        ensures other == job
      {
        OnlyOne(s.jobs, job, other);
      }
    }
  }

  /* ---- Calls that nothing disturbs ---- */

  /** There is room for one more call, and for the job and archive of the DID. */
  ghost predicate Room(s: State, did: string, size: nat) {
    var live := Live(s.jobs, s.now);
    && s.running < 2 && |live| < 32 && |OfDidAt(live, did)| < 4
    && size <= 16 * 1024 * 1024 && Resident(live) + size <= 64 * 1024 * 1024
  }

  lemma LastJob(live: Jobs, job: Job, now: nat)
    ensures Find(live + [job], job.id) == Some(job)
    ensures forall status :: WithStatus(live + [job], job.id, status) == WithStatus(live, job.id, status) + [job.(status := status)]
    ensures now < job.expiresAt ==> Live(live + [job], now) == Live(live, now) + [job]
  {
    assert (live + [job])[..|live|] == live;
  }

  /** The job at the end of the table gets its archive. */
  lemma OwnExposed(live: Jobs, job: Job, archive: Archive, access: Access, now: nat)
    requires forall other :: other in live ==> other.id != job.id
    requires now < job.expiresAt && job.revision == access.revision && job.status == Preparing
    requires Resident(live) + archive.size <= 64 * 1024 * 1024
    ensures Exposed(live + [job], job.id, archive, Some(access), now) == Ok(live + [job.(status := Ready(archive))])
  {
    hide Find, WithStatus, Resident;
    StatusAbsent(live, job.id, Ready(archive));
    LastJob(live, job, now);
    Appended(live, job);
  }

  /** The prepared job at the end of the table is downloaded, and the table stays. */
  lemma OwnDownloaded(live: Jobs, job: Job, archive: Archive, access: Access, now: nat)
    requires forall other :: other in live ==> now < other.expiresAt
    requires now < job.expiresAt && job.revision == access.revision && job.status == Ready(archive) && job.did == access.did
    ensures Downloaded(live + [job], job.twin, job.token, job.id, access, now) == (live + [job], Ok(archive))
  {
    hide Find, Live;
    LastJob(live, job, now);
    AllLive(live, now);
  }

  lemma {:induction false} AllLive(jobs: Jobs, now: nat)
    requires forall job :: job in jobs ==> now < job.expiresAt
    ensures Live(jobs, now) == jobs
  {
    if jobs != [] {
      var n := |jobs| - 1;
      assert jobs == jobs[..n] + [jobs[n]];
      AllLive(jobs[..n], now);
    }
  }

  lemma CreateDone(who: string -> string, s: State, id: nat, twin: string, token: string, ends: nat)
    returns (n: State, job: Job)
    requires id !in s.used && s.now < ends && !Full(Live(s.jobs, s.now), s.running, who(token))
    ensures n == Step(who, s, Create(id, twin, token, Some(ends)))
    ensures job.id == id && job.twin == twin && job.did == who(token) && job.token == token && job.status == Preparing
    ensures job.revision == Revision(s, twin) && s.now < job.expiresAt
    ensures n.jobs == Live(s.jobs, s.now) + [job] && n.running == s.running + 1 && n.handed == s.handed
    ensures id in n.preps && n.preps[id] == Prep(twin, who(token), token, Waiting) && n.now == s.now && n.revisions == s.revisions
  {
    hide Live, Full;
    n := Step(who, s, Create(id, twin, token, Some(ends)));
    job := NewJob(id, twin, token, Access(who(token), Revision(s, twin), ends), s.now);
  }

  lemma PrepareDone(who: string -> string, s: State, id: nat, live: Jobs, job: Job, ends: nat, archive: Archive) returns (m: State, n: State)
    requires s.jobs == live + [job] && job.id == id && s.running > 0 && s.now < job.expiresAt
    requires job.revision == Revision(s, job.twin) && job.status == Preparing && job.did == who(job.token)
    requires id in s.preps && s.preps[id] == Prep(job.twin, job.did, job.token, Waiting)
    requires forall other :: other in live ==> other.id != id
    requires archive == Archive(archive.size, job.twin, job.did, job.revision)
    requires archive.size <= 16 * 1024 * 1024 && Resident(live) + archive.size <= 64 * 1024 * 1024
    ensures m == Step(who, s, PrepRead(id, Some(ends))) && n == Step(who, m, PrepFinish(id, archive.size, Some(ends)))
    ensures n.jobs == live + [job.(status := Ready(archive))]
    ensures n.handed == s.handed && n.now == s.now && n.revisions == s.revisions
  {
    hide Exposed, Resident;
    m := Step(who, s, PrepRead(id, Some(ends)));
    n := Step(who, m, PrepFinish(id, archive.size, Some(ends)));
    OwnExposed(live, job, archive, Access(job.did, job.revision, ends), s.now);
  }

  /** An export with room that nothing disturbs hands out its archive, filtered under the revision in force. */
  lemma ExportCompletes(who: string -> string, actions: seq<Action>, id: nat, twin: string, token: string, ends: nat, size: nat)
    returns (more: seq<Action>)
    requires var s := Run(who, actions); id !in s.used && s.now < ends && Room(s, who(token), size)
    ensures var s, n := Run(who, actions), Run(who, actions + more);
            var revision := Revision(s, twin);
            n.handed == s.handed + [Handed(twin, who(token), Archive(size, twin, who(token), revision), revision)]
  {
    hide Run, Live, Full, OfDidAt, Downloaded, Resident, Counted, Tabled, Smaller;
    var s := Run(who, actions);
    var read := Some(ends);
    var access := Access(who(token), Revision(s, twin), ends);
    var live := Live(s.jobs, s.now);
    EveryRunCapacity(who, actions);
    LiveExactly(s.jobs, s.now);
    TabledUsed(s);
    CreateExactly(s.jobs, s.running, id, twin, token, access, s.now);
    var created, job := CreateDone(who, s, id, twin, token, ends);
    var archive := Archive(size, twin, who(token), access.revision);
    var reading, prepared := PrepareDone(who, created, id, live, job, ends, archive);
    OwnDownloaded(live, job.(status := Ready(archive)), archive, access, s.now);
    more := [Create(id, twin, token, read), PrepRead(id, read), PrepFinish(id, size, read), Download(id, twin, token, read)];
    RunMore(who, actions, more[0]);
    RunMore(who, actions + [more[0]], more[1]);
    RunMore(who, actions + [more[0]] + [more[1]], more[2]);
    RunMore(who, actions + [more[0]] + [more[1]] + [more[2]], more[3]);
    assert actions + more == actions + [more[0]] + [more[1]] + [more[2]] + [more[3]];
  }

  lemma TabledUsed(s: State)
    requires Tabled(s)
    ensures forall job :: job in s.jobs ==> job.id in s.used
  {}

  /** A historical query that nothing disturbs hands out what it collected. */
  lemma QueryCompletes(who: string -> string, actions: seq<Action>, id: nat, twin: string, token: string, ends: nat, size: nat)
    returns (more: seq<Action>)
    requires var s := Run(who, actions); id !in s.used && s.running < 2
    ensures var s, n := Run(who, actions), Run(who, actions + more);
            var revision := Revision(s, twin);
            && n.handed == s.handed + [Handed(twin, who(token), Archive(size, twin, who(token), revision), revision)]
            && n.running == s.running && n.jobs == s.jobs
  {
    hide Run;
    var steps := [QueryStart(id, twin, token, Some(ends)), QueryFinish(id, size, Some(ends))];
    RunMore(who, actions, steps[0]);
    RunMore(who, actions + [steps[0]], steps[1]);
    more := steps;
    assert actions + more == actions + [steps[0]] + [steps[1]];
  }
}
