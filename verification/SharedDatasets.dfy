/**
 Export jobs of shared datasets: the job table with its capacity limits, and the code that runs between two awaits of
 the create, prepare, download and history calls. DatasetRuns interleaves those calls.
 */
module SharedDatasets {
  import opened Wrappers

  const TTL: nat := 600_000
  const MAX_ARCHIVE: nat := 16 * 1024 * 1024
  const MAX_RESIDENT: nat := 64 * 1024 * 1024
  const MAX_JOBS: nat := 32
  const MAX_CONCURRENT: nat := 2
  const MAX_PER_DID: nat := 4

  /**
   A prepared archive, and for whom and under which policy revision its samples were filtered. A revision is numbered
   by its place in the history of the Twin's policy, which is what never recurring means.
   */
  datatype Archive = Archive(size: nat, twin: string, did: string, filteredAt: nat)

  datatype Status = Preparing | Ready(archive: Archive) | Failed

  datatype Job = Job(id: nat, twin: string, did: string, token: string, revision: nat, expiresAt: nat, status: Status)

  /** What reading the policy with a session token gives; None is a denied or expired session. */
  datatype Access = Access(did: string, revision: nat, expiresAt: nat)

  datatype DatasetError = Busy | NotFound | Revoked | Expired | NotReady | Capacity | OutputLimit

  /* ---- The job table, in order of insertion ---- */

  type Jobs = seq<Job>

  function Find(jobs: Jobs, id: nat): Option<Job> {
    if jobs == [] then None
    else if jobs[|jobs| - 1].id == id then Some(jobs[|jobs| - 1])
    else Find(jobs[..|jobs| - 1], id)
  }

  function Without(jobs: Jobs, id: nat): Jobs {
    if jobs == [] then []
    else Without(jobs[..|jobs| - 1], id) + if jobs[|jobs| - 1].id == id then [] else [jobs[|jobs| - 1]]
  }

  /** The jobs that have not expired. */
  function Live(jobs: Jobs, now: nat): Jobs {
    if jobs == [] then []
    else Live(jobs[..|jobs| - 1], now) + if jobs[|jobs| - 1].expiresAt <= now then [] else [jobs[|jobs| - 1]]
  }

  function WithStatus(jobs: Jobs, id: nat, status: Status): Jobs {
    if jobs == [] then []
    else
      var last := jobs[|jobs| - 1];
      WithStatus(jobs[..|jobs| - 1], id, status) + [if last.id == id then last.(status := status) else last]
  }

  function OfDid(jobs: Jobs, did: string): nat {
    if jobs == [] then 0 else OfDid(jobs[..|jobs| - 1], did) + if jobs[|jobs| - 1].did == did then 1 else 0
  }

  function Bytes(job: Job): nat {
    if job.status.Ready? then job.status.archive.size else 0
  }

  function Resident(jobs: Jobs): nat {
    if jobs == [] then 0 else Resident(jobs[..|jobs| - 1]) + Bytes(jobs[|jobs| - 1])
  }

  function Min(a: nat, b: nat): nat {
    if a <= b then a else b
  }

  /* ---- Segments between awaits ---- */

  function NewJob(id: nat, twin: string, token: string, access: Access, now: nat): Job {
    Job(id, twin, access.did, token, access.revision, Min(now + TTL, access.expiresAt), Preparing)
  }

  predicate Full(jobs: Jobs, running: nat, did: string) {
    running >= MAX_CONCURRENT || |jobs| >= MAX_JOBS || OfDid(jobs, did) >= MAX_PER_DID
  }

  predicate Mine(job: Job, twin: string, token: string, access: Access) {
    job.twin == twin && job.did == access.did && job.token == token
  }

  /** The end of a preparation: the archive is exposed only to a live job of the same revision, and within capacity. */
  function Exposed(jobs: Jobs, id: nat, archive: Archive, access: Option<Access>, now: nat): Result<Jobs, DatasetError> {
    var job := Find(jobs, id);
    if access.None? then Err(NotFound)
    else if job.None? || job.value.expiresAt <= now then Err(Expired)
    else if access.value.revision != job.value.revision then Err(Revoked)
    else if Resident(jobs) + archive.size > MAX_RESIDENT then Err(Capacity)
    else Ok(WithStatus(jobs, id, Ready(archive)))
  }

  /** What a download leaves of the table, and what it hands out. */
  function Downloaded(jobs: Jobs, twin: string, token: string, id: nat, access: Access, now: nat): (Jobs, Result<Archive, DatasetError>) {
    var live := Live(jobs, now);
    var job := Find(live, id);
    if job.None? || !Mine(job.value, twin, token, access) then (live, Err(NotFound))
    else if job.value.revision != access.revision then (Without(live, id), Err(Revoked))
    else if !job.value.status.Ready? then (live, Err(NotReady))
    else (live, Ok(job.value.status.archive))
  }

  /** The service's memory. */
  class DatasetTable {
    var jobs: Jobs
    var running: nat

    constructor ()
      ensures jobs == [] && running == 0
    {
      jobs, running := [], 0;
    }

    method Prune(now: nat)
      modifies this
      ensures jobs == Live(old(jobs), now) && running == old(running)
    {
      var kept: Jobs := [];
      for i := 0 to |jobs|
        invariant jobs == old(jobs) && running == old(running)
        invariant kept == Live(jobs[..i], now)
      {
        assert jobs[..i + 1][..i] == jobs[..i];
        if jobs[i].expiresAt > now {
          kept := kept + [jobs[i]];
        }
      }
      assert jobs[..|jobs|] == jobs;
      jobs := kept;
    }

    method CountOf(did: string) returns (n: nat)
      ensures n == OfDid(jobs, did)
    {
      n := 0;
      for i := 0 to |jobs|
        invariant n == OfDid(jobs[..i], did)
      {
        assert jobs[..i + 1][..i] == jobs[..i];
        if jobs[i].did == did {
          n := n + 1;
        }
      }
      assert jobs[..|jobs|] == jobs;
    }

    method ResidentBytes() returns (n: nat)
      ensures n == Resident(jobs)
    {
      n := 0;
      for i := 0 to |jobs|
        invariant n == Resident(jobs[..i])
      {
        assert jobs[..i + 1][..i] == jobs[..i];
        n := n + Bytes(jobs[i]);
      }
      assert jobs[..|jobs|] == jobs;
    }

    method Create(id: nat, twin: string, token: string, access: Access, now: nat) returns (r: Result<Job, DatasetError>)
      modifies this
      ensures var live := Live(old(jobs), now);
              if Full(live, old(running), access.did) then r == Err(Busy) && jobs == live && running == old(running)
              else r == Ok(NewJob(id, twin, token, access, now)) && jobs == live + [r.value] && running == old(running) + 1
    {
      Prune(now);
      var mine := CountOf(access.did);
      if running >= MAX_CONCURRENT || |jobs| >= MAX_JOBS || mine >= MAX_PER_DID {
        return Err(Busy);
      }
      var job := NewJob(id, twin, token, access, now);
      jobs := jobs + [job];
      running := running + 1;
      r := Ok(job);
    }

    /** Returns whether the archive was exposed; the preparation ends either way, and a failure marks a job that is still there. */
    method FinishPreparation(id: nat, archive: Archive, access: Option<Access>, now: nat) returns (r: Result<Jobs, DatasetError>)
      requires running > 0
      modifies this
      ensures r == Exposed(old(jobs), id, archive, access, now)
      ensures jobs == if r.Ok? then r.value else WithStatus(old(jobs), id, Failed)
      ensures running == old(running) - 1
    {
      running := running - 1;
      var job := Find(jobs, id);
      if access.None? {
        jobs := WithStatus(jobs, id, Failed);
        return Err(NotFound);
      }
      if job.None? || job.value.expiresAt <= now {
        jobs := WithStatus(jobs, id, Failed);
        return Err(Expired);
      }
      if access.value.revision != job.value.revision {
        jobs := WithStatus(jobs, id, Failed);
        return Err(Revoked);
      }
      var resident := ResidentBytes();
      if resident + archive.size > MAX_RESIDENT {
        jobs := WithStatus(jobs, id, Failed);
        return Err(Capacity);
      }
      jobs := WithStatus(jobs, id, Ready(archive));
      r := Ok(jobs);
    }

    method Download(twin: string, token: string, id: nat, access: Access, now: nat) returns (r: Result<Archive, DatasetError>)
      modifies this
      ensures (jobs, r) == Downloaded(old(jobs), twin, token, id, access, now) && running == old(running)
    {
      Prune(now);
      var job := Find(jobs, id);
      if job.None? || !Mine(job.value, twin, token, access) {
        return Err(NotFound);
      }
      if job.value.revision != access.revision {
        jobs := Without(jobs, id);
        return Err(Revoked);
      }
      if !job.value.status.Ready? {
        return Err(NotReady);
      }
      r := Ok(job.value.status.archive);
    }
  }
}
