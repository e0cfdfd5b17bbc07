/** The ingestion worker: a delayed queue, one mutation per job, and what happens to a job whose mutation failed. */
module IngestionQueue {
  import opened Wrappers

  /* The worker's methods run between two awaits; IngestionRuns interleaves them. */

  datatype Job = Job(id: nat, key: string, twin: string, attempts: nat)

  datatype Item = Item(job: Job, availableAt: nat)

  datatype Options = Options(maxAttempts: nat, baseDelay: nat, maxDelay: nat)

  datatype Error = Error(retryable: bool, submissionUnknown: bool)

  datatype Reason = Gave(error: Error) | RetrySafetyUnavailable

  /** Reply of the idempotency lookup; `Absent` when the provider cannot tell, `Throws` when the call fails. */
  datatype Answer = Known(found: bool) | Absent | Throws

  /* ---- Queue ---- */

  /** Position of the first item whose time has come. */
  function FirstReady(items: seq<Item>, now: nat): (r: Option<nat>)
    ensures r.Some? ==> r.value < |items| && items[r.value].availableAt <= now
    ensures r.Some? ==> forall i :: 0 <= i < r.value ==> items[i].availableAt > now
    ensures r.None? ==> forall i :: 0 <= i < |items| ==> items[i].availableAt > now
  {
    if items == [] then None
    else if items[0].availableAt <= now then Some(0)
    else
      var rest := FirstReady(items[1..], now);
      assert forall i :: 1 <= i < |items| ==> items[i] == items[1..][i - 1];
      if rest.None? then None else Some(rest.value + 1)
  }

  function RemoveAt<T>(s: seq<T>, i: nat): seq<T>
    requires i < |s|
  {
    s[..i] + s[i + 1..]
  }

  class MemoryQueue {
    var items: seq<Item>

    constructor ()
      ensures items == []
    {
      items := [];
    }

    method Enqueue(item: Item)
      modifies this
      ensures items == old(items) + [item]
    {
      items := items + [item];
    }

    /** Takes the oldest ready item and leaves the order of the others alone. */
    method Dequeue(now: nat) returns (r: Option<Item>)
      modifies this
      ensures match FirstReady(old(items), now)
              case None => r == None && items == old(items)
              case Some(i) => r == Some(old(items)[i]) && items == RemoveAt(old(items), i)
    {
      var index := 0;
      while index < |items| && items[index].availableAt > now
        invariant index <= |items|
        invariant forall i :: 0 <= i < index ==> items[i].availableAt > now
        invariant items == old(items)
      {
        index := index + 1;
      }
      if index == |items| {
        return None;
      }
      assert FirstReady(items, now) == Some(index);
      r := Some(items[index]);
      items := items[..index] + items[index + 1..];
    }

    method Size() returns (n: nat)
      ensures n == |items|
    {
      n := |items|;
    }
  }

  /* ---- Backoff ---- */

  function Min(a: nat, b: nat): nat {
    if a <= b then a else b
  }

  function Max(a: nat, b: nat): nat {
    if a >= b then a else b
  }

  function Pow2(n: nat): nat {
    if n == 0 then 1 else 2 * Pow2(n - 1)
  }

  /** The delay before attempt `n` runs again, without jitter. */
  function Backoff(options: Options, n: nat): nat
    requires n > 0
  {
    Min(options.maxDelay, options.baseDelay * Pow2(n - 1))
  }

  /** The jitter stays below a fifth of the delay, rounded down, and below one when that is nothing. */
  function Width(exponential: nat): nat {
    Max(1, exponential / 5)
  }

  function Scaled(random: real, width: nat): nat
    requires 0.0 <= random
  {
    (random * width as real).Floor
  }

  /** `random` is the draw from [0, 1). */
  function Jitter(exponential: nat, random: real): nat
    requires 0.0 <= random
  {
    Scaled(random, Width(exponential))
  }

  lemma WidthPositive(exponential: nat)
    ensures Width(exponential) > 0
  {}

  lemma {:induction false} ScaledBelow(r: real, width: nat)
    requires 0.0 <= r < 1.0 && width > 0
    ensures 0.0 <= r * width as real < width as real
    ensures Scaled(r, width) < width
  {}

  /** Without jitter, a later retry never waits less than an earlier one. */
  lemma {:induction false} BackoffGrows(options: Options, n: nat, m: nat)
    requires 0 < n <= m
    ensures Backoff(options, n) <= Backoff(options, m)
  {
    if n < m {
      BackoffGrows(options, n, m - 1);
      PowerDoubles(options.baseDelay, m - 1);
    }
  }

  lemma PowerDoubles(base: nat, n: nat)
    requires n > 0
    ensures base * Pow2(n - 1) <= base * Pow2(n)
  {}

  /** The first retry waits the base delay and each further one twice as long as the one before, all of them capped. */
  lemma BackoffDoubles(options: Options, n: nat)
    requires n > 0
    ensures Backoff(options, 1) == if options.baseDelay < options.maxDelay then options.baseDelay else options.maxDelay
    ensures Backoff(options, n + 1) == if 2 * Backoff(options, n) < options.maxDelay then 2 * Backoff(options, n) else options.maxDelay
  {
    assert Pow2(0) == 1 && Pow2(n) == 2 * Pow2(n - 1);
    assert options.baseDelay * Pow2(n) == 2 * (options.baseDelay * Pow2(n - 1));
  }

  /** The jitters that draws from [0, 1) lead to: none at all, and every number of milliseconds below a fifth of the delay. */
  lemma JitterExactly(exponential: nat, jitter: nat)
    ensures (exists random :: 0.0 <= random < 1.0 && Jitter(exponential, random) == jitter) <==> jitter == 0 || 5 * (jitter + 1) <= exponential
  {
    var width := Width(exponential);
    WidthPositive(exponential);
    assert jitter < width <==> jitter == 0 || 5 * (jitter + 1) <= exponential;
    if jitter < width {
      var random := jitter as real / width as real;
      assert random * width as real == jitter as real;
      assert 0.0 <= random < 1.0 && Jitter(exponential, random) == jitter;
    }
    if random :| 0.0 <= random < 1.0 && Jitter(exponential, random) == jitter {
      ScaledBelow(random, width);
    }
  }

  /* ---- What happens to a job whose mutation failed ---- */

  datatype Verdict = Fail(reason: Reason) | Ask | Retry | Forget | Drop

  /** Before the lookup. */
  function Judge(job: Job, error: Error, options: Options): Verdict {
    if !error.retryable || job.attempts + 1 >= options.maxAttempts then Fail(Gave(error))
    else if error.submissionUnknown then Ask
    else Retry
  }

  /** After the lookup. A lookup that throws escapes from the handler, and the job with it. */
  function JudgeAnswer(answer: Answer): Verdict {
    match answer
    case Throws => Drop
    case Known(found) => if found then Forget else Retry
    case Absent => Fail(RetrySafetyUnavailable)
  }

  /** The item a retried job comes back as. */
  function Requeued(job: Job, options: Options, now: nat, random: real): Item
    requires 0.0 <= random
  {
    var exponential := Backoff(options, job.attempts + 1);
    Item(job.(attempts := job.attempts + 1), now + exponential + Jitter(exponential, random))
  }

  predicate WaitsInWindow(item: Item, options: Options, now: nat)
    requires item.job.attempts > 0
  {
    var exponential := Backoff(options, item.job.attempts);
    now + exponential <= item.availableAt < now + exponential + Width(exponential)
  }

  /** Each retry waits at least the capped exponential delay and less than its jitter on top. */
  lemma RetryDelay(job: Job, options: Options, now: nat, random: real)
    requires 0.0 <= random < 1.0
    ensures WaitsInWindow(Requeued(job, options, now, random), options, now)
  {
    hide Backoff, Width, Scaled;
    WidthPositive(Backoff(options, job.attempts + 1));
    ScaledBelow(random, Width(Backoff(options, job.attempts + 1)));
  }

  class IngestionWorker {
    const queue: MemoryQueue
    const options: Options
    var failedJobs: seq<(Job, Reason)>
    var processing: bool

    constructor (queue: MemoryQueue, options: Options)
      ensures this.queue == queue && this.options == options
      ensures failedJobs == [] && !processing
    {
      this.queue := queue;
      this.options := options;
      failedJobs := [];
      processing := false;
    }

    /** The part of processNext before its first await. */
    method Take(now: nat) returns (item: Option<Item>)
      modifies queue
      ensures processing ==> item == None && queue.items == old(queue.items)
      ensures !processing ==>
                match FirstReady(old(queue.items), now)
                case None => item == None && queue.items == old(queue.items)
                case Some(i) => item == Some(old(queue.items)[i]) && queue.items == RemoveAt(old(queue.items), i)
    {
      if processing {
        return None;
      }
      item := queue.Dequeue(now);
    }

    method Fail(job: Job, reason: Reason)
      modifies this
      ensures failedJobs == old(failedJobs) + [(job, reason)] && processing == old(processing)
    {
      failedJobs := failedJobs + [(job, reason)];
    }

    /**
     The failure handler with the lookup's answer, which it asks for only when the verdict is Ask. `escaped` says that
     the handler itself threw.
     */
    method HandleFailure(item: Item, error: Error, answer: Answer, now: nat, random: real) returns (escaped: bool)
      requires 0.0 <= random < 1.0
      modifies this, queue
      ensures processing == old(processing)
      ensures var first := Judge(item.job, error, options);
              var verdict := if first == Ask then JudgeAnswer(answer) else first;
              && escaped == verdict.Drop?
              && failedJobs == old(failedJobs) + (if verdict.Fail? then [(item.job, verdict.reason)] else [])
              && queue.items == old(queue.items) + (if verdict.Retry? then [Requeued(item.job, options, now, random)] else [])
    {
      var job := item.job;
      var nextAttempt := job.attempts + 1;
      escaped := false;
      if !error.retryable || nextAttempt >= options.maxAttempts {
        Fail(job, Gave(error));
        return;
      }
      if error.submissionUnknown {
        match answer {
          case Throws => return true;
          case Known(found) =>
            if found {
              return;
            }
          case Absent =>
            Fail(job, RetrySafetyUnavailable);
            return;
        }
      }
      var retry := job.(attempts := nextAttempt);
      var exponential := Min(options.maxDelay, options.baseDelay * Pow2(nextAttempt - 1));
      var jitter := Jitter(exponential, random);
      queue.Enqueue(Item(retry, now + exponential + jitter));
    }
  }
}
