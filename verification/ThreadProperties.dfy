/**
 What a verification report means.

 Paging does not matter: a report follows from the events alone. A thread is valid exactly under a condition on its
 events. What the report lists is exactly what is wrong, the repeated and the missing revisions included, and its digest
 binds every field that the evidence is about. The one-shot form agrees with the incremental one.
 */
module ThreadProperties {
  import opened Wrappers
  import opened ThreadVerifier
  import opened ThreadChecks

  /* ---- Paging does not matter ---- */

  function Flatten(pages: seq<seq<TwinEvent>>): seq<TwinEvent> {
    if pages == [] then [] else Flatten(pages[..|pages| - 1]) + pages[|pages| - 1]
  }

  /** The verifier after appending the pages in order. */
  function FeedPages(ctx: Context, range: Range, p: Progress, pages: seq<seq<TwinEvent>>): Progress {
    if pages == [] then p
    else AbsorbAll(ctx, range, CountPage(FeedPages(ctx, range, p, pages[..|pages| - 1])), pages[|pages| - 1])
  }

  function WithPages(p: Progress, n: nat): Progress {
    p.(tally := p.tally.(pages := n))
  }

  lemma {:induction false} AbsorbConcat(ctx: Context, range: Range, p: Progress, a: seq<TwinEvent>, b: seq<TwinEvent>)
    ensures AbsorbAll(ctx, range, p, a + b) == AbsorbAll(ctx, range, AbsorbAll(ctx, range, p, a), b)
  {
    hide Absorb;
    if b == [] {
      assert a + b == a;
    } else {
      AbsorbConcat(ctx, range, p, a, b[..|b| - 1]);
      assert (a + b)[..|a + b| - 1] == a + b[..|b| - 1];
    }
  }

  lemma StepIgnoresPages(ctx: Context, range: Range, p: Progress, n: nat, e: TwinEvent)
    ensures Absorb(ctx, range, WithPages(p, n), e) == WithPages(Absorb(ctx, range, p, e), n)
    ensures Absorb(ctx, range, p, e).tally.pages == p.tally.pages
  {
    hide EventErrors, HashErrors, Compare, Upto;
  }

  lemma {:induction false} AbsorbIgnoresPages(ctx: Context, range: Range, p: Progress, n: nat, events: seq<TwinEvent>)
    ensures AbsorbAll(ctx, range, WithPages(p, n), events) == WithPages(AbsorbAll(ctx, range, p, events), n)
    ensures AbsorbAll(ctx, range, p, events).tally.pages == p.tally.pages
  {
    hide Absorb, WithPages;
    if events != [] {
      var front := events[..|events| - 1];
      AbsorbIgnoresPages(ctx, range, p, n, front);
      StepIgnoresPages(ctx, range, AbsorbAll(ctx, range, p, front), n, events[|events| - 1]);
    }
  }

  /** Feeding pages is absorbing their concatenation, plus a page count. */
  lemma {:induction false} FeedIsAbsorb(ctx: Context, range: Range, p: Progress, pages: seq<seq<TwinEvent>>)
    ensures FeedPages(ctx, range, p, pages) == WithPages(AbsorbAll(ctx, range, p, Flatten(pages)), p.tally.pages + |pages|)
  {
    hide Absorb;
    if pages != [] {
      var front, last := pages[..|pages| - 1], pages[|pages| - 1];
      FeedIsAbsorb(ctx, range, p, front);
      var mid := AbsorbAll(ctx, range, p, Flatten(front));
      AbsorbConcat(ctx, range, p, Flatten(front), last);
      AbsorbIgnoresPages(ctx, range, mid, p.tally.pages + |pages|, last);
      AbsorbIgnoresPages(ctx, range, p, 0, Flatten(front));
    }
  }

  function SansPages(r: Report): Report {
    r.(tally := r.tally.(pages := 0))
  }

  lemma FinishIgnoresPages(range: Range, p: Progress, n: nat, complete: bool)
    ensures SansPages(Finish(range, WithPages(p, n), complete)) == SansPages(Finish(range, p, complete))
    ensures Finish(range, WithPages(p, n), complete).tally.pages == n
  {}

  /** Two ways of cutting the same thread into pages give reports that differ in the page count only. */
  lemma ReportIgnoresPaging(ctx: Context, range: Range, a: seq<seq<TwinEvent>>, b: seq<seq<TwinEvent>>, complete: bool)
    requires Flatten(a) == Flatten(b)
    ensures var ra, rb := Finish(range, FeedPages(ctx, range, START, a), complete),
                          Finish(range, FeedPages(ctx, range, START, b), complete);
            SansPages(ra) == SansPages(rb) && ra.tally.pages == |a| && rb.tally.pages == |b|
  {
    hide Finish, SansPages, WithPages, AbsorbAll;
    FeedIsAbsorb(ctx, range, START, a);
    FeedIsAbsorb(ctx, range, START, b);
    var p := AbsorbAll(ctx, range, START, Flatten(a));
    FinishIgnoresPages(range, p, |a|, complete);
    FinishIgnoresPages(range, p, |b|, complete);
  }

  /* ---- Validity ---- */

  /** The checks that look at one event alone. */
  predicate PassesChecks(ctx: Context, e: TwinEvent) {
    EventErrors(ctx, None, e) == [] && HashErrors([], e) == [] && Lookup(ctx, e) != Some(false)
  }

  /** Event j moves the Twin from revision base + j to base + j + 1. */
  predicate Chain(base: int, events: seq<TwinEvent>) {
    forall j :: 0 <= j < |events| ==> events[j].revisionBefore == base + j && events[j].revisionAfter == base + j + 1
  }

  predicate Clean(t: Tally) {
    && t.missing == [] && t.duplicates == [] && t.gaps == []
    && t.invalid == [] && t.hashErrors == [] && t.transactionErrors == []
  }

  function LastRevision(events: seq<TwinEvent>): int {
    if events == [] then 0 else events[|events| - 1].revisionAfter
  }

  lemma TransitionChecked(ctx: Context, e: TwinEvent)
    requires EventErrors(ctx, None, e) == []
    ensures e.revisionAfter == e.revisionBefore + 1
  {
  }

  /** One step keeps the tally clean exactly when the event follows on and passes every check. */
  lemma CleanStep(ctx: Context, range: Range, p: Progress, e: TwinEvent)
    ensures Clean(Absorb(ctx, range, p, e).tally) <==>
            && Clean(p.tally) && PassesChecks(ctx, e)
            && e.revisionBefore == Expected(range, p) && e.revisionAfter !in p.seen
            && (p.previous.Some? ==> Compare(ctx.collation, p.previous.value, e) <= 0)
  {}

  lemma StepShape(ctx: Context, range: Range, p: Progress, e: TwinEvent)
    ensures var q := Absorb(ctx, range, p, e);
            && q.seen == p.seen + {e.revisionAfter} && q.previous == Some(e)
            && q.tally.last == e.revisionAfter && q.tally.count == p.tally.count + 1
            && q.digest == p.digest + [Canonical(e)]
            && q.tally.verified + q.tally.failed + q.tally.notVerified
               == p.tally.verified + p.tally.failed + p.tally.notVerified + 1
  {}

  function Revisions(events: seq<TwinEvent>): set<int> {
    set e | e in events :: e.revisionAfter
  }

  function Evidences(events: seq<TwinEvent>): seq<Evidence> {
    seq(|events|, i requires 0 <= i < |events| => Canonical(events[i]))
  }

  lemma {:induction false} AbsorbedShape(ctx: Context, range: Range, events: seq<TwinEvent>)
    ensures var p := AbsorbAll(ctx, range, START, events);
            && p.seen == Revisions(events)
            && p.previous == (if events == [] then None else Some(events[|events| - 1]))
            && p.tally.last == LastRevision(events) && p.tally.count == |events|
            && p.digest == Evidences(events)
            && p.tally.verified + p.tally.failed + p.tally.notVerified == |events|
  {
    hide Absorb, Canonical;
    if events != [] {
      var front, e := events[..|events| - 1], events[|events| - 1];
      AbsorbedShape(ctx, range, front);
      StepShape(ctx, range, AbsorbAll(ctx, range, START, front), e);
      assert events == front + [e];
      assert Revisions(events) == Revisions(front) + {e.revisionAfter};
      assert Evidences(events) == Evidences(front) + [Canonical(e)];
    }
  }

  lemma {:induction false} CleanIffChain(ctx: Context, range: Range, events: seq<TwinEvent>)
    ensures Clean(AbsorbAll(ctx, range, START, events).tally) <==>
            Chain(Base(range), events) && AllPass(ctx, events)
  {
    hide Absorb, Clean, Chain, AllPass, PassesChecks, Compare, Expected;
    if events == [] {
      NothingIsClean(ctx, range);
    } else {
      var front, e := events[..|events| - 1], events[|events| - 1];
      assert events == front + [e];
      CleanIffChain(ctx, range, front);
      CleanStep(ctx, range, AbsorbAll(ctx, range, START, front), e);
      ChainPrefix(Base(range), front, e);
      AllPassStep(ctx, front, e);
      if Chain(Base(range), front) {
        ChainStep(ctx, range, front, e);
      }
    }
  }

  lemma NothingIsClean(ctx: Context, range: Range)
    ensures Clean(AbsorbAll(ctx, range, START, []).tally) && Chain(Base(range), []) && AllPass(ctx, [])
  {}

  predicate AllPass(ctx: Context, events: seq<TwinEvent>) {
    forall e :: e in events ==> PassesChecks(ctx, e)
  }

  lemma AllPassStep(ctx: Context, front: seq<TwinEvent>, e: TwinEvent)
    ensures AllPass(ctx, front + [e]) <==> AllPass(ctx, front) && PassesChecks(ctx, e)
  {}

  lemma ChainPrefix(base: int, front: seq<TwinEvent>, e: TwinEvent)
    ensures Chain(base, front + [e]) <==>
            && Chain(base, front) && e.revisionBefore == base + |front| && e.revisionAfter == base + |front| + 1
  {
    var events := front + [e];
    assert forall j :: 0 <= j < |front| ==> events[j] == front[j];
    assert events[|front|] == e;
  }

  /** In an unbroken chain the next event is expected at its length, cannot repeat a revision and cannot be out of order. */
  lemma ChainStep(ctx: Context, range: Range, front: seq<TwinEvent>, e: TwinEvent)
    requires Chain(Base(range), front)
    ensures var p := AbsorbAll(ctx, range, START, front);
            && Expected(range, p) == Base(range) + |front|
            && (e.revisionAfter == Base(range) + |front| + 1 ==>
                  e.revisionAfter !in p.seen && (p.previous.Some? ==> Compare(ctx.collation, p.previous.value, e) <= 0))
    ensures PassesChecks(ctx, e) ==> e.revisionAfter == e.revisionBefore + 1
  {
    AbsorbedShape(ctx, range, front);
    if PassesChecks(ctx, e) {
      TransitionChecked(ctx, e);
    }
    hide AbsorbAll, PassesChecks;
    if front != [] {
      assert front[|front| - 1].revisionAfter == Base(range) + |front|;
    }
  }

  lemma {:induction false} DedupeMembers(s: seq<int>)
    ensures forall x :: x in Dedupe(s) <==> x in s
    ensures forall i, j :: 0 <= i < j < |Dedupe(s)| ==> Dedupe(s)[i] != Dedupe(s)[j]
  {
    if s != [] {
      DedupeMembers(s[..|s| - 1]);
      assert s == s[..|s| - 1] + [s[|s| - 1]];
    }
  }

  lemma {:induction false} UptoMembers(start: int, end: int)
    ensures forall x :: x in Upto(start, end) <==> start <= x < end
    decreases end - start
  {
    if start < end {
      UptoMembers(start + 1, end);
    }
  }

  lemma DedupeEmpty(s: seq<int>)
    ensures Dedupe(s) == [] <==> s == []
  {}

  lemma FinishValid(range: Range, p: Progress)
    ensures Finish(range, p, true).valid == Some(true) <==>
            Clean(p.tally) && (range.to.Some? ==> p.tally.last >= range.to.value)
  {}

  /**
   A complete verification is valid exactly when the events form an unbroken chain from the base revision, each is
   acceptable on its own and the last revision reaches the requested end.
   */
  lemma ValidIffChain(ctx: Context, range: Range, events: seq<TwinEvent>)
    ensures Finish(range, AbsorbAll(ctx, range, START, events), true).valid == Some(true) <==>
            && Chain(Base(range), events)
            && (forall e :: e in events ==> Acceptable(ctx, e))
            && (range.to.Some? ==> LastRevision(events) >= range.to.value)
  {
    hide Finish, AbsorbAll, Clean, Chain, Acceptable, EventErrors, HashErrors;
    FinishValid(range, AbsorbAll(ctx, range, START, events));
    CleanIffChain(ctx, range, events);
    AbsorbedShape(ctx, range, events);
    forall e | e in events
      ensures PassesChecks(ctx, e) <==> Acceptable(ctx, e)
    {
      AcceptableExactly(ctx, e);
    }
  }

  /** Asking for revisions from 0 expects the thread to start before revision 0, so every real thread is refused. */
  lemma FromZeroRefuses(ctx: Context, to: Option<int>, events: seq<TwinEvent>)
    requires events != [] && events[0].revisionBefore >= 0
    ensures Finish(Range(Some(0), to), AbsorbAll(ctx, Range(Some(0), to), START, events), true).valid == Some(false)
  {
    ValidIffChain(ctx, Range(Some(0), to), events);
  }

  /* ---- Every finding of the report ---- */

  function PreviousOf(events: seq<TwinEvent>, k: nat): Option<TwinEvent>
    requires k < |events|
  {
    if k == 0 then None else Some(events[k - 1])
  }

  function ExpectedAt(range: Range, events: seq<TwinEvent>, k: nat): int
    requires k < |events|
  {
    if k == 0 then Base(range) else events[k - 1].revisionAfter
  }

  ghost predicate WrongAt(ctx: Context, events: seq<TwinEvent>, id: string, error: EventError, k: int) {
    0 <= k < |events| && events[k].eventId == id && Wrong(ctx, PreviousOf(events, k), events[k], error)
  }

  ghost predicate WrongHashAt(events: seq<TwinEvent>, x: (string, HashError), k: int) {
    0 <= k < |events| && events[k].eventId == x.0 && WrongHash(events[k], x.1)
  }

  ghost predicate AbsentAt(ctx: Context, events: seq<TwinEvent>, x: (string, string), k: int) {
    && 0 <= k < |events| && events[k].eventId == x.0 && events[k].transactionDigest == x.1
    && x.1 != "" && ctx.present(x.1) == Some(false)
  }

  ghost predicate GapAt(range: Range, events: seq<TwinEvent>, x: (int, int), k: int) {
    0 <= k < |events| && ExpectedAt(range, events, k) == x.0 && events[k].revisionBefore == x.1 && x.0 != x.1
  }

  ghost predicate Blamed(invalid: seq<(string, seq<EventError>)>, id: string, error: EventError) {
    exists x :: x in invalid && x.0 == id && error in x.1
  }

  lemma StepFinds(ctx: Context, range: Range, p: Progress, e: TwinEvent)
    ensures var q := Absorb(ctx, range, p, e).tally;
            var errors := EventErrors(ctx, p.previous, e);
            && q.invalid == Push(p.tally.invalid, errors != [], (e.eventId, errors))
            && q.hashErrors == HashErrors(p.tally.hashErrors, e)
            && q.transactionErrors == Push(p.tally.transactionErrors, Lookup(ctx, e) == Some(false), (e.eventId, e.transactionDigest))
            && q.gaps == Push(p.tally.gaps, e.revisionBefore != Expected(range, p), (Expected(range, p), e.revisionBefore))
  {
    hide EventErrors, HashErrors, Upto, Compare;
  }

  lemma BlamedStep(ctx: Context, previous: Option<TwinEvent>, invalid: seq<(string, seq<EventError>)>, e: TwinEvent, id: string, error: EventError)
    ensures var errors := EventErrors(ctx, previous, e);
            Blamed(Push(invalid, errors != [], (e.eventId, errors)), id, error)
            <==> Blamed(invalid, id, error) || (e.eventId == id && Wrong(ctx, previous, e, error))
  {
    hide EventErrors, Wrong;
    EventErrorsExactly(ctx, previous, e, error);
    var errors := EventErrors(ctx, previous, e);
    var next := Push(invalid, errors != [], (e.eventId, errors));
    assert forall x :: x in invalid ==> x in next;
    if e.eventId == id && error in errors {
      assert (e.eventId, errors) in next;
    }
  }

  lemma {:induction false} InvalidExact(ctx: Context, range: Range, events: seq<TwinEvent>, id: string, error: EventError)
    ensures Blamed(AbsorbAll(ctx, range, START, events).tally.invalid, id, error) <==> exists k :: WrongAt(ctx, events, id, error, k)
  {
    hide Absorb, EventErrors, HashErrors, Wrong, WrongHash, Blamed;
    if events == [] {
      NothingFound(ctx, range);
    } else {
      var n := |events| - 1;
      var front, e := events[..n], events[n];
      assert events == front + [e];
      var p := AbsorbAll(ctx, range, START, front);
      StepFinds(ctx, range, p, e);
      InvalidExact(ctx, range, front, id, error);
      AbsorbedShape(ctx, range, front);
      BlamedStep(ctx, p.previous, p.tally.invalid, e, id, error);
      LastWrong(ctx, front, e, id, error);
    }
  }

  lemma {:induction false} HashErrorsExact(ctx: Context, range: Range, events: seq<TwinEvent>, x: (string, HashError))
    ensures x in AbsorbAll(ctx, range, START, events).tally.hashErrors <==> exists k :: WrongHashAt(events, x, k)
  {
    hide Absorb, EventErrors, HashErrors, Wrong, WrongHash, Blamed;
    if events == [] {
      NothingFound(ctx, range);
    } else {
      var n := |events| - 1;
      var front, e := events[..n], events[n];
      assert events == front + [e];
      var p := AbsorbAll(ctx, range, START, front);
      StepFinds(ctx, range, p, e);
      HashErrorsExact(ctx, range, front, x);
      HashErrorsExactly(p.tally.hashErrors, e, x);
      LastWrongHash(front, e, x);
    }
  }

  lemma {:induction false} AbsentExact(ctx: Context, range: Range, events: seq<TwinEvent>, x: (string, string))
    ensures x in AbsorbAll(ctx, range, START, events).tally.transactionErrors <==> exists k :: AbsentAt(ctx, events, x, k)
  {
    hide Absorb, EventErrors, HashErrors, Wrong, WrongHash, Blamed;
    if events == [] {
      NothingFound(ctx, range);
    } else {
      var n := |events| - 1;
      var front, e := events[..n], events[n];
      assert events == front + [e];
      var p := AbsorbAll(ctx, range, START, front);
      StepFinds(ctx, range, p, e);
      AbsentExact(ctx, range, front, x);
      LastAbsent(ctx, front, e, x);
    }
  }

  lemma {:induction false} GapsExact(ctx: Context, range: Range, events: seq<TwinEvent>, x: (int, int))
    ensures x in AbsorbAll(ctx, range, START, events).tally.gaps <==> exists k :: GapAt(range, events, x, k)
  {
    hide Absorb, EventErrors, HashErrors, Wrong, WrongHash, Blamed;
    if events == [] {
      NothingFound(ctx, range);
    } else {
      var n := |events| - 1;
      var front, e := events[..n], events[n];
      assert events == front + [e];
      var p := AbsorbAll(ctx, range, START, front);
      StepFinds(ctx, range, p, e);
      GapsExact(ctx, range, front, x);
      AbsorbedShape(ctx, range, front);
      assert Expected(range, p) == ExpectedAt(range, events, n);
      LastGap(range, front, e, x);
    }
  }

  /**
   The report lists exactly what is wrong: each event error, each hash error and each absent transaction under the id of
   an event that has it, and each gap with the revision expected and the one found.
   */
  lemma FindingsExact(ctx: Context, range: Range, events: seq<TwinEvent>, complete: bool)
    ensures var t := Finish(range, AbsorbAll(ctx, range, START, events), complete).tally;
            && (forall id, error :: Blamed(t.invalid, id, error) <==> exists k :: WrongAt(ctx, events, id, error, k))
            && (forall x :: x in t.hashErrors <==> exists k :: WrongHashAt(events, x, k))
            && (forall x :: x in t.transactionErrors <==> exists k :: AbsentAt(ctx, events, x, k))
            && (forall x :: x in t.gaps <==> exists k :: GapAt(range, events, x, k))
  {
    FinishKeeps(range, AbsorbAll(ctx, range, START, events), complete);
    hide AbsorbAll, Finish, Blamed, WrongAt, WrongHashAt, AbsentAt, GapAt;
    var t := AbsorbAll(ctx, range, START, events).tally;
    forall id, error ensures Blamed(t.invalid, id, error) <==> exists k :: WrongAt(ctx, events, id, error, k) {
      InvalidExact(ctx, range, events, id, error);
    }
    forall x ensures x in t.hashErrors <==> exists k :: WrongHashAt(events, x, k) {
      HashErrorsExact(ctx, range, events, x);
    }
    forall x ensures x in t.transactionErrors <==> exists k :: AbsentAt(ctx, events, x, k) {
      AbsentExact(ctx, range, events, x);
    }
    forall x ensures x in t.gaps <==> exists k :: GapAt(range, events, x, k) {
      GapsExact(ctx, range, events, x);
    }
  }

  lemma FinishKeeps(range: Range, p: Progress, complete: bool)
    ensures var t := Finish(range, p, complete).tally;
            && t.invalid == p.tally.invalid && t.hashErrors == p.tally.hashErrors
            && t.transactionErrors == p.tally.transactionErrors && t.gaps == p.tally.gaps
  {}

  lemma NothingFound(ctx: Context, range: Range)
    ensures var t := AbsorbAll(ctx, range, START, []).tally;
            t.invalid == [] && t.hashErrors == [] && t.transactionErrors == [] && t.gaps == []
    ensures forall id, error :: !Blamed([], id, error)
  {}

  lemma LastWrong(ctx: Context, front: seq<TwinEvent>, e: TwinEvent, id: string, error: EventError)
    ensures var events := front + [e];
            (exists k :: WrongAt(ctx, events, id, error, k)) <==>
            (exists k :: WrongAt(ctx, front, id, error, k)) || (e.eventId == id && Wrong(ctx, PreviousOf(events, |front|), e, error))
  {
    hide Wrong;
    var events := front + [e];
    forall k | 0 <= k < |front| ensures WrongAt(ctx, events, id, error, k) <==> WrongAt(ctx, front, id, error, k) {
      assert PreviousOf(events, k) == PreviousOf(front, k);
    }
    assert WrongAt(ctx, events, id, error, |front|) <==> e.eventId == id && Wrong(ctx, PreviousOf(events, |front|), e, error);
  }

  lemma LastWrongHash(front: seq<TwinEvent>, e: TwinEvent, x: (string, HashError))
    ensures (exists k :: WrongHashAt(front + [e], x, k)) <==>
            (exists k :: WrongHashAt(front, x, k)) || (e.eventId == x.0 && WrongHash(e, x.1))
  {
    hide WrongHash;
    forall k | 0 <= k < |front| ensures WrongHashAt(front + [e], x, k) <==> WrongHashAt(front, x, k) {}
    assert WrongHashAt(front + [e], x, |front|) <==> e.eventId == x.0 && WrongHash(e, x.1);
  }

  lemma LastAbsent(ctx: Context, front: seq<TwinEvent>, e: TwinEvent, x: (string, string))
    ensures (exists k :: AbsentAt(ctx, front + [e], x, k)) <==>
            (exists k :: AbsentAt(ctx, front, x, k)) || (x == (e.eventId, e.transactionDigest) && Lookup(ctx, e) == Some(false))
  {
    forall k | 0 <= k < |front| ensures AbsentAt(ctx, front + [e], x, k) <==> AbsentAt(ctx, front, x, k) {}
    assert AbsentAt(ctx, front + [e], x, |front|) <==> x == (e.eventId, e.transactionDigest) && Lookup(ctx, e) == Some(false);
  }

  lemma LastGap(range: Range, front: seq<TwinEvent>, e: TwinEvent, x: (int, int))
    ensures var events := front + [e];
            (exists k :: GapAt(range, events, x, k)) <==>
            (exists k :: GapAt(range, front, x, k)) || (x == (ExpectedAt(range, events, |front|), e.revisionBefore) && x.0 != x.1)
  {
    var events := front + [e];
    forall k | 0 <= k < |front| ensures GapAt(range, events, x, k) <==> GapAt(range, front, x, k) {
      assert ExpectedAt(range, events, k) == ExpectedAt(range, front, k);
    }
    assert GapAt(range, events, x, |front|) <==> x == (ExpectedAt(range, events, |front|), e.revisionBefore) && x.0 != x.1;
  }

  /** The lookups that a thread's transactions give. */
  ghost predicate Answered(ctx: Context, events: seq<TwinEvent>, answer: Option<bool>) {
    exists e :: e in events && Lookup(ctx, e) == answer
  }

  lemma {:induction false} CountsAnswers(ctx: Context, range: Range, events: seq<TwinEvent>)
    ensures var t := AbsorbAll(ctx, range, START, events).tally;
            && (t.failed > 0 <==> Answered(ctx, events, Some(false)))
            && (t.verified > 0 <==> Answered(ctx, events, Some(true)))
            && (t.notVerified > 0 <==> Answered(ctx, events, None))
  {
    hide EventErrors, HashErrors, Upto, Compare, Lookup;
    if events != [] {
      var front, e := events[..|events| - 1], events[|events| - 1];
      assert events == front + [e];
      CountsAnswers(ctx, range, front);
      forall answer ensures Answered(ctx, events, answer) <==> Answered(ctx, front, answer) || Lookup(ctx, e) == answer {
        assert e in events && forall x :: x in front ==> x in events;
      }
    }
  }

  lemma ThreeAnswers(answer: Option<bool>)
    ensures answer == None || answer == Some(false) || answer == Some(true)
  {
    match answer
    case None =>
    case Some(found) =>
      assert found == true || found == false;
      assert answer == Some(found);
      if found {
        assert Some(found) == Some(true);
      } else {
        assert Some(found) == Some(false);
      }
  }

  /** The transaction status: failed as soon as one is absent, verified when all were found, partial when some were. */
  lemma StatusExact(ctx: Context, range: Range, events: seq<TwinEvent>, complete: bool)
    ensures var status := Finish(range, AbsorbAll(ctx, range, START, events), complete).status;
            && (status == Failed <==> Answered(ctx, events, Some(false)))
            && (status == Verified <==> forall e :: e in events ==> Lookup(ctx, e) == Some(true))
            && (status == Partial <==> !Answered(ctx, events, Some(false)) && Answered(ctx, events, Some(true)) && Answered(ctx, events, None))
  {
    CountsAnswers(ctx, range, events);
    hide AbsorbAll, Lookup, Dedupe, Upto;
    forall e | e in events
      ensures Answered(ctx, events, Lookup(ctx, e)) && (Lookup(ctx, e) == None || Lookup(ctx, e) == Some(false) || Lookup(ctx, e) == Some(true))
    {
      ThreeAnswers(Lookup(ctx, e));
    }
  }

  /** The events agree in all the fields that the evidence is about. */
  ghost predicate SameEvidence(a: TwinEvent, b: TwinEvent) {
    && a.eventId == b.eventId && a.twinId == b.twinId && a.eventType == b.eventType
    && a.revisionBefore == b.revisionBefore && a.revisionAfter == b.revisionAfter
    && a.actorDid == b.actorDid && a.payloadRef == b.payloadRef && a.payloadHash == b.payloadHash && a.createdAt == b.createdAt
  }

  lemma CanonicalBinds(a: TwinEvent, b: TwinEvent)
    ensures Canonical(a) == Canonical(b) <==> SameEvidence(a, b)
  {}

  /** Two threads give the same evidence exactly when they agree, event by event, in every field the evidence is about. */
  lemma EvidenceBinds(ctx: Context, range: Range, a: seq<TwinEvent>, b: seq<TwinEvent>)
    ensures AbsorbAll(ctx, range, START, a).digest == AbsorbAll(ctx, range, START, b).digest <==>
            |a| == |b| && forall k :: 0 <= k < |a| ==> SameEvidence(a[k], b[k])
  {
    AbsorbedShape(ctx, range, a);
    AbsorbedShape(ctx, range, b);
    hide AbsorbAll, Canonical, SameEvidence;
    var x, y := Evidences(a), Evidences(b);
    assert |x| == |a| && |y| == |b|;
    forall k | 0 <= k < |a| && k < |b|
      ensures x[k] == y[k] <==> SameEvidence(a[k], b[k])
    {
      CanonicalBinds(a[k], b[k]);
    }
  }

  /** The bounds that a valid full thread reports are the revision before its first event and that after its last. */
  lemma ValidBounds(ctx: Context, events: seq<TwinEvent>)
    requires events != [] && Finish(FULL, AbsorbAll(ctx, FULL, START, events), true).valid == Some(true)
    ensures var r := Finish(FULL, AbsorbAll(ctx, FULL, START, events), true);
            r.fromRevision == 0 == events[0].revisionBefore && r.toRevision == |events| == events[|events| - 1].revisionAfter
  {
    hide AbsorbAll, Finish, Acceptable;
    ValidIffChain(ctx, FULL, events);
    AbsorbedShape(ctx, FULL, events);
    FirstIs(ctx, events);
    FinishBounds(FULL, AbsorbAll(ctx, FULL, START, events));
  }

  lemma FinishBounds(range: Range, p: Progress)
    ensures var r := Finish(range, p, true);
            && r.fromRevision == (if range.from.Some? then range.from.value else if p.tally.first != 0 then p.tally.first - 1 else 0)
            && r.toRevision == (if range.to.Some? then range.to.value else p.tally.last)
  {}

  lemma {:induction false} FirstIs(ctx: Context, events: seq<TwinEvent>)
    requires events != [] && events[0].revisionAfter == 1
    ensures AbsorbAll(ctx, FULL, START, events).tally.first == 1
  {
    hide Absorb;
    var front, e := events[..|events| - 1], events[|events| - 1];
    StepFirst(ctx, AbsorbAll(ctx, FULL, START, front), e);
    if |events| > 1 {
      FirstIs(ctx, front);
    } else {
      assert front == [];
    }
  }

  lemma StepFirst(ctx: Context, p: Progress, e: TwinEvent)
    ensures Absorb(ctx, FULL, p, e).tally.first == if p.tally.first != 0 then p.tally.first else e.revisionAfter
  {
    hide EventErrors, HashErrors, Upto, Compare, Lookup;
  }

  /* ---- Missing and repeated revisions ---- */

  const FULL := Range(None, None)

  predicate Repeats(events: seq<TwinEvent>, revision: int) {
    exists i, j :: 0 <= i < j < |events| && events[i].revisionAfter == revision == events[j].revisionAfter
  }

  lemma RepeatsStep(front: seq<TwinEvent>, e: TwinEvent, r: int)
    ensures Repeats(front + [e], r) <==> Repeats(front, r) || (e.revisionAfter == r && r in Revisions(front))
  {
    var events := front + [e];
    if Repeats(front, r) {
      var i, j :| 0 <= i < j < |front| && front[i].revisionAfter == r == front[j].revisionAfter;
      assert events[i] == front[i] && events[j] == front[j];
    }
    if e.revisionAfter == r && r in Revisions(front) {
      var x :| x in front && x.revisionAfter == r;
      var i :| 0 <= i < |front| && front[i] == x;
      assert events[i] == x && events[|front|] == e;
    }
    if Repeats(events, r) {
      var i, j :| 0 <= i < j < |events| && events[i].revisionAfter == r == events[j].revisionAfter;
      if j < |front| {
        assert events[i] == front[i] && events[j] == front[j];
      } else {
        assert events[i] == front[i] && front[i] in front;
      }
    }
  }

  lemma StepDuplicates(ctx: Context, range: Range, p: Progress, e: TwinEvent)
    ensures Absorb(ctx, range, p, e).tally.duplicates == Push(p.tally.duplicates, e.revisionAfter in p.seen, e.revisionAfter)
  {}

  lemma {:induction false} DuplicatesAre(ctx: Context, range: Range, events: seq<TwinEvent>, r: int)
    ensures r in AbsorbAll(ctx, range, START, events).tally.duplicates <==> Repeats(events, r)
  {
    hide Absorb, Repeats;
    if events == [] {
      NoRepeats(r);
    } else {
      var front, e := events[..|events| - 1], events[|events| - 1];
      assert events == front + [e];
      DuplicatesAre(ctx, range, front, r);
      AbsorbedShape(ctx, range, front);
      StepDuplicates(ctx, range, AbsorbAll(ctx, range, START, front), e);
      RepeatsStep(front, e, r);
    }
  }

  lemma NoRepeats(r: int)
    ensures !Repeats([], r)
  {
  }

  /** The duplicate revisions reported are exactly those carried by two or more events, each listed once. */
  lemma DuplicatesExact(ctx: Context, range: Range, events: seq<TwinEvent>, complete: bool)
    ensures var duplicates := Finish(range, AbsorbAll(ctx, range, START, events), complete).tally.duplicates;
            && (forall r :: r in duplicates <==> Repeats(events, r))
            && (forall i, j :: 0 <= i < j < |duplicates| ==> duplicates[i] != duplicates[j])
  {
    var p := AbsorbAll(ctx, range, START, events);
    DedupeMembers(p.tally.duplicates);
    forall r ensures r in p.tally.duplicates <==> Repeats(events, r) {
      DuplicatesAre(ctx, range, events, r);
    }
    hide Dedupe, AbsorbAll, Repeats;
  }

  /** Events in revision order, each advancing the Twin by one revision from a non-negative one. */
  predicate OrderedAdvances(events: seq<TwinEvent>) {
    && (forall e :: e in events ==> e.revisionBefore >= 0 && e.revisionAfter == e.revisionBefore + 1)
    && (forall i, j :: 0 <= i < j < |events| ==> events[i].revisionAfter <= events[j].revisionAfter)
  }

  lemma StepMissing(ctx: Context, range: Range, p: Progress, e: TwinEvent, r: int)
    ensures r in Absorb(ctx, range, p, e).tally.missing <==>
            r in p.tally.missing || Expected(range, p) < r <= e.revisionBefore
  {
    UptoMembers(Expected(range, p) + 1, e.revisionBefore + 1);
    hide EventErrors, HashErrors, Compare, Upto;
  }

  lemma OrderedPrefix(front: seq<TwinEvent>, e: TwinEvent)
    requires OrderedAdvances(front + [e])
    ensures OrderedAdvances(front) && e.revisionBefore >= 0 && e.revisionAfter == e.revisionBefore + 1
    ensures front != [] ==> LastRevision(front) <= e.revisionAfter
  {
    var events := front + [e];
    assert forall i :: 0 <= i < |front| ==> events[i] == front[i];
    assert forall x :: x in front ==> x in events;
    assert e in events;
    if front != [] {
      assert events[|front| - 1].revisionAfter <= events[|front|].revisionAfter;
    }
  }

  lemma NothingAboveLast(events: seq<TwinEvent>, r: int)
    requires OrderedAdvances(events) && r > LastRevision(events)
    ensures r !in Revisions(events)
    ensures LastRevision(events) >= 0
  {}

  lemma {:induction false} MissingAre(ctx: Context, events: seq<TwinEvent>, r: int)
    requires OrderedAdvances(events)
    ensures r in AbsorbAll(ctx, FULL, START, events).tally.missing <==>
            1 <= r <= LastRevision(events) && r !in Revisions(events)
  {
    hide Absorb, OrderedAdvances;
    if events != [] {
      var front, e := events[..|events| - 1], events[|events| - 1];
      assert events == front + [e];
      OrderedPrefix(front, e);
      MissingAre(ctx, front, r);
      if r > LastRevision(front) {
        NothingAboveLast(front, r);
      }
      assert LastRevision(front) >= 0 by { NothingAboveLast(front, LastRevision(front) + 1); }
      AbsorbedShape(ctx, FULL, front);
      StepMissing(ctx, FULL, AbsorbAll(ctx, FULL, START, front), e, r);
      assert Revisions(events) == Revisions(front) + {e.revisionAfter};
    }
  }

  /** For a full ordered thread the missing revisions reported are exactly the revisions up to the last that no event carries. */
  lemma MissingExact(ctx: Context, events: seq<TwinEvent>)
    requires OrderedAdvances(events)
    ensures var missing := Finish(FULL, AbsorbAll(ctx, FULL, START, events), true).tally.missing;
            && (forall r :: r in missing <==> 1 <= r <= LastRevision(events) && r !in Revisions(events))
            && (forall i, j :: 0 <= i < j < |missing| ==> missing[i] != missing[j])
  {
    var p := AbsorbAll(ctx, FULL, START, events);
    assert p.tally.missing + [] == p.tally.missing;
    DedupeMembers(p.tally.missing);
    forall r ensures r in p.tally.missing <==> 1 <= r <= LastRevision(events) && r !in Revisions(events) {
      MissingAre(ctx, events, r);
    }
    hide Dedupe, AbsorbAll, OrderedAdvances;
  }

  /* ---- The one-shot form ---- */

  datatype OneShot = OneShot(valid: bool, first: int, last: int, fromRevision: int, toRevision: int, count: nat,
                             missing: seq<int>, duplicates: seq<int>, gaps: seq<(int, int)>,
                             invalid: seq<(string, seq<EventError>)>, hashErrors: seq<(string, HashError)>,
                             notVerified: nat, digest: seq<Evidence>)

  lemma {:induction false} MissingNeedsGap(ctx: Context, range: Range, events: seq<TwinEvent>)
    ensures var t := AbsorbAll(ctx, range, START, events).tally; t.gaps == [] ==> t.missing == []
  {
    hide EventErrors, HashErrors, Compare, Upto;
    if events != [] {
      MissingNeedsGap(ctx, range, events[..|events| - 1]);
    }
  }

  /** What the one-shot result shares with the incremental report on the same full thread. */
  predicate Agrees(o: OneShot, r: Report) {
    && r.valid == Some(o.valid && r.tally.transactionErrors == [])
    && o.gaps == r.tally.gaps && o.invalid == r.tally.invalid && o.hashErrors == r.tally.hashErrors
    && Dedupe(o.missing) == r.tally.missing && Dedupe(o.duplicates) == r.tally.duplicates
    && o.count == r.tally.count && o.first == r.tally.first && o.last == r.tally.last
    && o.fromRevision == r.fromRevision && o.toRevision == r.toRevision && o.digest == r.digest
  }

  /**
   Verifying a full thread in one go agrees with the incremental verifier, which additionally needs
   every transaction it can look up to exist.
   */
  method VerifyEvents(ctx: Context, events: seq<TwinEvent>) returns (o: OneShot)
    ensures Agrees(o, Finish(FULL, AbsorbAll(ctx, FULL, START, events), true))
    ensures o.notVerified == |events|
  {
    hide AbsorbAll, Absorb, EventErrors, HashErrors, Upto, Finish, Agrees, Dedupe, Canonical;
    var first, last, count: nat, notVerified: nat := 0, 0, 0, 0;
    var missing: seq<int>, duplicates: seq<int>, gaps: seq<(int, int)> := [], [], [];
    var invalid: seq<(string, seq<EventError>)>, hashErrors: seq<(string, HashError)>, digest: seq<Evidence> := [], [], [];
    var seen: set<int>, previous: Option<TwinEvent> := {}, None;
    NothingAbsorbed(ctx);
    assert events[..0] == [];
    for i := 0 to |events|
      invariant var p := AbsorbAll(ctx, FULL, START, events[..i]);
                && p.seen == seen && p.previous == previous && p.digest == digest
                && SameFindings(p.tally, first, last, count, missing, duplicates, gaps, invalid, hashErrors)
      invariant notVerified == count == i
    {
      var event := events[i];
      StepFindings(ctx, AbsorbAll(ctx, FULL, START, events[..i]), event);
      AbsorbNext(ctx, FULL, events, i);
      var expected := if previous.Some? then previous.value.revisionAfter else 0;
      var errors := EventErrors(ctx, previous, event);
      if event.revisionAfter in seen { duplicates := duplicates + [event.revisionAfter]; }
      if event.revisionBefore != expected {
        gaps := gaps + [(expected, event.revisionBefore)];
        if event.revisionBefore > expected { missing := missing + Upto(expected + 1, event.revisionBefore + 1); }
      }
      hashErrors := HashErrors(hashErrors, event);
      if errors != [] { invalid := invalid + [(event.eventId, errors)]; }
      seen := seen + {event.revisionAfter};
      notVerified, count := notVerified + 1, count + 1;
      digest := digest + [Canonical(event)];
      first := if first != 0 then first else event.revisionAfter;
      last, previous := event.revisionAfter, Some(event);
    }
    assert events[..|events|] == events;
    var valid := invalid == [] && hashErrors == [] && gaps == [] && duplicates == [];
    o := OneShot(valid, first, last, if first != 0 then first - 1 else 0, last, count,
                 missing, duplicates, gaps, invalid, hashErrors, notVerified, digest);
    MissingNeedsGap(ctx, FULL, events);
    SameFindingsAgree(AbsorbAll(ctx, FULL, START, events), o);
  }

  lemma NothingAbsorbed(ctx: Context)
    ensures AbsorbAll(ctx, FULL, START, []) == START
  {
  }

  lemma AbsorbNext(ctx: Context, range: Range, events: seq<TwinEvent>, i: nat)
    requires i < |events|
    ensures AbsorbAll(ctx, range, START, events[..i + 1]) == Absorb(ctx, range, AbsorbAll(ctx, range, START, events[..i]), events[i])
  {
    hide Absorb;
    assert events[..i + 1][..i] == events[..i];
  }

  lemma SameFindingsAgree(p: Progress, o: OneShot)
    requires SameFindings(p.tally, o.first, o.last, o.count, o.missing, o.duplicates, o.gaps, o.invalid, o.hashErrors)
    requires p.tally.gaps == [] ==> p.tally.missing == []
    requires o.digest == p.digest && o.toRevision == o.last && o.fromRevision == if o.first != 0 then o.first - 1 else 0
    requires o.valid <==> o.invalid == [] && o.hashErrors == [] && o.gaps == [] && o.duplicates == []
    ensures Agrees(o, Finish(FULL, p, true))
  {
    assert p.tally.missing + [] == p.tally.missing;
    DedupeEmpty(o.missing);
    DedupeEmpty(o.duplicates);
    hide Dedupe;
  }

  predicate SameFindings(t: Tally, first: int, last: int, count: nat, missing: seq<int>, duplicates: seq<int>, gaps: seq<(int, int)>,
                         invalid: seq<(string, seq<EventError>)>, hashErrors: seq<(string, HashError)>) {
    && t.first == first && t.last == last && t.count == count && t.missing == missing && t.duplicates == duplicates
    && t.gaps == gaps && t.invalid == invalid && t.hashErrors == hashErrors
  }

  lemma StepFindings(ctx: Context, p: Progress, e: TwinEvent)
    ensures var t, errors, expected := p.tally, EventErrors(ctx, p.previous, e), Expected(FULL, p);
            var q := Absorb(ctx, FULL, p, e);
            && SameFindings(q.tally, if t.first != 0 then t.first else e.revisionAfter, e.revisionAfter, t.count + 1,
                            if e.revisionBefore > expected then t.missing + Upto(expected + 1, e.revisionBefore + 1) else t.missing,
                            Push(t.duplicates, e.revisionAfter in p.seen, e.revisionAfter),
                            Push(t.gaps, e.revisionBefore != expected, (expected, e.revisionBefore)),
                            Push(t.invalid, errors != [], (e.eventId, errors)), HashErrors(t.hashErrors, e))
            && q.seen == p.seen + {e.revisionAfter} && q.digest == p.digest + [Canonical(e)] && q.previous == Some(e)
  {
    hide EventErrors, HashErrors, Compare, Upto;
  }
}
