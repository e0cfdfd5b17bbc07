/**
 Verification of a Twin's Digital Thread: the incremental verifier fed page by page, the one-shot form,
 and what both say about the revisions of the thread. SHA-256 over evidence hashes is kept as the
 sequence of the canonical event fields it digests.
 */
module ThreadVerifier {
  import opened Text
  import opened Wrappers

  datatype TwinEvent = TwinEvent(eventId: string, twinId: string, eventType: int, revisionBefore: int, revisionAfter: int,
                                 actorDid: string, payloadRef: string, payloadHash: string, createdAt: int,
                                 transactionDigest: string, referencedStateHash: Option<string>)

  /** The fields the evidence hash covers. */
  datatype Evidence = Evidence(eventId: string, twinId: string, eventType: int, revisionBefore: int, revisionAfter: int,
                               actorDid: string, payloadRef: string, payloadHash: string, createdAt: int)

  datatype EventError = OutOfOrder | OtherTwin | UnknownEventType | ActorMissing | BadTransition | PayloadMissing
  datatype HashError = MalformedHash | StateMismatch

  /** `from` and `to` bound the revision range; both absent means the full thread. */
  datatype Range = Range(from: Option<int>, to: Option<int>)

  /** What the verification runs against: the Twin, the collation of event ids and the transaction lookup. */
  datatype Context = Context(twinId: string, collation: string -> int, present: string -> Option<bool>)

  const EVENT_TYPES: set<int> := {
    1, 2, 3, 10, 20, 21, 22, 30, 31, 32, 40, 41, 42, 45, 46, 50, 51, 52,
    60, 61, 62, 70, 71, 72, 80, 81, 82, 100, 101, 102, 103, 104, 110,
    120, 121, 130, 140, 150, 151, 152, 153, 154, 160, 161, 162, 163, 164,
    170, 171, 172, 180, 181 }

  const PAYLOAD_TYPES: set<int> := {30, 32, 70, 80, 160, 162}

  predicate ListedType(eventType: int) {
    eventType in EVENT_TYPES
  }

  predicate PayloadType(eventType: int) {
    eventType in PAYLOAD_TYPES
  }

  /* ---- Local checks ---- */

  function DropZeros(s: string): string {
    if s != [] && s[0] == '0' then DropZeros(s[1..]) else s
  }

  /** Lower case, with zeros directly after the 0x prefix dropped. */
  function Normalize(id: string): string {
    var l := Lower(id);
    if "0x0" <= l then "0x" + DropZeros(l[2..]) else l
  }

  predicate HexDigits(s: string) {
    forall i :: 0 <= i < |s| ==> '0' <= s[i] <= '9' || 'a' <= s[i] <= 'f'
  }

  predicate IsValidHash(s: string) {
    ("sha256:" <= s || "0x" <= s) && |StripAlgorithm(s)| == 64 && HexDigits(StripAlgorithm(s))
  }

  predicate HashesMatch(a: string, b: string) {
    a != "" && b != "" && StripAlgorithm(Lower(a)) == StripAlgorithm(Lower(b))
  }

  function Compare(collation: string -> int, a: TwinEvent, b: TwinEvent): int {
    if a.revisionAfter != b.revisionAfter then a.revisionAfter - b.revisionAfter
    else if a.createdAt != b.createdAt then a.createdAt - b.createdAt
    else collation(a.eventId) - collation(b.eventId)
  }

  function Push<T>(s: seq<T>, condition: bool, x: T): seq<T> {
    if condition then s + [x] else s
  }

  /** The errors whose conditions hold, in the order in which they are checked. */
  function Collected(late: bool, other: bool, unlisted: bool, anonymous: bool, jump: bool, empty: bool): seq<EventError> {
    var a := Push([], late, OutOfOrder);
    var b := Push(a, other, OtherTwin);
    var c := Push(b, unlisted, UnknownEventType);
    var d := Push(c, anonymous, ActorMissing);
    var f := Push(d, jump, BadTransition);
    Push(f, empty, PayloadMissing)
  }

  function EventErrors(ctx: Context, previous: Option<TwinEvent>, e: TwinEvent): seq<EventError> {
    Collected(previous.Some? && Compare(ctx.collation, previous.value, e) > 0, Normalize(e.twinId) != Normalize(ctx.twinId),
              !ListedType(e.eventType), e.actorDid == "", e.revisionAfter != e.revisionBefore + 1,
              PayloadType(e.eventType) && e.payloadRef == "" && e.payloadHash == "")
  }

  function HashErrors(known: seq<(string, HashError)>, e: TwinEvent): seq<(string, HashError)> {
    var a := Push(known, e.payloadHash != "" && !IsValidHash(e.payloadHash), (e.eventId, MalformedHash));
    Push(a, e.eventType == 30 && e.referencedStateHash.Some? && !HashesMatch(e.payloadHash, e.referencedStateHash.value),
         (e.eventId, StateMismatch))
  }

  function Canonical(e: TwinEvent): Evidence {
    Evidence(e.eventId, e.twinId, e.eventType, e.revisionBefore, e.revisionAfter, e.actorDid, e.payloadRef, e.payloadHash, e.createdAt)
  }

  function Upto(start: int, end: int): seq<int>
    decreases end - start
  {
    if start < end then [start] + Upto(start + 1, end) else []
  }

  /* ---- The incremental verifier ---- */

  /** The running result. */
  datatype Tally = Tally(
    pages: nat, first: int, last: int, count: nat,
    missing: seq<int>, duplicates: seq<int>, gaps: seq<(int, int)>,
    invalid: seq<(string, seq<EventError>)>, hashErrors: seq<(string, HashError)>, transactionErrors: seq<(string, string)>,
    verified: nat, failed: nat, notVerified: nat)

  const EMPTY := Tally(0, 0, 0, 0, [], [], [], [], [], [], 0, 0, 0)

  /** Everything the verifier carries from one event to the next. */
  datatype Progress = Progress(tally: Tally, seen: set<int>, digest: seq<Evidence>, previous: Option<TwinEvent>)

  const START := Progress(EMPTY, {}, [], None)

  function Base(range: Range): int {
    if range.from.Some? then range.from.value - 1 else 0
  }

  function Expected(range: Range, p: Progress): int {
    if p.previous.Some? then p.previous.value.revisionAfter else Base(range)
  }

  /** None when there is nothing to look up or the lookup did not answer. */
  function Lookup(ctx: Context, e: TwinEvent): Option<bool> {
    if e.transactionDigest == "" then None else ctx.present(e.transactionDigest)
  }

  function Checked(ctx: Context, t: Tally, e: TwinEvent): Tally {
    match Lookup(ctx, e)
    case Some(true) => t.(verified := t.verified + 1)
    case Some(false) => t.(failed := t.failed + 1, transactionErrors := t.transactionErrors + [(e.eventId, e.transactionDigest)])
    case None => t.(notVerified := t.notVerified + 1)
  }

  function Absorb(ctx: Context, range: Range, p: Progress, e: TwinEvent): Progress {
    var expected := Expected(range, p);
    var errors := EventErrors(ctx, p.previous, e);
    var t := p.tally.(
      duplicates := Push(p.tally.duplicates, e.revisionAfter in p.seen, e.revisionAfter),
      gaps := Push(p.tally.gaps, e.revisionBefore != expected, (expected, e.revisionBefore)),
      missing := if e.revisionBefore > expected then p.tally.missing + Upto(expected + 1, e.revisionBefore + 1) else p.tally.missing,
      hashErrors := HashErrors(p.tally.hashErrors, e),
      invalid := Push(p.tally.invalid, errors != [], (e.eventId, errors)));
    var u := Checked(ctx, t, e);
    Progress(u.(count := u.count + 1, first := if u.first != 0 then u.first else e.revisionAfter, last := e.revisionAfter),
             p.seen + {e.revisionAfter}, p.digest + [Canonical(e)], Some(e))
  }

  function AbsorbAll(ctx: Context, range: Range, p: Progress, events: seq<TwinEvent>): Progress {
    if events == [] then p
    else Absorb(ctx, range, AbsorbAll(ctx, range, p, events[..|events| - 1]), events[|events| - 1])
  }

  function CountPage(p: Progress): Progress {
    p.(tally := p.tally.(pages := p.tally.pages + 1))
  }

  datatype Status = Verified | Partial | Failed | NotVerified

  /** `valid` is None when the range could not be enumerated completely. */
  datatype Report = Report(valid: Option<bool>, complete: bool, tally: Tally, fromRevision: int, toRevision: int,
                           status: Status, digest: seq<Evidence>)

  function Dedupe(s: seq<int>): seq<int> {
    if s == [] then []
    else
      var front := Dedupe(s[..|s| - 1]);
      if s[|s| - 1] in front then front else front + [s[|s| - 1]]
  }

  function TransactionStatus(t: Tally): Status {
    if t.failed > 0 then Failed
    else if t.notVerified > 0 && t.verified > 0 then Partial
    else if t.notVerified > 0 then NotVerified
    else Verified
  }

  function Closed(range: Range, p: Progress, complete: bool): Tally {
    var t := p.tally;
    var tail := if complete && range.to.Some? && t.last < range.to.value then Upto(t.last + 1, range.to.value + 1) else [];
    t.(duplicates := Dedupe(t.duplicates), missing := Dedupe(t.missing + tail))
  }

  function Finish(range: Range, p: Progress, complete: bool): Report {
    var t := Closed(range, p, complete);
    var errors := t.invalid != [] || t.hashErrors != [] || t.transactionErrors != [];
    var invalid := errors || t.gaps != [] || t.duplicates != [] || t.missing != [];
    Report(if complete then Some(!invalid) else None, complete, t,
           if range.from.Some? then range.from.value else if t.first != 0 then t.first - 1 else 0,
           if range.to.Some? then range.to.value else t.last,
           TransactionStatus(t), p.digest)
  }

  class IncrementalThreadVerifier {
    const ctx: Context
    const range: Range
    var tally: Tally
    var seen: set<int>
    var digest: seq<Evidence>
    var previous: Option<TwinEvent>

    function View(): Progress
      reads this
    {
      Progress(tally, seen, digest, previous)
    }

    constructor (ctx: Context, range: Range)
      ensures this.ctx == ctx && this.range == range && View() == START
    {
      this.ctx, this.range := ctx, range;
      tally, seen, digest, previous := EMPTY, {}, [], None;
    }

    method AppendPage(events: seq<TwinEvent>)
      modifies this
      ensures View() == AbsorbAll(ctx, range, CountPage(old(View())), events)
    {
      tally := tally.(pages := tally.pages + 1);
      for i := 0 to |events|
        invariant View() == AbsorbAll(ctx, range, CountPage(old(View())), events[..i])
      {
        assert events[..i + 1][..i] == events[..i];
        Append(events[i]);
      }
      assert events[..|events|] == events;
    }

    method Append(event: TwinEvent)
      modifies this
      ensures View() == Absorb(ctx, range, old(View()), event)
    {
      hide EventErrors, HashErrors, Compare, Upto, Checked, Base;
      var expected := if previous.Some? then previous.value.revisionAfter else Base(range);
      var errors := CollectErrors(event);
      var hashErrors := CollectHashErrors(event);
      var duplicates, gaps, missing, invalid := tally.duplicates, tally.gaps, tally.missing, tally.invalid;
      if event.revisionAfter in seen {
        duplicates := duplicates + [event.revisionAfter];
      }
      if event.revisionBefore != expected {
        gaps := gaps + [(expected, event.revisionBefore)];
        if event.revisionBefore > expected {
          missing := missing + Upto(expected + 1, event.revisionBefore + 1);
        }
      }
      if errors != [] {
        invalid := invalid + [(event.eventId, errors)];
      }
      var next := Checked(ctx, tally.(duplicates := duplicates, gaps := gaps, missing := missing,
                                      hashErrors := hashErrors, invalid := invalid), event);
      tally := next.(count := next.count + 1, first := if next.first != 0 then next.first else event.revisionAfter,
                     last := event.revisionAfter);
      seen := seen + {event.revisionAfter};
      digest := digest + [Canonical(event)];
      previous := Some(event);
    }

    method CollectErrors(event: TwinEvent) returns (errors: seq<EventError>)
      ensures errors == EventErrors(ctx, previous, event)
    {
      errors := [];
      if previous.Some? && Compare(ctx.collation, previous.value, event) > 0 { errors := errors + [OutOfOrder]; }
      if Normalize(event.twinId) != Normalize(ctx.twinId) { errors := errors + [OtherTwin]; }
      if !ListedType(event.eventType) { errors := errors + [UnknownEventType]; }
      if event.actorDid == "" { errors := errors + [ActorMissing]; }
      if event.revisionAfter != event.revisionBefore + 1 { errors := errors + [BadTransition]; }
      if PayloadType(event.eventType) && event.payloadRef == "" && event.payloadHash == "" { errors := errors + [PayloadMissing]; }
    }

    method CollectHashErrors(event: TwinEvent) returns (errors: seq<(string, HashError)>)
      ensures errors == HashErrors(tally.hashErrors, event)
    {
      errors := tally.hashErrors;
      if event.payloadHash != "" && !IsValidHash(event.payloadHash) {
        errors := errors + [(event.eventId, MalformedHash)];
      }
      if event.eventType == 30 && event.referencedStateHash.Some?
         && !HashesMatch(event.payloadHash, event.referencedStateHash.value) {
        errors := errors + [(event.eventId, StateMismatch)];
      }
    }

    method FinishReport(complete: bool) returns (r: Report)
      modifies this`tally
      ensures r == Finish(range, old(View()), complete)
    {
      hide Dedupe, Upto, TransactionStatus;
      if complete && range.to.Some? && tally.last < range.to.value {
        tally := tally.(missing := tally.missing + Upto(tally.last + 1, range.to.value + 1));
      } else {
        assert tally.missing + [] == tally.missing;
      }
      tally := tally.(duplicates := Dedupe(tally.duplicates));
      tally := tally.(missing := Dedupe(tally.missing));
      var errors := tally.invalid != [] || tally.hashErrors != [] || tally.transactionErrors != [];
      var invalid := errors || tally.gaps != [] || tally.duplicates != [] || tally.missing != [];
      r := Report(if complete then Some(!invalid) else None, complete, tally,
                  if range.from.Some? then range.from.value else if tally.first != 0 then tally.first - 1 else 0,
                  if range.to.Some? then range.to.value else tally.last,
                  TransactionStatus(tally), digest);
    }
  }
}
