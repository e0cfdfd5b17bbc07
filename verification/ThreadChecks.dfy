/** What the verifier's checks of one event mean for the event's own fields. */
module ThreadChecks {
  import opened Text
  import opened Wrappers
  import opened ThreadVerifier

  /* ---- Twin ids ---- */

  function Zeros(n: nat): string {
    seq(n, _ => '0')
  }

  /** The ids differ at most in letter case and in zeros directly after the 0x prefix. */
  ghost predicate SameTwin(a: string, b: string) {
    Lower(a) == Lower(b)
    || exists m: nat, n: nat, rest: string :: Lower(a) == "0x" + Zeros(m) + rest && Lower(b) == "0x" + Zeros(n) + rest
  }

  lemma {:induction false} DropZerosSplits(s: string) returns (n: nat)
    ensures s == Zeros(n) + DropZeros(s) && (DropZeros(s) != [] ==> DropZeros(s)[0] != '0')
  {
    if s != [] && s[0] == '0' {
      var m := DropZerosSplits(s[1..]);
      n := m + 1;
      assert Zeros(n) == ['0'] + Zeros(m);
      assert s == ['0'] + s[1..];
    } else {
      n := 0;
    }
  }

  lemma {:induction false} DropZerosOf(n: nat, rest: string)
    ensures DropZeros(Zeros(n) + rest) == DropZeros(rest)
  {
    if n == 0 {
      assert Zeros(n) + rest == rest;
    } else {
      assert (Zeros(n) + rest)[1..] == Zeros(n - 1) + rest;
      DropZerosOf(n - 1, rest);
    }
  }

  /** After the prefix, normalizing drops the zeros, if any. */
  lemma NormalizePrefixed(id: string, digits: string)
    requires Lower(id) == "0x" + digits
    ensures Normalize(id) == "0x" + DropZeros(digits)
  {
    assert Lower(id)[2..] == digits;
    assert "0x0" <= Lower(id) <==> digits != [] && digits[0] == '0';
  }

  lemma NormalizePlain(id: string)
    requires !("0x" <= Lower(id))
    ensures Normalize(id) == Lower(id)
  {
    assert "0x0" <= Lower(id) ==> "0x" <= Lower(id);
  }

  lemma SameNormalizes(a: string, b: string, m: nat, n: nat, rest: string)
    requires Lower(a) == "0x" + Zeros(m) + rest && Lower(b) == "0x" + Zeros(n) + rest
    ensures Normalize(a) == Normalize(b)
  {
    hide Lower, Normalize;
    assert Lower(a) == "0x" + (Zeros(m) + rest) && Lower(b) == "0x" + (Zeros(n) + rest);
    NormalizePrefixed(a, Zeros(m) + rest);
    NormalizePrefixed(b, Zeros(n) + rest);
    DropZerosOf(m, rest);
    DropZerosOf(n, rest);
  }

  lemma PrefixedSplits(id: string) returns (n: nat)
    requires "0x" <= Lower(id)
    ensures "0x" <= Normalize(id) && Lower(id) == "0x" + Zeros(n) + Normalize(id)[2..]
  {
    hide Lower, Normalize, Zeros;
    var digits := Lower(id)[2..];
    assert Lower(id) == "0x" + digits;
    NormalizePrefixed(id, digits);
    n := DropZerosSplits(digits);
    assert Normalize(id)[2..] == DropZeros(digits);
    assert "0x" + (Zeros(n) + DropZeros(digits)) == "0x" + Zeros(n) + DropZeros(digits);
  }

  /** Two ids are taken for the same exactly when they differ at most in letter case and leading zeros. */
  lemma NormalizeExactly(a: string, b: string)
    ensures Normalize(a) == Normalize(b) <==> SameTwin(a, b)
  {
    hide Lower, Normalize, Zeros;
    if exists m: nat, n: nat, rest: string :: Lower(a) == "0x" + Zeros(m) + rest && Lower(b) == "0x" + Zeros(n) + rest {
      var m: nat, n: nat, rest: string :| Lower(a) == "0x" + Zeros(m) + rest && Lower(b) == "0x" + Zeros(n) + rest;
      SameNormalizes(a, b, m, n, rest);
    }
    LowerDecides(a, b);
    NormalizedPrefix(a);
    NormalizedPrefix(b);
    if Normalize(a) == Normalize(b) && "0x" <= Lower(a) {
      var m := PrefixedSplits(a);
      var n := PrefixedSplits(b);
    }
  }

  lemma LowerDecides(a: string, b: string)
    ensures Lower(a) == Lower(b) ==> Normalize(a) == Normalize(b)
  {}

  /** Normalizing neither adds nor removes the prefix, and changes nothing without it. */
  lemma NormalizedPrefix(id: string)
    ensures "0x" <= Normalize(id) <==> "0x" <= Lower(id)
    ensures !("0x" <= Lower(id)) ==> Normalize(id) == Lower(id)
  {
    if "0x" <= Lower(id) {
      assert Lower(id) == "0x" + Lower(id)[2..];
      NormalizePrefixed(id, Lower(id)[2..]);
    } else {
      NormalizePlain(id);
    }
  }

  /* ---- Hashes ---- */

  lemma DigitsAre(d: string)
    ensures Hex64Digits(d) <==> |d| == 64 && HexDigits(d)
  {
    assert forall c: char :: c in "0123456789abcdef" <==> '0' <= c <= '9' || 'a' <= c <= 'f';
  }

  lemma ValidHashExactly(hash: string)
    ensures IsValidHash(hash) <==> exists d :: HashOf(hash, d)
  {
    hide StripAlgorithm;
    StripSplits(hash);
    DigitsAre(StripAlgorithm(hash));
    if IsValidHash(hash) {
      assert HashOf(hash, StripAlgorithm(hash));
    }
    if d :| HashOf(hash, d) {
      DigitsHaveNoPrefix(d);
    }
  }

  lemma HashesMatchExactly(published: string, state: string, d: string)
    requires HashOf(published, d)
    ensures HashesMatch(published, state) <==> Names(state, d)
  {
    hide StripAlgorithm;
    LowerDigits(published, d);
    DigitsHaveNoPrefix(d);
    StripSplits(Lower(state));
    if Names(state, d) {
      assert state != "";
    }
  }

  /* ---- What is wrong with an event ---- */

  /** Revision, then time, then event id in the given collation. */
  ghost predicate Behind(collation: string -> int, a: TwinEvent, b: TwinEvent) {
    || b.revisionAfter < a.revisionAfter
    || (b.revisionAfter == a.revisionAfter && b.createdAt < a.createdAt)
    || (b.revisionAfter == a.revisionAfter && b.createdAt == a.createdAt && collation(b.eventId) < collation(a.eventId))
  }

  ghost predicate Wrong(ctx: Context, previous: Option<TwinEvent>, e: TwinEvent, error: EventError) {
    match error
    case OutOfOrder => previous.Some? && Behind(ctx.collation, previous.value, e)
    case OtherTwin => !SameTwin(e.twinId, ctx.twinId)
    case UnknownEventType => !ListedType(e.eventType)
    case ActorMissing => |e.actorDid| == 0
    case BadTransition => e.revisionAfter - e.revisionBefore != 1
    case PayloadMissing => PayloadType(e.eventType) && |e.payloadRef| == 0 && |e.payloadHash| == 0
  }

  lemma PushMembers<T>(s: seq<T>, condition: bool, x: T)
    ensures forall y :: y in Push(s, condition, x) <==> y in s || (condition && y == x)
  {}

  lemma BehindIs(collation: string -> int, a: TwinEvent, b: TwinEvent)
    ensures Behind(collation, a, b) <==> Compare(collation, a, b) > 0
  {}

  /** The errors found are exactly those that apply. */
  lemma EventErrorsExactly(ctx: Context, previous: Option<TwinEvent>, e: TwinEvent, error: EventError)
    ensures error in EventErrors(ctx, previous, e) <==> Wrong(ctx, previous, e, error)
  {
    NormalizeExactly(e.twinId, ctx.twinId);
    if previous.Some? {
      BehindIs(ctx.collation, previous.value, e);
    }
    hide Collected, SameTwin, Normalize, Behind, Compare, ListedType, PayloadType;
    CollectedMembers(previous.Some? && Compare(ctx.collation, previous.value, e) > 0, Normalize(e.twinId) != Normalize(ctx.twinId),
                     !ListedType(e.eventType), e.actorDid == "", e.revisionAfter != e.revisionBefore + 1,
                     PayloadType(e.eventType) && e.payloadRef == "" && e.payloadHash == "", error);
  }

  lemma CollectedMembers(late: bool, other: bool, unlisted: bool, anonymous: bool, jump: bool, empty: bool, error: EventError)
    ensures error in Collected(late, other, unlisted, anonymous, jump, empty)
            <==> match error
                 case OutOfOrder => late
                 case OtherTwin => other
                 case UnknownEventType => unlisted
                 case ActorMissing => anonymous
                 case BadTransition => jump
                 case PayloadMissing => empty
  {
    hide Push;
    var none: seq<EventError> := [];
    PushMembers(none, late, OutOfOrder);
    var a := Push(none, late, OutOfOrder);
    PushMembers(a, other, OtherTwin);
    var b := Push(a, other, OtherTwin);
    PushMembers(b, unlisted, UnknownEventType);
    var c := Push(b, unlisted, UnknownEventType);
    PushMembers(c, anonymous, ActorMissing);
    var d := Push(c, anonymous, ActorMissing);
    PushMembers(d, jump, BadTransition);
    PushMembers(Push(d, jump, BadTransition), empty, PayloadMissing);
  }

  ghost predicate WrongHash(e: TwinEvent, error: HashError) {
    match error
    case MalformedHash => e.payloadHash != "" && forall d :: !HashOf(e.payloadHash, d)
    case StateMismatch => e.eventType == 30 && e.referencedStateHash.Some? && !HashesMatch(e.payloadHash, e.referencedStateHash.value)
  }

  lemma HashErrorsExactly(known: seq<(string, HashError)>, e: TwinEvent, x: (string, HashError))
    ensures x in HashErrors(known, e) <==> x in known || (x.0 == e.eventId && WrongHash(e, x.1))
  {
    ValidHashExactly(e.payloadHash);
    hide IsValidHash, HashesMatch, HashOf;
  }

  /**
   An event is acceptable on its own: of this Twin, of a listed type, with an actor, one revision further, with what its
   type carries, a well-formed hash if any, the digest of the state it publishes, and not reported absent from the chain.
   */
  ghost predicate Acceptable(ctx: Context, e: TwinEvent) {
    && SameTwin(e.twinId, ctx.twinId) && ListedType(e.eventType) && e.actorDid != "" && e.revisionAfter == e.revisionBefore + 1
    && (PayloadType(e.eventType) ==> e.payloadRef != "" || e.payloadHash != "")
    && (e.payloadHash == "" || exists d :: HashOf(e.payloadHash, d))
    && (e.eventType == 30 && e.referencedStateHash.Some? ==>
          exists d :: HashOf(e.payloadHash, d) && Names(e.referencedStateHash.value, d))
    && (e.transactionDigest == "" || ctx.present(e.transactionDigest) != Some(false))
  }

  lemma NoEventErrors(ctx: Context, e: TwinEvent)
    ensures EventErrors(ctx, None, e) == [] <==>
            && SameTwin(e.twinId, ctx.twinId) && ListedType(e.eventType) && e.actorDid != "" && e.revisionAfter == e.revisionBefore + 1
            && (PayloadType(e.eventType) ==> e.payloadRef != "" || e.payloadHash != "")
  {
    NormalizeExactly(e.twinId, ctx.twinId);
    hide SameTwin, Normalize, ListedType, PayloadType, Collected;
    CollectedEmpty(false, Normalize(e.twinId) != Normalize(ctx.twinId), !ListedType(e.eventType), e.actorDid == "",
                   e.revisionAfter != e.revisionBefore + 1, PayloadType(e.eventType) && e.payloadRef == "" && e.payloadHash == "");
  }

  lemma CollectedEmpty(late: bool, other: bool, unlisted: bool, anonymous: bool, jump: bool, empty: bool)
    ensures Collected(late, other, unlisted, anonymous, jump, empty) == [] <==> !late && !other && !unlisted && !anonymous && !jump && !empty
  {}

  /** The verifier finds nothing to object to in an event alone exactly when it is acceptable. */
  lemma AcceptableExactly(ctx: Context, e: TwinEvent)
    ensures EventErrors(ctx, None, e) == [] && HashErrors([], e) == [] && Lookup(ctx, e) != Some(false) <==> Acceptable(ctx, e)
  {
    NoEventErrors(ctx, e);
    ValidHashExactly(e.payloadHash);
    hide EventErrors, SameTwin, IsValidHash, HashesMatch, Names, ListedType, PayloadType;
    if e.referencedStateHash.Some? {
      forall d | HashOf(e.payloadHash, d)
        ensures HashesMatch(e.payloadHash, e.referencedStateHash.value) <==> Names(e.referencedStateHash.value, d)
      {
        HashesMatchExactly(e.payloadHash, e.referencedStateHash.value, d);
      }
      EmptyMatchesNothing(e.referencedStateHash.value);
    }
  }

  lemma EmptyMatchesNothing(state: string)
    ensures !HashesMatch("", state) && forall d :: !HashOf("", d)
  {}
}
