/**
 Sponsored execution of one mutation: gas stations are tried in order, and a station is left only when its attempt
 certainly submitted nothing, or so the code assumes.
 */
module GasStations {
  import opened Wrappers

  /* ---- What a station and the chain do ---- */

  datatype Reservation = Reservation(sponsor: string, id: Option<int>, coins: seq<nat>)

  datatype Confirmation = TimedOut | Effects(success: bool)

  /** Reply to the execute request. `Lost` is a network error or timeout; `Answered` is a 2xx reply. */
  datatype Reply =
    | Refused(status: nat)
    | Lost
    | Empty
    | Answered(digest: string, confirmation: Confirmation)

  /** One station as the call meets it. A missing reservation is a failed reserve request. */
  datatype Station = Station(reservation: Option<Reservation>, builds: bool, reply: Reply)

  datatype Code =
    | ReserveFailed | ReservationInvalid | BuildFailed | StationRejected | EmptyReply | ResponseInvalid
    | SubmissionUnknown | ConfirmationUnknown | TransactionFailed | Unavailable

  /** The error's code and the two details the queue looks at. */
  datatype Failure = Failure(code: Code, retryable: bool, submissionUnknown: bool)

  predicate ReservationValid(r: Reservation) {
    r.sponsor != "" && r.id.Some? && r.coins != []
  }

  predicate Submits(s: Station) {
    s.reservation.Some? && ReservationValid(s.reservation.value) && s.builds
  }

  /** A 2xx reply from which no digest can be read. */
  predicate Undigested(s: Station) {
    Submits(s) && (s.reply.Empty? || (s.reply.Answered? && s.reply.digest == ""))
  }

  /** The replies after which the chain may have applied what the station was sent. */
  predicate MayApply(s: Station) {
    Submits(s) &&
    match s.reply
    case Refused(status) => !(400 <= status < 500)
    case Lost => true
    case Empty => true
    case Answered(digest, confirmation) => digest == "" || confirmation.TimedOut? || confirmation.success
  }

  /** The replies after which the chain has applied it. */
  predicate MustApply(s: Station) {
    Submits(s) && s.reply.Answered? && s.reply.digest != "" && s.reply.confirmation == Effects(true)
  }

  /* ---- One attempt ---- */

  /** The transaction being built; the station's reservation is written into it before it is signed. */
  class Transaction {
    var sender: string
    var gasOwner: string
    var gasPayment: seq<nat>
    var gasBudget: nat

    constructor ()
      ensures sender == "" && gasOwner == "" && gasPayment == []
    {
      sender, gasOwner, gasPayment, gasBudget := "", "", [], 0;
    }
  }

  /** What a station was sent to execute. */
  datatype Submission = Submission(station: nat, sender: string, gasOwner: string, gasPayment: seq<nat>, gasBudget: nat)

  function Plain(code: Code): Failure {
    Failure(code, false, false)
  }

  function Unknown(code: Code): Failure {
    Failure(code, false, true)
  }

  /** The outcome of one attempt: the confirmed digest, or why there is none. */
  function Attempt(s: Station): Result<string, Failure> {
    if s.reservation.None? then Err(Plain(ReserveFailed))
    else if !ReservationValid(s.reservation.value) then Err(Plain(ReservationInvalid))
    else if !s.builds then Err(Plain(BuildFailed))
    else
      match s.reply
      case Refused(status) =>
        if 400 <= status < 500 then Err(Plain(StationRejected)) else Err(Unknown(SubmissionUnknown))
      case Lost => Err(Unknown(SubmissionUnknown))
      case Empty => Err(Plain(EmptyReply))
      case Answered(digest, confirmation) =>
        if digest == "" then Err(Plain(ResponseInvalid))
        else if confirmation.TimedOut? then Err(Unknown(ConfirmationUnknown))
        else if !confirmation.success then Err(Plain(TransactionFailed))
        else Ok(digest)
  }

  predicate Stops(r: Result<string, Failure>) {
    r.Ok? || r.error.code in {TransactionFailed, SubmissionUnknown, ConfirmationUnknown}
  }

  /** The stations contacted: up to and including the first whose attempt stops the failover. */
  function Tried(stations: seq<Station>): (n: nat)
    ensures n <= |stations|
    ensures forall i :: 0 <= i < n - 1 ==> !Stops(Attempt(stations[i]))
    ensures n < |stations| ==> n > 0 && Stops(Attempt(stations[n - 1]))
  {
    if stations == [] then 0
    else if Stops(Attempt(stations[0])) then 1
    else
      var rest := Tried(stations[1..]);
      assert forall i :: 1 <= i < rest ==> stations[i] == stations[1..][i - 1];
      1 + rest
  }

  function Outcome(stations: seq<Station>): Result<string, Failure> {
    var n := Tried(stations);
    if n > 0 && Stops(Attempt(stations[n - 1])) then Attempt(stations[n - 1]) else Err(Plain(Unavailable))
  }

  /** A station is sent its own reservation and nothing left over from an earlier one. */
  function SentTo(station: nat, s: Station, sender: string, budget: nat): Submission
    requires Submits(s)
  {
    Submission(station, sender, s.reservation.value.sponsor, s.reservation.value.coins, budget)
  }

  method ExecuteAtStation(tx: Transaction, index: nat, station: Station, sender: string, budget: nat)
    returns (r: Result<string, Failure>, sent: seq<Submission>)
    modifies tx
    ensures r == Attempt(station)
    ensures sent == if Submits(station) then [SentTo(index, station, sender, budget)] else []
  {
    sent := [];
    if station.reservation.None? {
      return Err(Plain(ReserveFailed)), sent;
    }
    var reservation := station.reservation.value;
    if reservation.sponsor == "" || reservation.id.None? || reservation.coins == [] {
      return Err(Plain(ReservationInvalid)), sent;
    }
    tx.sender := sender;
    tx.gasOwner := reservation.sponsor;
    tx.gasPayment := reservation.coins;
    tx.gasBudget := budget;
    if !station.builds {
      return Err(Plain(BuildFailed)), sent;
    }
    sent := [Submission(index, tx.sender, tx.gasOwner, tx.gasPayment, tx.gasBudget)];
    match station.reply {
      case Refused(status) =>
        r := if 400 <= status < 500 then Err(Plain(StationRejected)) else Err(Unknown(SubmissionUnknown));
      case Lost => r := Err(Unknown(SubmissionUnknown));
      case Empty => r := Err(Plain(EmptyReply));
      case Answered(digest, confirmation) =>
        if digest == "" {
          return Err(Plain(ResponseInvalid)), sent;
        }
        match confirmation {
          case TimedOut => r := Err(Unknown(ConfirmationUnknown));
          case Effects(success) => r := if success then Ok(digest) else Err(Plain(TransactionFailed));
        }
    }
  }

  /** Submissions in order of station. */
  function Submissions(stations: seq<Station>, n: nat, sender: string, budget: nat): seq<Submission>
    requires n <= |stations|
  {
    if n == 0 then []
    else
      Submissions(stations, n - 1, sender, budget)
      + if Submits(stations[n - 1]) then [SentTo(n - 1, stations[n - 1], sender, budget)] else []
  }

  method Execute(stations: seq<Station>, sender: string, budget: nat)
    returns (r: Result<string, Failure>, sent: seq<Submission>)
    ensures r == Outcome(stations)
    ensures sent == Submissions(stations, Tried(stations), sender, budget)
  {
    sent := [];
    for index := 0 to |stations|
      invariant forall i :: 0 <= i < index ==> !Stops(Attempt(stations[i]))
      invariant sent == Submissions(stations, index, sender, budget)
    {
      var tx := new Transaction();
      var attempt, submitted := ExecuteAtStation(tx, index, stations[index], sender, budget);
      sent := sent + submitted;
      if Stops(attempt) {
        TriedIs(stations, index + 1);
        return attempt, sent;
      }
    }
    TriedIs(stations, |stations|);
    r := Err(Plain(Unavailable));
  }

  /** What the n-th station was sent when the program got as far as sending. */
  ghost predicate SentFrom(s: Station, n: nat, x: Submission, sender: string, budget: nat) {
    && s.reservation.Some? && s.builds
    && s.reservation.value.sponsor != "" && s.reservation.value.id != None && s.reservation.value.coins != []
    && x == Submission(n, sender, s.reservation.value.sponsor, s.reservation.value.coins, budget)
  }

  /** Each of the first n stations that gets so far is sent one submission, paid by its own reservation, in order of station. */
  lemma {:induction false} SubmissionsExactly(stations: seq<Station>, n: nat, sender: string, budget: nat)
    requires n <= |stations|
    ensures var sent := Submissions(stations, n, sender, budget);
            && (forall x :: x in sent <==> x.station < n && SentFrom(stations[x.station], x.station, x, sender, budget))
            && (forall i, j :: 0 <= i < j < |sent| ==> sent[i].station < sent[j].station)
  {
    if n > 0 {
      SubmissionsExactly(stations, n - 1, sender, budget);
      var before := Submissions(stations, n - 1, sender, budget);
      assert forall i :: 0 <= i < |before| ==> before[i] in before;
    }
  }

  lemma TriedIs(stations: seq<Station>, n: nat)
    requires n <= |stations|
    requires forall i :: 0 <= i < n - 1 ==> !Stops(Attempt(stations[i]))
    requires n < |stations| ==> n > 0
    requires n > 0 && n < |stations| ==> Stops(Attempt(stations[n - 1]))
    ensures Tried(stations) == n
  {}

  /* ---- Which stations are contacted, and with what outcome ---- */

  /** The call goes on after this station: nothing was submitted, it was refused with a 4xx, or the reply has no digest. */
  ghost predicate GoesOn(s: Station) {
    || s.reservation.None? || s.reservation.value.sponsor == "" || s.reservation.value.id.None? || |s.reservation.value.coins| == 0
    || !s.builds
    || s.reply == Empty || (s.reply.Answered? && s.reply.digest == "") || (s.reply.Refused? && 400 <= s.reply.status <= 499)
  }

  lemma GoesOnExactly(s: Station)
    ensures GoesOn(s) <==> !Stops(Attempt(s))
  {}

  /** Station k is contacted: the call went on after each of those before it. */
  ghost predicate Contacted(stations: seq<Station>, k: int) {
    0 <= k < |stations| && forall i :: 0 <= i < k ==> GoesOn(stations[i])
  }

  lemma ContactedExactly(stations: seq<Station>, k: nat)
    requires k < |stations|
    ensures k < Tried(stations) <==> Contacted(stations, k)
  {
    hide Attempt, GoesOn;
    forall i | 0 <= i < |stations| ensures GoesOn(stations[i]) <==> !Stops(Attempt(stations[i])) {
      GoesOnExactly(stations[i]);
    }
  }

  /** Station k is the last one contacted, and answered in a way that ends the call. */
  ghost predicate EndsAt(stations: seq<Station>, k: int) {
    Contacted(stations, k) && !GoesOn(stations[k])
  }

  lemma EndsExactly(stations: seq<Station>)
    ensures (exists k :: EndsAt(stations, k)) ==> Tried(stations) > 0 && EndsAt(stations, Tried(stations) - 1)
    ensures forall k :: EndsAt(stations, k) ==> k == Tried(stations) - 1 && Outcome(stations) == Attempt(stations[k])
    ensures (forall k :: !EndsAt(stations, k)) ==> Outcome(stations) == Err(Plain(Unavailable))
  {
    hide Attempt, GoesOn;
    var n := Tried(stations);
    forall i | 0 <= i < |stations|
      ensures GoesOn(stations[i]) <==> !Stops(Attempt(stations[i]))
      ensures i < n <==> Contacted(stations, i)
    {
      GoesOnExactly(stations[i]);
      ContactedExactly(stations, i);
    }
    if k :| EndsAt(stations, k) {
      assert k == n - 1;
    }
  }

  ghost predicate SubmissionOpen(s: Station) {
    || s.reply == Lost || (s.reply.Refused? && !(400 <= s.reply.status <= 499))
    || (s.reply.Answered? && s.reply.confirmation == TimedOut)
  }

  /**
   The call succeeds with the digest of the station that confirmed it, fails as the transaction did, reports an unknown
   submission when the last reply left it open, and is unavailable exactly when every station was left.
   */
  lemma OutcomeExactly(stations: seq<Station>, digest: string)
    ensures Outcome(stations) == Ok(digest) <==> exists k :: EndsAt(stations, k) && stations[k].reply == Answered(digest, Effects(true))
    ensures Outcome(stations).Err? && Outcome(stations).error.code == TransactionFailed
            <==> exists k :: EndsAt(stations, k) && stations[k].reply.Answered? && stations[k].reply.confirmation == Effects(false)
    ensures Outcome(stations).Err? && Outcome(stations).error.submissionUnknown
            <==> exists k :: EndsAt(stations, k) && SubmissionOpen(stations[k])
    ensures Outcome(stations) == Err(Failure(Unavailable, false, false)) <==> forall k :: 0 <= k < |stations| ==> GoesOn(stations[k])
    ensures Outcome(stations).Err? ==> !Outcome(stations).error.retryable
  {
    EndsExactly(stations);
    hide Tried, Outcome, Contacted;
    if k :| EndsAt(stations, k) {
      AttemptExactly(stations[k], digest);
      GoesOnEverywhere(stations, k);
    } else {
      AllGoOn(stations);
    }
  }

  /** Why an attempt fails, code by code; only those that may have been submitted say so, and none may simply be retried. */
  lemma CodesExactly(s: Station)
    ensures var r := Attempt(s);
            && (r.Err? ==> !r.error.retryable
                           && (r.error.submissionUnknown <==> r.error.code == SubmissionUnknown || r.error.code == ConfirmationUnknown))
            && (Fails(r, ReserveFailed) <==> s.reservation == None)
            && (Fails(r, ReservationInvalid) <==> s.reservation.Some? && !ReservationValid(s.reservation.value))
            && (Fails(r, BuildFailed) <==> s.reservation.Some? && ReservationValid(s.reservation.value) && !s.builds)
            && (Fails(r, StationRejected) <==> Submits(s) && s.reply.Refused? && 400 <= s.reply.status <= 499)
            && (Fails(r, SubmissionUnknown) <==> Submits(s) && (s.reply == Lost || (s.reply.Refused? && !(400 <= s.reply.status <= 499))))
            && (Fails(r, EmptyReply) <==> Submits(s) && s.reply == Empty)
            && (Fails(r, ResponseInvalid) <==> Submits(s) && s.reply.Answered? && s.reply.digest == "")
            && (Fails(r, ConfirmationUnknown) <==> Submits(s) && s.reply.Answered? && s.reply.digest != "" && s.reply.confirmation == TimedOut)
            && (Fails(r, TransactionFailed) <==> Submits(s) && s.reply.Answered? && s.reply.digest != "" && s.reply.confirmation == Effects(false))
  {}

  ghost predicate Fails(r: Result<string, Failure>, code: Code) {
    r.Err? && r.error.code == code
  }

  lemma AttemptExactly(s: Station, digest: string)
    requires !GoesOn(s)
    ensures Attempt(s) == Ok(digest) <==> s.reply == Answered(digest, Effects(true))
    ensures Attempt(s).Err? && Attempt(s).error.code == TransactionFailed <==> s.reply.Answered? && s.reply.confirmation == Effects(false)
    ensures Attempt(s).Err? && Attempt(s).error.submissionUnknown <==> SubmissionOpen(s)
    ensures Attempt(s).Err? ==> !Attempt(s).error.retryable && Attempt(s).error.code != Unavailable
  {}

  lemma GoesOnEverywhere(stations: seq<Station>, k: int)
    requires EndsAt(stations, k)
    ensures !forall i :: 0 <= i < |stations| ==> GoesOn(stations[i])
  {}

  lemma {:induction false} AllGoOn(stations: seq<Station>)
    requires forall k :: !EndsAt(stations, k)
    ensures forall k :: 0 <= k < |stations| ==> GoesOn(stations[k])
  {
    if k: nat :| k < |stations| && !GoesOn(stations[k]) {
      var i := FirstStop(stations, k);
    }
  }

  lemma {:induction false} FirstStop(stations: seq<Station>, k: nat) returns (i: nat)
    requires k < |stations| && !GoesOn(stations[k])
    ensures EndsAt(stations, i)
  {
    if j: nat :| j < k && !GoesOn(stations[j]) {
      i := FirstStop(stations, j);
    } else {
      i := k;
    }
  }

  /* ---- How often the chain applies the mutation ---- */

  /**
   What the chain may have done, station by station: the program never sees it, but every station's reply must fit. A
   definite failure means not applied, success means applied, and what was never sent is never applied.
   */
  ghost predicate Fits(stations: seq<Station>, applied: seq<bool>) {
    && |applied| == |stations|
    && forall i :: 0 <= i < |stations| ==> (applied[i] ==> MayApply(stations[i])) && (MustApply(stations[i]) ==> applied[i])
  }

  function Applications(applied: seq<bool>, n: nat): nat
    requires n <= |applied|
  {
    if n == 0 then 0 else Applications(applied, n - 1) + if applied[n - 1] then 1 else 0
  }

  lemma {:induction false} NoApplications(applied: seq<bool>, n: nat)
    requires n <= |applied| && forall i :: 0 <= i < n ==> !applied[i]
    ensures Applications(applied, n) == 0
  {
    if n > 0 {
      NoApplications(applied, n - 1);
    }
  }

  lemma {:induction false} SomeApplication(applied: seq<bool>, n: nat, i: nat)
    requires i < n <= |applied| && applied[i]
    ensures Applications(applied, n) >= 1
  {
    if i < n - 1 {
      SomeApplication(applied, n - 1, i);
    }
  }

  lemma {:induction false} TwoApplications(applied: seq<bool>, n: nat, i: nat, j: nat)
    requires i < j < n <= |applied| && applied[i] && applied[j]
    ensures Applications(applied, n) >= 2
  {
    if j < n - 1 {
      TwoApplications(applied, n - 1, i, j);
    } else {
      SomeApplication(applied, n - 1, i);
    }
  }

  lemma {:induction false} OneOfTwo(applied: seq<bool>, n: nat) returns (i: nat, j: nat)
    requires n <= |applied| && Applications(applied, n) >= 2
    ensures i < j < n && applied[i] && applied[j]
  {
    if applied[n - 1] {
      j := n - 1;
      i := LastApplication(applied, n - 1);
    } else {
      i, j := OneOfTwo(applied, n - 1);
    }
  }

  lemma {:induction false} LastApplication(applied: seq<bool>, n: nat) returns (i: nat)
    requires n <= |applied| && Applications(applied, n) >= 1
    ensures i < n && applied[i]
  {
    if applied[n - 1] {
      i := n - 1;
    } else {
      i := LastApplication(applied, n - 1);
    }
  }

  /** A station that is left behind can have applied the mutation only if its 2xx reply carried no digest. */
  lemma LeftBehind(s: Station)
    requires !Stops(Attempt(s))
    ensures MayApply(s) <==> Undigested(s)
  {}

  /** The chain applied what `i` and `j` were sent, and otherwise only what it must have. */
  ghost function AppliedAt(stations: seq<Station>, i: nat, j: nat): seq<bool> {
    seq(|stations|, k requires 0 <= k < |stations| => k == i || k == j || MustApply(stations[k]))
  }

  lemma AppliedAtFits(stations: seq<Station>, i: nat, j: nat)
    requires i < |stations| && j < |stations| && MayApply(stations[i]) && MayApply(stations[j])
    ensures Fits(stations, AppliedAt(stations, i, j))
  {}

  /** A station is left behind on a 2xx reply without a digest, and a later reply does not rule out an application. */
  predicate FailsOverUndigested(stations: seq<Station>) {
    exists i, j :: 0 <= i < j < Tried(stations) && Undigested(stations[i]) && MayApply(stations[j])
  }

  /** The replies of a call guarantee at most one application exactly when no such failover happened. */
  lemma AppliedOnceExactly(stations: seq<Station>)
    ensures (forall applied :: Fits(stations, applied) ==> Applications(applied, Tried(stations)) <= 1)
            <==> !FailsOverUndigested(stations)
  {
    hide MayApply, MustApply, Attempt, Stops, Undigested;
    var n := Tried(stations);
    if FailsOverUndigested(stations) {
      var i, j :| 0 <= i < j < n && Undigested(stations[i]) && MayApply(stations[j]);
      LeftBehind(stations[i]);
      var applied := AppliedAt(stations, i, j);
      AppliedAtFits(stations, i, j);
      TwoApplications(applied, n, i, j);
    } else {
      forall applied | Fits(stations, applied)
        ensures Applications(applied, n) <= 1
      {
        if Applications(applied, n) >= 2 {
          var i, j := OneOfTwo(applied, n);
          LeftBehind(stations[i]);
        }
      }
    }
  }

  /** One call, two honest replies, two applications, and success is reported. */
  lemma DigestlessFailoverAppliesTwice() returns (stations: seq<Station>, applied: seq<bool>)
    ensures Fits(stations, applied) && Applications(applied, Tried(stations)) == 2 && Outcome(stations).Ok?
  {
    var gas := Some(Reservation("sponsor", Some(1), [7]));
    var quiet := Station(gas, true, Answered("", TimedOut));
    var clear := Station(gas, true, Answered("d", Effects(true)));
    stations, applied := [quiet, clear], [true, true];
    assert stations[1..] == [clear];
    assert Tried([clear]) == 1;
    assert Tried(stations) == 2;
    assert Applications(applied, 1) == 1;
  }

  /* ---- What the caller learns ---- */

  /** Applied at most once; success means applied, and an error that is not flagged as unknown means not applied. */
  predicate TellsTruth(r: Result<string, Failure>, applications: nat) {
    && applications <= 1
    && (r.Ok? ==> applications == 1)
    && (r.Err? && !r.error.submissionUnknown ==> applications == 0)
  }

  predicate SawUndigested(stations: seq<Station>) {
    exists i :: 0 <= i < Tried(stations) && Undigested(stations[i])
  }

  /** The outcome of a call can be trusted, whatever the chain did, exactly when every 2xx reply it saw carried a digest. */
  lemma OutcomeIsTrue(stations: seq<Station>)
    ensures (forall applied :: Fits(stations, applied) ==> TellsTruth(Outcome(stations), Applications(applied, Tried(stations))))
            <==> !SawUndigested(stations)
  {
    hide MayApply, MustApply, Attempt, Stops, Undigested, TellsTruth;
    if SawUndigested(stations) {
      var i: nat :| i < Tried(stations) && Undigested(stations[i]);
      UndigestedMisleads(stations, i);
    } else {
      forall applied | Fits(stations, applied)
        ensures TellsTruth(Outcome(stations), Applications(applied, Tried(stations)))
      {
        var count := OnlyLastApplies(stations, applied);
        LastTells(stations, count);
      }
    }
  }

  /** Without a digest-less reply, only the last station tried can have applied anything. */
  lemma OnlyLastApplies(stations: seq<Station>, applied: seq<bool>) returns (count: nat)
    requires Fits(stations, applied) && !SawUndigested(stations)
    ensures count == Applications(applied, Tried(stations))
    ensures var n := Tried(stations);
            count == if n > 0 && applied[n - 1] then 1 else 0
  {
    hide MayApply, MustApply, Attempt, Stops, Undigested;
    var n := Tried(stations);
    count := Applications(applied, n);
    forall i: nat | i + 1 < n
      ensures !applied[i]
    {
      LeftBehind(stations[i]);
    }
    if n > 0 {
      NoApplications(applied, n - 1);
    }
  }

  /** What the last reply says about that application. */
  lemma LastTells(stations: seq<Station>, count: nat)
    requires !SawUndigested(stations) && count <= 1
    requires Tried(stations) == 0 ==> count == 0
    requires Tried(stations) > 0 ==>
               var last := stations[Tried(stations) - 1];
               (count == 1 ==> MayApply(last)) && (MustApply(last) ==> count == 1)
    ensures TellsTruth(Outcome(stations), count)
  {}

  /** A digest-less reply leaves room for an application that the outcome does not speak of. */
  lemma UndigestedMisleads(stations: seq<Station>, i: nat)
    requires i < Tried(stations) && Undigested(stations[i])
    ensures exists applied :: Fits(stations, applied) && !TellsTruth(Outcome(stations), Applications(applied, Tried(stations)))
  {
    hide MustApply;
    var n := Tried(stations);
    var j := if MayApply(stations[n - 1]) then n - 1 else i;
    var applied := AppliedAt(stations, i, j);
    AppliedAtFits(stations, i, j);
    SomeApplication(applied, n, i);
    if i < j {
      TwoApplications(applied, n, i, j);
    }
  }

  /** The publisher passes every error on except a failed transaction, whose message decides both details again. */
  function Published(r: Result<string, Failure>, message: Failure): Result<string, Failure> {
    if r.Err? && r.error.code == TransactionFailed then Err(message) else r
  }

  /** What the queue concludes from what was published: at most one application, and none before it retries. */
  lemma PublishedIsTrue(stations: seq<Station>, applied: seq<bool>, message: Failure)
    requires Fits(stations, applied) && !SawUndigested(stations)
    ensures var count := Applications(applied, Tried(stations));
            var r := Published(Outcome(stations), message);
            && count <= 1
            && (r.Ok? ==> count == 1)
            && (r.Err? && r.error.retryable && !r.error.submissionUnknown ==> count == 0)
  {
    hide MayApply, MustApply, Undigested;
    OutcomeIsTrue(stations);
    assert TellsTruth(Outcome(stations), Applications(applied, Tried(stations)));
  }
}
