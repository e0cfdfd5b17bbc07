/** The off-chain access policy of one Twin: its fail-closed two-phase update and the reads that depend on it. */
module SharingUpdate {
  import opened Wrappers
  import A = AccessPolicy

  /* Updates are queued in one process; the chain is read and changed by others at any time. */

  datatype Mode = Private | Restricted | Public

  /** The stored file. `storage` is None in the closed policy written before the chain is changed. */
  datatype Policy = Policy(mode: Mode, allowed: seq<string>, storage: Option<seq<string>>, ownerDid: string, revision: nat, pending: bool)

  /** What the chain says about the Twin. */
  datatype Fields = Fields(ownerDid: string, stewardDid: string, dataMode: Mode)

  datatype StorageInput = Unchanged | NotAList | Listed(dids: seq<Option<string>>)

  /**
   An update request. A mode or visibility that is not one of the known words, and a DID that is not valid, is None;
   `allowed` is None when it is not a list.
   */
  datatype Input = Input(
    mode: Option<Mode>, twinPublic: Option<bool>, locationPublic: Option<bool>,
    allowed: Option<seq<Option<string>>>, storage: StorageInput, revision: Option<nat>)

  datatype UpdateError =
    | NotOwner | InvalidMode | PublicNeedsPublicTwin | TooManyDids | InvalidDid | NoReaders | RevisionChanged
    | InvalidStorage | StorageNeedsRealtime | MutationFailed

  /* ---- Checking a request ---- */

  function Dedup(s: seq<string>): (r: seq<string>)
    ensures forall x :: x in r <==> x in s
    ensures forall i, j :: 0 <= i < j < |r| ==> r[i] != r[j]
  {
    if s == [] then []
    else
      var last := s[|s| - 1];
      var rest := Dedup(s[..|s| - 1]);
      assert s == s[..|s| - 1] + [last];
      if last in rest then rest else rest + [last]
  }

  predicate AllValid(dids: seq<Option<string>>) {
    forall i :: 0 <= i < |dids| ==> dids[i].Some?
  }

  function Values(dids: seq<Option<string>>): seq<string>
    requires AllValid(dids)
  {
    seq(|dids|, i requires 0 <= i < |dids| => dids[i].value)
  }

  function Kept(dids: seq<string>, allowed: seq<string>): seq<string> {
    if dids == [] then []
    else
      var last := dids[|dids| - 1];
      Kept(dids[..|dids| - 1], allowed) + if last in allowed then [last] else []
  }

  predicate Subset(a: seq<string>, b: seq<string>) {
    forall x :: x in a ==> x in b
  }

  /** The storage readers a request asks for: named, or those kept from the same owner's current policy. */
  function Requested(input: Input, current: Option<Policy>, ownerDid: string, allowed: seq<string>): Result<seq<string>, UpdateError> {
    match input.storage
    case NotAList => Err(InvalidStorage)
    case Listed(dids) =>
      if |dids| > 100 then Err(InvalidStorage) else if !AllValid(dids) then Err(InvalidDid) else Ok(Dedup(Values(dids)))
    case Unchanged =>
      var kept := if current.Some? && current.value.ownerDid == ownerDid && current.value.storage.Some?
                  then Kept(current.value.storage.value, allowed) else [];
      if |kept| > 100 then Err(InvalidStorage) else Ok(Dedup(kept))
  }

  /** The closed policy that is written before the chain is changed. */
  function Closed(ownerDid: string, revision: nat): Policy {
    Policy(Private, [], None, ownerDid, revision, true)
  }

  /** The policy an update ends with, or why the request is refused. */
  function Checked(input: Input, did: string, fields: Fields, current: Option<Policy>, revision: nat): Result<Policy, UpdateError> {
    if fields.ownerDid != did then Err(NotOwner)
    else if input.mode.None? || input.twinPublic.None? || input.locationPublic.None? then Err(InvalidMode)
    else if input.mode.value.Public? && !input.twinPublic.value then Err(PublicNeedsPublicTwin)
    else if input.allowed.None? || |input.allowed.value| > 100 then Err(TooManyDids)
    else if !AllValid(input.allowed.value) then Err(InvalidDid)
    else
      var allowed := Dedup(Values(input.allowed.value));
      if input.mode.value.Restricted? && allowed == [] then Err(NoReaders)
      else if input.revision != (if current.None? then None else Some(current.value.revision)) then Err(RevisionChanged)
      else
        var storage := Requested(input, current, fields.ownerDid, allowed);
        if storage.Err? then Err(storage.error)
        else if !Subset(storage.value, allowed) then Err(StorageNeedsRealtime)
        else
          var shared := input.mode.value.Restricted?;
          Ok(Policy(input.mode.value, if shared then allowed else [], Some(if shared then storage.value else []), fields.ownerDid, revision, false))
  }

  /** What reading the file back insists on. */
  predicate Readable(p: Policy) {
    p.storage.Some? ==> Subset(p.storage.value, p.allowed)
  }

  /** Whatever an update writes can be read back. */
  lemma WrittenIsReadable(input: Input, did: string, fields: Fields, current: Option<Policy>, revision: nat)
    ensures Readable(Closed(fields.ownerDid, revision))
    ensures Checked(input, did, fields, current, revision).Ok? ==> Readable(Checked(input, did, fields, current, revision).value)
  {}

  /* ---- One update that nothing interrupts ---- */

  class PolicyFile {
    var stored: Option<Policy>

    constructor ()
      ensures stored == None
    {
      stored := None;
    }

    /** Keeps the first of equal DIDs. */
    method Distinct(dids: seq<string>) returns (r: seq<string>)
      ensures r == Dedup(dids)
    {
      r := [];
      for i := 0 to |dids|
        invariant r == Dedup(dids[..i])
      {
        assert dids[..i + 1][..i] == dids[..i];
        if dids[i] !in r {
          r := r + [dids[i]];
        }
      }
      assert dids[..|dids|] == dids;
    }

    /**
     Writes the closed policy, changes the chain (`applied` tells whether that succeeded), then opens the new policy.
     A refused request leaves the file alone and a failed mutation leaves it closed.
     */
    method Update(input: Input, did: string, fields: Fields, revision: nat, applied: bool) returns (r: Result<Policy, UpdateError>)
      modifies this
      ensures var checked := Checked(input, did, fields, old(stored), revision);
              if checked.Err? then r == checked && stored == old(stored)
              else if !applied then r == Err(MutationFailed) && stored == Some(Closed(did, revision))
              else r == checked && stored == Some(checked.value)
    {
      if fields.ownerDid != did {
        return Err(NotOwner);
      }
      if input.mode.None? || input.twinPublic.None? || input.locationPublic.None? {
        return Err(InvalidMode);
      }
      if input.mode.value.Public? && !input.twinPublic.value {
        return Err(PublicNeedsPublicTwin);
      }
      if input.allowed.None? || |input.allowed.value| > 100 {
        return Err(TooManyDids);
      }
      if !AllValid(input.allowed.value) {
        return Err(InvalidDid);
      }
      var allowed := Distinct(Values(input.allowed.value));
      if input.mode.value.Restricted? && allowed == [] {
        return Err(NoReaders);
      }
      if input.revision != (if stored.None? then None else Some(stored.value.revision)) {
        return Err(RevisionChanged);
      }
      var requested := Requested(input, stored, fields.ownerDid, allowed);
      if requested.Err? {
        return Err(requested.error);
      }
      if !Subset(requested.value, allowed) {
        return Err(StorageNeedsRealtime);
      }
      stored := Some(Closed(fields.ownerDid, revision));
      if !applied {
        return Err(MutationFailed);
      }
      var shared := input.mode.value.Restricted?;
      var next := Policy(input.mode.value, if shared then allowed else [], Some(if shared then requested.value else []), fields.ownerDid, revision, false);
      stored := Some(next);
      r := Ok(next);
    }
  }

  /** Distinct DIDs stay in the order in which they first occur: entry j never occurs before entry i does. */
  lemma {:induction false} DedupKeepsOrder(s: seq<string>, i: nat, j: nat) returns (p: nat)
    requires i < j < |Dedup(s)|
    ensures p < |s| && s[p] == Dedup(s)[i] && forall q :: 0 <= q < |s| && s[q] == Dedup(s)[j] ==> p < q
  {
    var rest := s[..|s| - 1];
    if j < |Dedup(rest)| {
      p := DedupKeepsOrder(rest, i, j);
    } else {
      assert Dedup(rest)[i] in rest;
      p :| p < |rest| && rest[p] == Dedup(rest)[i];
      assert Dedup(s)[j] == s[|s| - 1] && s[|s| - 1] !in rest;
      forall q | 0 <= q < |rest| ensures s[q] != s[|s| - 1] {
        assert s[q] == rest[q] && rest[q] in rest;
      }
    }
  }

  /* ---- Reads ---- */

  datatype Scope = Discover | Realtime | Storage | Export | Location | Evidence

  function Bit(scope: Scope): bv8 {
    match scope
    case Discover => 0
    case Realtime => 1
    case Storage => 2
    case Export => 4
    case Location => 8
    case Evidence => 16
  }

  /** The bits are those of the on-chain policies: one each, none for discovery, and storage is their history. */
  lemma BitsAgree()
    ensures Bit(Discover) == 0 && Bit(Realtime) == A.REALTIME && Bit(Storage) == A.HISTORY && Bit(Export) == A.EXPORT
    ensures Bit(Location) == A.LOCATION && Bit(Evidence) == A.EVIDENCE
  {}

  predicate StorageReader(p: Policy, did: string) {
    p.storage.Some? && did in p.storage.value
  }

  /** The scopes a DID gets, or None when it is denied. */
  function Authorize(stored: Option<Policy>, fields: Fields, did: string, scope: Scope): Option<bv8> {
    if stored.None? || stored.value.pending || !stored.value.mode.Restricted? || !fields.dataMode.Restricted?
       || stored.value.ownerDid != fields.ownerDid
    then None
    else
      var p := stored.value;
      if did !in p.allowed && did != fields.ownerDid && did != fields.stewardDid then None
      else if scope in {Storage, Export} && did != fields.ownerDid && !(did in p.allowed && StorageReader(p, did)) then None
      else if scope in {Location, Evidence} && did != fields.ownerDid then None
      else Some(if did == fields.ownerDid then 31 else if StorageReader(p, did) then 7 else 1)
  }

  /** A scope is granted exactly when the DID may discover the Twin and the scope's bit is among its rights. */
  lemma ScopesAreExact(p: Policy, fields: Fields, did: string, scope: Scope)
    requires Readable(p)
    ensures Authorize(Some(p), fields, did, scope) ==
            match Authorize(Some(p), fields, did, Discover)
            case None => None
            case Some(scopes) => if Bit(scope) == 0 || scopes & Bit(scope) != 0 then Some(scopes) else None
  {}

  /** The storage readers an accepted request ends with. */
  predicate StorageGranted(input: Input, current: Option<Policy>, ownerDid: string, did: string) {
    match input.storage
    case Listed(dids) => Named(dids, did)
    case Unchanged => current.Some? && current.value.ownerDid == ownerDid && StorageReader(current.value, did)
    case NotAList => false
  }

  predicate Named(dids: seq<Option<string>>, did: string) {
    exists i :: 0 <= i < |dids| && dids[i] == Some(did)
  }

  lemma {:induction false} KeptMembers(dids: seq<string>, allowed: seq<string>)
    ensures forall d :: d in Kept(dids, allowed) <==> d in dids && d in allowed
  {
    if dids != [] {
      KeptMembers(dids[..|dids| - 1], allowed);
      assert dids == dids[..|dids| - 1] + [dids[|dids| - 1]];
    }
  }

  lemma ValuesMembers(dids: seq<Option<string>>, did: string)
    requires AllValid(dids)
    ensures did in Values(dids) <==> Named(dids, did)
  {
    if i :| 0 <= i < |dids| && dids[i] == Some(did) {
      assert Values(dids)[i] == did;
    }
  }

  /** How many of the stored readers the request still names. */
  ghost function StillNamed(dids: seq<string>, input: Input): set<int>
    requires input.allowed.Some?
  {
    set i | 0 <= i < |dids| && Named(input.allowed.value, dids[i])
  }

  lemma {:induction false} KeptCounts(dids: seq<string>, input: Input, allowed: seq<string>)
    requires input.allowed.Some? && forall d :: d in allowed <==> Named(input.allowed.value, d)
    ensures |Kept(dids, allowed)| == |StillNamed(dids, input)|
  {
    if dids != [] {
      var n := |dids| - 1;
      KeptCounts(dids[..n], input, allowed);
      hide Named;
      assert StillNamed(dids, input) == StillNamed(dids[..n], input) + if Named(input.allowed.value, dids[n]) then {n} else {};
    }
  }

  /** The storage readers of the request are few enough, valid, and all among its readers. */
  ghost predicate StorageFits(input: Input, current: Option<Policy>, ownerDid: string)
    requires input.allowed.Some?
  {
    match input.storage
    case NotAList => false
    case Listed(dids) =>
      |dids| <= 100 && forall i :: 0 <= i < |dids| ==> dids[i].Some? && Named(input.allowed.value, dids[i].value)
    case Unchanged =>
      current.Some? && current.value.ownerDid == ownerDid && current.value.storage.Some?
      ==> |StillNamed(current.value.storage.value, input)| <= 100
  }

  lemma NamedMembers(dids: seq<Option<string>>)
    requires AllValid(dids)
    ensures forall d :: d in Dedup(Values(dids)) <==> Named(dids, d)
  {
    hide Dedup, Values;
    forall d ensures d in Values(dids) <==> Named(dids, d) {
      ValuesMembers(dids, d);
    }
  }

  lemma StorageChecked(input: Input, current: Option<Policy>, ownerDid: string)
    requires input.allowed.Some? && AllValid(input.allowed.value)
    ensures var allowed := Dedup(Values(input.allowed.value));
            var storage := Requested(input, current, ownerDid, allowed);
            (storage.Ok? && Subset(storage.value, allowed)) <==> StorageFits(input, current, ownerDid)
  {
    hide Dedup, Values, Kept;
    var allowed := Dedup(Values(input.allowed.value));
    NamedMembers(input.allowed.value);
    match input.storage
    case NotAList =>
    case Listed(dids) =>
      if AllValid(dids) {
        NamedMembers(dids);
        if |dids| <= 100 {
          forall i | 0 <= i < |dids| ensures dids[i].value in Dedup(Values(dids)) {
            assert Named(dids, dids[i].value);
          }
        }
      }
    case Unchanged =>
      if current.Some? && current.value.storage.Some? {
        KeptMembers(current.value.storage.value, allowed);
        KeptCounts(current.value.storage.value, input, allowed);
      }
  }

  /** The owner asks for a consistent policy on top of the current one. */
  ghost predicate Acceptable(input: Input, did: string, fields: Fields, current: Option<Policy>) {
    && did == fields.ownerDid && input.mode.Some? && input.twinPublic.Some? && input.locationPublic.Some?
    && (input.mode == Some(Public) ==> input.twinPublic == Some(true))
    && input.allowed.Some? && |input.allowed.value| <= 100 && (forall i :: 0 <= i < |input.allowed.value| ==> input.allowed.value[i].Some?)
    && (input.mode == Some(Restricted) ==> |input.allowed.value| > 0)
    && (match current case None => input.revision == None case Some(p) => input.revision == Some(p.revision))
    && StorageFits(input, current, fields.ownerDid)
  }

  /** A request is accepted exactly when it is acceptable; what it ends with is open, of its own revision, and names what it asked for. */
  lemma CheckedExactly(input: Input, did: string, fields: Fields, current: Option<Policy>, revision: nat)
    ensures var r := Checked(input, did, fields, current, revision);
            && (r.Ok? <==> Acceptable(input, did, fields, current))
            && (r.Ok? ==>
                  && r.value.mode == input.mode.value && r.value.ownerDid == did && r.value.revision == revision && !r.value.pending
                  && (forall d :: d in r.value.allowed <==> input.mode == Some(Restricted) && Named(input.allowed.value, d)))
  {
    hide Dedup, Values, Requested, Subset;
    if input.allowed.Some? && AllValid(input.allowed.value) {
      StorageChecked(input, current, fields.ownerDid);
      NamedMembers(input.allowed.value);
      EmptyWhenNone(input.allowed.value);
    }
  }

  /** The requirements of an update in the order in which they are checked, and whether a request violates one of them. */
  const REQUIREMENTS := [NotOwner, InvalidMode, PublicNeedsPublicTwin, TooManyDids, InvalidDid, NoReaders, RevisionChanged]

  ghost predicate Violates(input: Input, did: string, fields: Fields, current: Option<Policy>, error: UpdateError) {
    match error
    case NotOwner => did != fields.ownerDid
    case InvalidMode => !(input.mode.Some? && input.twinPublic.Some? && input.locationPublic.Some?)
    case PublicNeedsPublicTwin => input.mode == Some(Public) && input.twinPublic == Some(false)
    case TooManyDids => match input.allowed { case None => true case Some(dids) => |dids| >= 101 }
    case InvalidDid => match input.allowed { case None => false case Some(dids) => exists i :: 0 <= i < |dids| && dids[i] == None }
    case NoReaders => input.mode == Some(Restricted) && input.allowed == Some([])
    case RevisionChanged => match current { case None => input.revision != None case Some(p) => input.revision != Some(p.revision) }
    case _ => false
  }

  lemma InvalidDidViolated(input: Input, did: string, fields: Fields, current: Option<Policy>)
    ensures Violates(input, did, fields, current, InvalidDid) <==> input.allowed.Some? && !AllValid(input.allowed.value)
    ensures input.allowed.Some? && AllValid(input.allowed.value) ==>
              (Dedup(Values(input.allowed.value)) == [] <==> input.allowed == Some([]))
  {
    hide Dedup, Values;
    if input.allowed.Some? && AllValid(input.allowed.value) {
      EmptyWhenNone(input.allowed.value);
    }
  }

  /** A request is refused for the first requirement it violates. */
  lemma RefusedForFirst(input: Input, did: string, fields: Fields, current: Option<Policy>, revision: nat, k: nat)
    requires k < |REQUIREMENTS| && Violates(input, did, fields, current, REQUIREMENTS[k])
    requires forall j :: 0 <= j < k ==> !Violates(input, did, fields, current, REQUIREMENTS[j])
    ensures Checked(input, did, fields, current, revision) == Err(REQUIREMENTS[k])
  {
    hide Dedup, Values, Requested, Subset, AllValid;
    InvalidDidViolated(input, did, fields, current);
    assert forall j :: 0 <= j < k ==> !Violates(input, did, fields, current, REQUIREMENTS[j]);
    NoneBefore(input, did, fields, current, k);
  }

  lemma NoneBefore(input: Input, did: string, fields: Fields, current: Option<Policy>, k: nat)
    requires k <= |REQUIREMENTS| && forall j :: 0 <= j < k ==> !Violates(input, did, fields, current, REQUIREMENTS[j])
    ensures k > 0 ==> !Violates(input, did, fields, current, NotOwner)
    ensures k > 1 ==> !Violates(input, did, fields, current, InvalidMode)
    ensures k > 2 ==> !Violates(input, did, fields, current, PublicNeedsPublicTwin)
    ensures k > 3 ==> !Violates(input, did, fields, current, TooManyDids)
    ensures k > 4 ==> !Violates(input, did, fields, current, InvalidDid)
    ensures k > 5 ==> !Violates(input, did, fields, current, NoReaders)
    ensures k > 6 ==> !Violates(input, did, fields, current, RevisionChanged)
  {
    hide Violates;
    assert REQUIREMENTS[0] == NotOwner && REQUIREMENTS[1] == InvalidMode && REQUIREMENTS[2] == PublicNeedsPublicTwin;
    assert REQUIREMENTS[3] == TooManyDids && REQUIREMENTS[4] == InvalidDid && REQUIREMENTS[5] == NoReaders && REQUIREMENTS[6] == RevisionChanged;
  }

  /** A request that violates none of them is refused exactly for the storage readers it names or keeps. */
  lemma RefusedForStorage(input: Input, did: string, fields: Fields, current: Option<Policy>, revision: nat)
    requires input.allowed.Some? && AllValid(input.allowed.value)
    requires forall j :: 0 <= j < |REQUIREMENTS| ==> !Violates(input, did, fields, current, REQUIREMENTS[j])
    ensures var r := Checked(input, did, fields, current, revision);
            && (r.Err? <==> !StorageFits(input, current, fields.ownerDid))
            && (r == Err(InvalidDid) <==> match input.storage { case Listed(dids) => |dids| <= 100 && !AllValid(dids) case _ => false })
            && (r == Err(InvalidStorage) <==>
                  match input.storage {
                    case NotAList => true
                    case Listed(dids) => |dids| >= 101
                    case Unchanged => current.Some? && current.value.ownerDid == fields.ownerDid && current.value.storage.Some?
                                      && |Kept(current.value.storage.value, Dedup(Values(input.allowed.value)))| > 100
                  })
            && (r.Err? ==> r.error in {InvalidDid, InvalidStorage, StorageNeedsRealtime})
  {
    hide Dedup, Values, Subset, Kept, AllValid, StorageFits;
    assert |REQUIREMENTS| == 7;
    NoneBefore(input, did, fields, current, 7);
    InvalidDidViolated(input, did, fields, current);
    CheckedExactly(input, did, fields, current, revision);
    AcceptableButStorage(input, did, fields, current);
  }

  lemma AcceptableButStorage(input: Input, did: string, fields: Fields, current: Option<Policy>)
    requires input.allowed.Some? && AllValid(input.allowed.value)
    requires forall j :: 0 <= j < |REQUIREMENTS| ==> !Violates(input, did, fields, current, REQUIREMENTS[j])
    ensures Acceptable(input, did, fields, current) <==> StorageFits(input, current, fields.ownerDid)
  {
    hide StorageFits;
    assert |REQUIREMENTS| == 7;
    NoneBefore(input, did, fields, current, 7);
    if input.twinPublic.value {
      assert input.twinPublic == Some(true);
    } else {
      assert input.twinPublic == Some(false);
    }
    assert |input.allowed.value| == 0 ==> input.allowed == Some([]);
  }

  lemma EmptyWhenNone(dids: seq<Option<string>>)
    requires AllValid(dids)
    ensures Dedup(Values(dids)) == [] <==> dids == []
  {
    hide Dedup, Values;
    NamedMembers(dids);
    if dids != [] {
      assert Named(dids, dids[0].value);
    } else if Dedup(Values(dids)) != [] {
      assert Dedup(Values(dids))[0] in Dedup(Values(dids));
    }
  }

  /**
   What a successful update grants: nothing under a mode that is not restricted on both sides; else realtime to exactly the
   named DIDs, the owner and the steward, storage and export to exactly the owner and the named DIDs that were asked for or
   keep it from the same owner's policy, and location and evidence to the owner alone.
   */
  lemma UpdateGrantsExactly(input: Input, requester: string, fields: Fields, current: Option<Policy>, revision: nat, did: string, scope: Scope)
    requires Checked(input, requester, fields, current, revision).Ok?
    ensures var p := Some(Checked(input, requester, fields, current, revision).value);
            var named := Named(input.allowed.value, did);
            Authorize(p, fields, did, scope).Some? <==>
              && input.mode == Some(Restricted) && fields.dataMode.Restricted?
              && (did == requester
                  || (scope in {Discover, Realtime} && (did == fields.stewardDid || named))
                  || (scope in {Storage, Export} && named && StorageGranted(input, current, requester, did)))
  {
    hide Dedup, Kept, Values;
    var allowed := Dedup(Values(input.allowed.value));
    ValuesMembers(input.allowed.value, did);
    if input.storage.Listed? {
      ValuesMembers(input.storage.dids, did);
    }
    if current.Some? && current.value.storage.Some? {
      KeptMembers(current.value.storage.value, allowed);
    }
  }

  /* ---- Every interleaving in one process ---- */

  datatype Request = Request(did: string, input: Input)

  /** Where the update at the head of the queue is: it awaits the Twin, then the file, then three writes. */
  datatype Phase =
    | Idle
    | ReadTwin(request: Request)
    | ReadFile(request: Request, fields: Fields)
    | WriteClosed(base: Option<nat>, final: Policy)
    | Mutate(base: Option<nat>, final: Policy)
    | WriteFinal(base: Option<nat>, final: Policy)

  datatype Success = Success(base: Option<nat>, revision: nat)

  /** `successes` records base and new revision of every update that succeeded; `next` is the next unused revision. */
  datatype State = State(
    stored: Option<Policy>, fields: Fields, queue: seq<Request>, phase: Phase, next: nat,
    successes: seq<Success>)

  datatype Action =
    | Submit(request: Request)
    | Begin
    | Proceed
    | Fail
    | Crash
    | ChainChange(fields: Fields)

  function Base(stored: Option<Policy>): Option<nat> {
    if stored.None? then None else Some(stored.value.revision)
  }

  /** The running update's next segment. */
  function Advance(s: State): State {
    match s.phase
    case Idle => s
    case ReadTwin(request) => s.(phase := ReadFile(request, s.fields))
    case ReadFile(request, fields) =>
      var checked := Checked(request.input, request.did, fields, s.stored, s.next);
      if checked.Err? then s.(phase := Idle, next := s.next + 1)
      else s.(phase := WriteClosed(Base(s.stored), checked.value), next := s.next + 1)
    case WriteClosed(base, final) => s.(stored := Some(Closed(final.ownerDid, final.revision)), phase := Mutate(base, final))
    case Mutate(base, final) => s.(phase := WriteFinal(base, final))
    case WriteFinal(base, final) =>
      s.(stored := Some(final), phase := Idle, successes := s.successes + [Success(base, final.revision)])
  }

  /** Fail is any await of the running update throwing; Crash restarts the process, which keeps only the file. */
  function Step(s: State, a: Action): State {
    match a
    case Submit(request) => s.(queue := s.queue + [request])
    case Begin => if s.phase.Idle? && s.queue != [] then s.(queue := s.queue[1..], phase := ReadTwin(s.queue[0])) else s
    case Proceed => Advance(s)
    case Fail => s.(phase := Idle)
    case Crash => s.(phase := Idle, queue := [])
    case ChainChange(fields) => s.(fields := fields)
  }

  function Run(s: State, actions: seq<Action>): State {
    if actions == [] then s else Step(Run(s, actions[..|actions| - 1]), actions[|actions| - 1])
  }

  predicate Initial(s: State) {
    s.stored == None && s.queue == [] && s.phase == Idle && s.next == 0 && s.successes == []
  }

  predicate Before(base: Option<nat>, revision: nat) {
    base.Some? ==> base.value < revision
  }

  predicate AtMost(success: Success, limit: Option<nat>) {
    limit.Some? && success.revision <= limit.value
  }

  /** Every success is at most as young as the limit. */
  predicate Aged(successes: seq<Success>, limit: Option<nat>) {
    forall i :: 0 <= i < |successes| ==> AtMost(successes[i], limit)
  }

  /** Each success is younger than its base, and its base at least as young as every earlier success. */
  predicate Chained(successes: seq<Success>) {
    && (forall i :: 0 <= i < |successes| ==> Before(successes[i].base, successes[i].revision))
    && (forall i, j :: 0 <= i < j < |successes| ==> AtMost(successes[i], successes[j].base))
  }

  predicate Ordered(s: State) {
    Chained(s.successes) && Aged(s.successes, Base(s.stored)) && (s.stored.Some? ==> s.stored.value.revision < s.next)
  }

  /** The update in its writing phases has a revision of its own and a base as young as every success so far. */
  predicate WritingOk(s: State, base: Option<nat>, final: Policy) {
    && final.revision < s.next && Before(base, final.revision)
    && !final.pending && Readable(final)
    && Aged(s.successes, base)
  }

  predicate Good(s: State) {
    && (s.stored.Some? ==> Readable(s.stored.value))
    && Ordered(s)
    && match s.phase
       case WriteClosed(base, final) => WritingOk(s, base, final) && Base(s.stored) == base
       case Mutate(base, final) => WritingOk(s, base, final) && s.stored == Some(Closed(final.ownerDid, final.revision))
       case WriteFinal(base, final) => WritingOk(s, base, final) && s.stored == Some(Closed(final.ownerDid, final.revision))
       case _ => true
  }

  lemma {:induction false} EveryRunGood(s: State, actions: seq<Action>)
    requires Initial(s)
    ensures Good(Run(s, actions))
  {
    hide Advance, Good;
    if actions == [] {
      assert Good(s) by { StartGood(s); }
    } else {
      EveryRunGood(s, actions[..|actions| - 1]);
      StepKeepsGood(Run(s, actions[..|actions| - 1]), actions[|actions| - 1]);
    }
  }

  lemma StartGood(s: State)
    requires Initial(s)
    ensures Good(s)
  {}

  lemma StepKeepsGood(s: State, a: Action)
    requires Good(s)
    ensures Good(Step(s, a))
  {}

  /** Nothing interrupting it, an acceptable request at the head of the queue ends in the policy it asks for, and counts as a success. */
  lemma UpdateCompletes(s: State, request: Request) returns (actions: seq<Action>)
    requires s.phase.Idle? && s.queue != [] && s.queue[0] == request
    requires Checked(request.input, request.did, s.fields, s.stored, s.next).Ok?
    ensures var n := Run(s, actions);
            && n.stored == Some(Checked(request.input, request.did, s.fields, s.stored, s.next).value)
            && n.phase == Idle && n.queue == s.queue[1..]
            && n.successes == s.successes + [Success(Base(s.stored), s.next)]
  {
    hide Checked, Run, Step;
    actions := [Begin, Proceed, Proceed, Proceed, Proceed, Proceed];
    SixSteps(s, Begin);
    CheckedRevision(request.input, request.did, s.fields, s.stored, s.next);
    AcceptedSteps(s, request);
  }

  /**
   How an update ends otherwise: a refused or failing one makes way for the next, a crash for none, and none touches the file.
   A submitted request waits behind all others.
   */
  lemma UpdateStops(s: State, request: Request)
    ensures s.phase == ReadTwin(request) && Checked(request.input, request.did, s.fields, s.stored, s.next).Err? ==>
              Halted(s, Step(Step(s, Proceed), Proceed), s.queue)
    ensures Halted(s, Step(s, Fail), s.queue)
    ensures Halted(s, Step(s, Crash), [])
    ensures s.phase == Idle ==> Halted(s, Step(s, Submit(request)), s.queue + [request])
  {
    hide Checked;
  }

  ghost predicate Halted(s: State, n: State, queue: seq<Request>) {
    n.phase == Idle && n.queue == queue && n.stored == s.stored && n.successes == s.successes && n.fields == s.fields
  }

  lemma SixSteps(s: State, first: Action)
    ensures Run(s, [first, Proceed, Proceed, Proceed, Proceed, Proceed])
            == Step(Step(Step(Step(Step(Step(s, first), Proceed), Proceed), Proceed), Proceed), Proceed)
  {
    hide Step;
    var all := [first, Proceed, Proceed, Proceed, Proceed, Proceed];
    assert all[..6] == all && all[..0] == [];
    assert forall n :: 0 < n <= 6 ==> all[..n][..n - 1] == all[..n - 1];
    assert Run(s, all[..0]) == s;
    assert Run(s, all[..1]) == Step(s, first);
    assert Run(s, all[..2]) == Step(Run(s, all[..1]), Proceed);
    assert Run(s, all[..3]) == Step(Run(s, all[..2]), Proceed);
    assert Run(s, all[..4]) == Step(Run(s, all[..3]), Proceed);
    assert Run(s, all[..5]) == Step(Run(s, all[..4]), Proceed);
    assert Run(s, all[..6]) == Step(Run(s, all[..5]), Proceed);
  }

  lemma AcceptedSteps(s: State, request: Request)
    requires s.phase.Idle? && s.queue != [] && s.queue[0] == request
    requires Checked(request.input, request.did, s.fields, s.stored, s.next).Ok?
    ensures var p := Checked(request.input, request.did, s.fields, s.stored, s.next).value;
            var n := Step(Step(Step(Step(Step(Step(s, Begin), Proceed), Proceed), Proceed), Proceed), Proceed);
            && n.stored == Some(p) && n.phase == Idle && n.queue == s.queue[1..]
            && n.successes == s.successes + [Success(Base(s.stored), p.revision)]
  {
    hide Checked, Run;
    var p := Checked(request.input, request.did, s.fields, s.stored, s.next).value;
    var s1 := Step(s, Begin);
    assert s1.phase == ReadTwin(request);
    var s2 := Step(s1, Proceed);
    assert s2.phase == ReadFile(request, s.fields) && s2.stored == s.stored;
    var s3 := Step(s2, Proceed);
    assert s3.phase == WriteClosed(Base(s.stored), p);
    var s5 := Step(Step(s3, Proceed), Proceed);
    assert s5.phase == WriteFinal(Base(s.stored), p);
  }

  lemma CheckedRevision(input: Input, did: string, fields: Fields, current: Option<Policy>, revision: nat)
    requires Checked(input, did, fields, current, revision).Ok?
    ensures Checked(input, did, fields, current, revision).value.revision == revision
  {}

  /* ---- Main results ---- */

  /** A pending policy denies every scope to every DID, the owner included. */
  ghost predicate DeniesAll(stored: Option<Policy>) {
    forall fields, did, scope :: Authorize(stored, fields, did, scope).None?
  }

  /** The step with which an update succeeds. */
  predicate Succeeds(s: State, a: Action) {
    a.Proceed? && s.phase.WriteFinal?
  }

  predicate NoSuccess(s: State, actions: seq<Action>) {
    actions != [] ==>
      var before := actions[..|actions| - 1];
      NoSuccess(s, before) && !Succeeds(Run(s, before), actions[|actions| - 1])
  }

  /** Once closed, the Twin stays closed through failures, crashes and refused updates until one succeeds. */
  lemma {:induction false} StaysClosed(s: State, actions: seq<Action>)
    requires s.stored.Some? && s.stored.value.pending && NoSuccess(s, actions)
    ensures Run(s, actions).stored.Some? && Run(s, actions).stored.value.pending
    ensures DeniesAll(Run(s, actions).stored)
  {
    hide Checked;
    if actions != [] {
      StaysClosed(s, actions[..|actions| - 1]);
    }
  }

  predicate Writing(s: State) {
    s.phase.Mutate? || s.phase.WriteFinal?
  }

  /**
   Once an update has written the closed policy every restricted read is denied: while it changes the chain and writes the
   final policy, and after it failed or was cut short, through whatever follows, until an update succeeds.
   */
  lemma ClosedWhileUpdating(s: State, actions: seq<Action>, later: seq<Action>)
    requires Initial(s) && Writing(Run(s, actions)) && NoSuccess(Run(s, actions), later)
    ensures DeniesAll(Run(Run(s, actions), later).stored)
  {
    hide Run, NoSuccess;
    EveryRunGood(s, actions);
    StaysClosed(Run(s, actions), later);
  }

  /** No two successful updates started from the same base revision. */
  lemma OneSuccessPerBase(s: State, actions: seq<Action>, i: nat, j: nat)
    requires Initial(s) && i < j < |Run(s, actions).successes|
    ensures Run(s, actions).successes[i].base != Run(s, actions).successes[j].base
  {
    hide Run;
    EveryRunGood(s, actions);
    var n := Run(s, actions);
    assert Before(n.successes[i].base, n.successes[i].revision);
    assert AtMost(n.successes[i], n.successes[j].base);
  }

  /** Whatever a run leaves in the file can be read back. */
  lemma AlwaysReadable(s: State, actions: seq<Action>)
    requires Initial(s)
    ensures Run(s, actions).stored.Some? ==> Readable(Run(s, actions).stored.value)
  {
    hide Run, Readable;
    EveryRunGood(s, actions);
  }
}
