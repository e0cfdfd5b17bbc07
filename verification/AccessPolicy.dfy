/** Access policies: what is accepted, the rights a policy gives a DID, and which measurement a right opens at which time. */
module AccessPolicy {
  import opened Text
  import opened Wrappers

  /* Scope bits: 1 realtime, 2 history, 4 export, 8 location, 16 evidence, 32 admin. */

  const REALTIME: bv8 := 1
  const HISTORY: bv8 := 2
  const EXPORT: bv8 := 4
  const LOCATION: bv8 := 8
  const EVIDENCE: bv8 := 16
  const ADMIN: bv8 := 32

  /** Bounds of 0 stand for "no bound". */
  datatype Reader = Reader(
    did: string, scopes: bv8, validFrom: nat, expiresAt: nat, historyFrom: nat, historyTo: nat,
    allMeasurements: bool, measurements: seq<string>)

  datatype Mode = Private | Restricted | Public

  datatype Policy = Policy(mode: Mode, publicScopes: bv8, readers: seq<Reader>, ownerDid: string)

  datatype Rights = Rights(legacy: bool, discover: bool, scopes: bv8, publicScopes: bv8, reader: Option<Reader>, owner: bool)

  /* ---- Names ---- */

  /** Two names that objects inherit are not measurements. */
  predicate MeasurementKey(k: string) {
    PlainKey(k) && k != "constructor" && k != "prototype"
  }

  /* ---- Normalization ---- */

  predicate Distinct<T(==)>(s: seq<T>) {
    forall i, j :: 0 <= i < j < |s| ==> s[i] != s[j]
  }

  /** The reader passes every check of its normalization. */
  predicate ReaderAccepted(r: Reader, now: nat) {
    && r.scopes <= 63
    && (r.scopes & 4 != 0 ==> r.scopes & 2 != 0)
    && (r.scopes & 32 != 0 ==> r.scopes == 63 && r.allMeasurements && r.measurements == [] && r.historyFrom == 0 && r.historyTo == 0)
    && (r.expiresAt != 0 ==> r.expiresAt > r.validFrom && r.expiresAt > now)
    && (r.historyTo != 0 ==> r.historyTo > r.historyFrom)
    && (r.scopes & 2 == 0 ==> r.historyFrom == 0 && r.historyTo == 0)
    && |r.measurements| <= 64
    && (forall k :: k in r.measurements ==> MeasurementKey(k))
    && Distinct(r.measurements)
    && (r.allMeasurements ==> r.measurements == [])
    && (r.scopes & 3 != 0 ==> r.allMeasurements || r.measurements != [])
  }

  predicate PolicyAccepted(p: Policy, now: nat) {
    && |p.readers| <= 100
    && p.publicScopes & 25 == p.publicScopes
    && (!p.mode.Public? ==> p.publicScopes == 0)
    && (forall i :: 0 <= i < |p.readers| ==> ReaderAccepted(p.readers[i], now))
    && (forall i, j :: 0 <= i < j < |p.readers| ==> p.readers[i].did != p.readers[j].did)
    && (p.mode.Private? ==> p.readers == [])
    && (p.mode.Restricted? ==> p.readers != [])
  }

  /* ---- Rights ---- */

  predicate Current(r: Reader, now: nat) {
    r.validFrom <= now && (r.expiresAt == 0 || now < r.expiresAt)
  }

  function FindReader(readers: seq<Reader>, did: string, now: nat): (r: Option<Reader>)
    ensures r.Some? ==> r.value in readers && r.value.did == did && Current(r.value, now)
    ensures r.None? ==> forall i :: 0 <= i < |readers| ==> !(readers[i].did == did && Current(readers[i], now))
  {
    if readers == [] then None
    else if readers[0].did == did && Current(readers[0], now) then Some(readers[0])
    else
      var rest := FindReader(readers[1..], did, now);
      assert forall i :: 1 <= i < |readers| ==> readers[i] == readers[1..][i - 1];
      rest
  }

  function PolicyRights(p: Policy, did: string, now: nat): Rights {
    var owner := p.ownerDid == Lower(did);
    var reader := FindReader(p.readers, Lower(did), now);
    Rights(false, owner || p.mode.Public? || reader.Some?,
           if owner then 31 else p.publicScopes | (if reader.Some? then reader.value.scopes else 0),
           p.publicScopes, reader, owner)
  }

  predicate InHistory(r: Reader, observedAt: int) {
    observedAt >= r.historyFrom && (r.historyTo == 0 || observedAt < r.historyTo)
  }

  predicate MeasurementAllowed(rights: Rights, scope: bv8, key: string, observedAt: int) {
    if scope !in {1, 2, 4} || rights.scopes & scope == 0 then false
    else if rights.owner || rights.publicScopes & scope != 0 then true
    else
      && rights.reader.Some?
      && var r := rights.reader.value;
         && r.scopes & scope != 0
         && (r.allMeasurements || key in r.measurements)
         && (scope == 1 || InHistory(r, observedAt))
  }

  /* ---- What a policy grants, entry by entry ---- */

  /** The entry is the DID's, and the moment lies in its period: from its start on and, unless it never ends, before its end. */
  ghost predicate InForce(r: Reader, did: string, now: nat) {
    r.did == Lower(did) && r.validFrom <= now && (r.expiresAt != 0 ==> now < r.expiresAt)
  }

  lemma FindReaderExactly(p: Policy, normalizedAt: nat, did: string, now: nat)
    requires PolicyAccepted(p, normalizedAt)
    ensures forall r :: r in p.readers && InForce(r, did, now) <==> FindReader(p.readers, Lower(did), now) == Some(r)
  {
    hide ReaderAccepted, Lower;
    var found := FindReader(p.readers, Lower(did), now);
    forall r | r in p.readers && InForce(r, did, now)
      ensures found == Some(r)
    {
      var i :| 0 <= i < |p.readers| && p.readers[i] == r;
      if found.Some? {
        var j :| 0 <= j < |p.readers| && p.readers[j] == found.value;
      }
    }
  }

  lemma OrGrants(a: bv8, b: bv8, bit: bv8)
    ensures (a | b) & bit != 0 <==> a & bit != 0 || b & bit != 0
    ensures (a | 0) == a
  {}

  lemma OwnerBits(bit: bv8)
    requires bit in {1, 2, 4}
    ensures 31 & bit != 0
  {}

  /**
   Whoever is not the owner is granted a bit exactly when it is public or an entry in force for the DID has it, and may
   discover the Twin exactly when the policy is public or such an entry exists.
   */
  lemma RightsExactly(p: Policy, normalizedAt: nat, did: string, now: nat, bit: bv8)
    requires PolicyAccepted(p, normalizedAt) && p.ownerDid != Lower(did)
    ensures var rights := PolicyRights(p, did, now);
            && (rights.scopes & bit != 0 <==>
                  p.publicScopes & bit != 0 || exists r :: r in p.readers && InForce(r, did, now) && r.scopes & bit != 0)
            && (rights.discover <==> p.mode.Public? || exists r :: r in p.readers && InForce(r, did, now))
            && !rights.owner
  {
    hide PolicyAccepted, InForce, Lower;
    FindReaderExactly(p, normalizedAt, did, now);
    var found := FindReader(p.readers, Lower(did), now);
    OrGrants(p.publicScopes, if found.Some? then found.value.scopes else 0, bit);
  }

  /** Outside the period of its entry, a reader has what everybody has and nothing more. */
  lemma ExpiredIsPublic(p: Policy, normalizedAt: nat, did: string, now: nat)
    requires PolicyAccepted(p, normalizedAt) && p.ownerDid != Lower(did)
    requires forall r :: r in p.readers && r.did == Lower(did) ==> now < r.validFrom || (r.expiresAt > 0 && r.expiresAt <= now)
    ensures var rights := PolicyRights(p, did, now); rights.scopes == p.publicScopes && (rights.discover <==> p.mode.Public?)
  {
    hide PolicyAccepted, Lower;
    FindReaderExactly(p, normalizedAt, did, now);
    OrGrants(p.publicScopes, 0, 0);
  }

  /** The entry opens a measurement of some moment for one of the three data scopes. */
  ghost predicate Opens(r: Reader, scope: bv8, key: string, observedAt: int) {
    && r.scopes & scope != 0 && (r.allMeasurements || key in r.measurements)
    && (scope != REALTIME ==> r.historyFrom <= observedAt && (r.historyTo != 0 ==> observedAt < r.historyTo))
  }

  /**
   A measurement is allowed exactly to the owner, to everybody when its scope is public, and else to the DID of an entry
   in force that opens it.
   */
  lemma MeasurementExactly(p: Policy, normalizedAt: nat, did: string, now: nat, scope: bv8, key: string, observedAt: int)
    requires PolicyAccepted(p, normalizedAt)
    ensures MeasurementAllowed(PolicyRights(p, did, now), scope, key, observedAt) <==>
            && scope in {REALTIME, HISTORY, EXPORT}
            && (p.ownerDid == Lower(did) || p.publicScopes & scope != 0
                || exists r :: r in p.readers && InForce(r, did, now) && Opens(r, scope, key, observedAt))
  {
    hide PolicyAccepted, InForce, Lower;
    FindReaderExactly(p, normalizedAt, did, now);
    if scope in {1, 2, 4} {
      OwnerBits(scope);
      var found := FindReader(p.readers, Lower(did), now);
      OrGrants(p.publicScopes, if found.Some? then found.value.scopes else 0, scope);
    }
  }

  /* ---- Which entries and policies normalization accepts ---- */

  ghost predicate Has(scopes: bv8, bit: bv8) {
    scopes & bit != 0
  }

  ghost function Elements<T>(s: seq<T>): set<T> {
    set x | x in s
  }

  /** The moment lies in the stretch of the past that the entry opens. */
  ghost predicate InPast(r: Reader, t: nat) {
    r.historyFrom <= t && (r.historyTo != 0 ==> t < r.historyTo)
  }

  /** The entry has a moment left to be used in, a past to show, and nothing to say about the past unless it may show it. */
  ghost predicate PeriodsMakeSense(r: Reader, now: nat) {
    && (exists t: nat :: now <= t && InForce(r.(did := ""), "", t))
    && (exists t: nat :: InPast(r, t))
    && (!Has(r.scopes, HISTORY) ==> forall t: nat :: InPast(r, t))
  }

  /** At most 64 different plain names, none when every measurement is meant, and some when measurements are granted at all. */
  ghost predicate NamesMakeSense(r: Reader) {
    && |r.measurements| <= 64 && |Elements(r.measurements)| == |r.measurements|
    && (forall k :: k in r.measurements ==> PlainKey(k) && k !in ["constructor", "prototype"])
    && (if r.allMeasurements then |r.measurements| == 0
        else Has(r.scopes, REALTIME) || Has(r.scopes, HISTORY) ==> exists k :: k in r.measurements)
  }

  /** Six scopes; export needs history, and admin needs all of them, for everything and without bounds. */
  ghost predicate ScopesMakeSense(r: Reader) {
    && !Has(r.scopes, 64) && !Has(r.scopes, 128)
    && (Has(r.scopes, EXPORT) ==> Has(r.scopes, HISTORY))
    && (Has(r.scopes, ADMIN) ==>
          && r.allMeasurements && (forall t: nat :: InPast(r, t))
          && forall bit :: bit in {REALTIME, HISTORY, EXPORT, LOCATION, EVIDENCE} ==> Has(r.scopes, bit))
  }

  lemma PastUnbounded(r: Reader)
    ensures (forall t: nat :: InPast(r, t)) <==> r.historyFrom == 0 && r.historyTo == 0
  {
    if forall t: nat :: InPast(r, t) {
      assert InPast(r, 0) && InPast(r, r.historyTo);
    }
  }

  lemma ScopeBits(scopes: bv8)
    ensures scopes <= 63 <==> !Has(scopes, 64) && !Has(scopes, 128)
    ensures scopes <= 63 && Has(scopes, ADMIN) ==>
              (scopes == 63 <==> forall bit :: bit in {REALTIME, HISTORY, EXPORT, LOCATION, EVIDENCE} ==> Has(scopes, bit))
    ensures scopes & 3 != 0 <==> Has(scopes, REALTIME) || Has(scopes, HISTORY)
  {
    assert scopes <= 63 && scopes & 32 != 0 ==>
        (scopes == 63 <==> scopes & 1 != 0 && scopes & 2 != 0 && scopes & 4 != 0 && scopes & 8 != 0 && scopes & 16 != 0);
    assert (forall bit :: bit in {REALTIME, HISTORY, EXPORT, LOCATION, EVIDENCE} ==> Has(scopes, bit))
        <==> Has(scopes, 1) && Has(scopes, 2) && Has(scopes, 4) && Has(scopes, 8) && Has(scopes, 16);
  }

  lemma {:induction false} DistinctExactly<T>(s: seq<T>)
    ensures Distinct(s) <==> |Elements(s)| == |s|
    ensures |Elements(s)| <= |s|
  {
    if s != [] {
      var last := |s| - 1;
      DistinctExactly(s[..last]);
      assert s == s[..last] + [s[last]];
      assert Elements(s) == Elements(s[..last]) + {s[last]};
      if Distinct(s[..last]) && s[last] !in s[..last] {
        assert forall i, j :: 0 <= i < j < |s| ==> s[i] in s[..j];
        assert forall i, j :: 0 <= i < j < last ==> s[..last][i] != s[..last][j];
      }
      if Distinct(s) {
        assert forall i, j :: 0 <= i < j < last ==> s[..last][i] == s[i] != s[j] == s[..last][j];
      }
    }
  }

  lemma PeriodExactly(r: Reader, now: nat)
    ensures (exists t: nat :: now <= t && InForce(r.(did := ""), "", t)) <==>
            (r.expiresAt != 0 ==> r.expiresAt > r.validFrom && r.expiresAt > now)
    ensures (exists t: nat :: InPast(r, t)) <==> (r.historyTo != 0 ==> r.historyTo > r.historyFrom)
  {
    var t := if r.validFrom < now then now else r.validFrom;
    if r.expiresAt != 0 ==> r.expiresAt > r.validFrom && r.expiresAt > now {
      assert now <= t && InForce(r.(did := ""), "", t);
    }
    if r.historyTo != 0 ==> r.historyTo > r.historyFrom {
      assert InPast(r, r.historyFrom);
    }
  }

  /** Normalization accepts exactly the entries that make sense. */
  lemma ReaderAcceptedExactly(r: Reader, now: nat)
    ensures ReaderAccepted(r, now) <==> ScopesMakeSense(r) && PeriodsMakeSense(r, now) && NamesMakeSense(r)
  {
    hide PlainKey, Lower, InForce, InPast, Distinct;
    ScopeBits(r.scopes);
    PastUnbounded(r);
    PeriodExactly(r, now);
    DistinctExactly(r.measurements);
    assert r.measurements != [] <==> exists k :: k in r.measurements by {
      if r.measurements != [] {
        assert r.measurements[0] in r.measurements;
      }
    }
  }

  /**
   A policy is accepted exactly when it has at most 100 entries that make sense, no DID with two of them, public scopes
   that everybody may have and only a public policy has, none of them when private and some when restricted.
   */
  lemma PolicyAcceptedExactly(p: Policy, now: nat)
    ensures PolicyAccepted(p, now) <==>
            && |p.readers| <= 100 && |set r | r in p.readers :: r.did| == |p.readers|
            && (forall r :: r in p.readers ==> ScopesMakeSense(r) && PeriodsMakeSense(r, now) && NamesMakeSense(r))
            && (forall bit :: bit in {HISTORY, EXPORT, ADMIN, 64, 128} ==> !Has(p.publicScopes, bit))
            && (p.mode.Public? || forall bit :: bit in {REALTIME, LOCATION, EVIDENCE} ==> !Has(p.publicScopes, bit))
            && (p.mode.Private? ==> |p.readers| == 0) && (p.mode.Restricted? ==> |p.readers| > 0)
  {
    hide ReaderAccepted, ScopesMakeSense, PeriodsMakeSense, NamesMakeSense, Distinct;
    forall r | r in p.readers
      ensures ReaderAccepted(r, now) <==> ScopesMakeSense(r) && PeriodsMakeSense(r, now) && NamesMakeSense(r)
    {
      ReaderAcceptedExactly(r, now);
    }
    var dids := seq(|p.readers|, i requires 0 <= i < |p.readers| => p.readers[i].did);
    DistinctExactly(dids);
    DidsDiffer(p.readers, dids);
    PublicBits(p.publicScopes);
  }

  lemma DidsDiffer(readers: seq<Reader>, dids: seq<string>)
    requires |dids| == |readers| && forall i :: 0 <= i < |dids| ==> dids[i] == readers[i].did
    ensures Distinct(dids) <==> forall i, j :: 0 <= i < j < |readers| ==> readers[i].did != readers[j].did
    ensures (set r | r in readers :: r.did) == Elements(dids)
  {
    forall d | d in dids
      ensures d in set r | r in readers :: r.did
    {
      var i :| 0 <= i < |dids| && dids[i] == d;
      assert readers[i] in readers;
    }
    assert Distinct(dids) ==> forall i, j :: 0 <= i < j < |readers| ==> dids[i] != dids[j];
  }

  lemma PublicBits(scopes: bv8)
    ensures scopes & 25 == scopes <==> forall bit :: bit in {HISTORY, EXPORT, ADMIN, 64, 128} ==> !Has(scopes, bit)
    ensures scopes & 25 == scopes ==> (scopes == 0 <==> forall bit :: bit in {REALTIME, LOCATION, EVIDENCE} ==> !Has(scopes, bit))
  {
    assert scopes & 25 == scopes <==> scopes & 2 == 0 && scopes & 4 == 0 && scopes & 32 == 0 && scopes & 64 == 0 && scopes & 128 == 0;
    assert (forall bit :: bit in {HISTORY, EXPORT, ADMIN, 64, 128} ==> !Has(scopes, bit))
        <==> !Has(scopes, 2) && !Has(scopes, 4) && !Has(scopes, 32) && !Has(scopes, 64) && !Has(scopes, 128);
    assert scopes & 25 == scopes ==> (scopes == 0 <==> scopes & 1 == 0 && scopes & 8 == 0 && scopes & 16 == 0);
    assert (forall bit :: bit in {REALTIME, LOCATION, EVIDENCE} ==> !Has(scopes, bit))
        <==> !Has(scopes, 1) && !Has(scopes, 8) && !Has(scopes, 16);
  }

  /** Under a normalized policy, whoever may export a measurement of some moment may read it as history. */
  lemma ExportMeansHistory(p: Policy, normalizedAt: nat, did: string, now: nat, key: string, observedAt: int)
    requires PolicyAccepted(p, normalizedAt)
    requires MeasurementAllowed(PolicyRights(p, did, now), EXPORT, key, observedAt)
    ensures MeasurementAllowed(PolicyRights(p, did, now), HISTORY, key, observedAt)
  {}

  /* ---- Selections ---- */

  const MAX_RANGE: nat := 31 * 86_400_000

  /** A request for a past interval, optionally narrowed to some measurements. */
  datatype Selection = Selection(fromTimestamp: nat, toTimestamp: nat, measurements: Option<seq<string>>)

  /** What a request must look like before anybody's rights are consulted. */
  predicate Requestable(s: Selection, now: nat) {
    && s.fromTimestamp <= s.toTimestamp <= now
    && s.toTimestamp - s.fromTimestamp <= MAX_RANGE
    && (s.measurements.Some? ==>
          && 1 <= |s.measurements.value| <= 64
          && (forall k :: k in s.measurements.value ==> MeasurementKey(k))
          && Distinct(s.measurements.value))
  }

  /** At most 31 days of the past, and of its measurements all of them or between 1 and 64 different plain names. */
  lemma RequestableExactly(s: Selection, now: nat)
    ensures Requestable(s, now) <==>
            && s.fromTimestamp <= s.toTimestamp <= now && s.toTimestamp <= s.fromTimestamp + 31 * 24 * 60 * 60 * 1000
            && match s.measurements {
              case None => true
              case Some(names) =>
                && 0 < |names| <= 64 && |Elements(names)| == |names|
                && forall k :: k in names ==> PlainKey(k) && k !in ["constructor", "prototype"]
            }
  {
    hide PlainKey, Distinct;
    if s.measurements.Some? {
      DistinctExactly(s.measurements.value);
    }
  }

  predicate IntervalAccepted(s: Selection, rights: Rights) {
    !rights.owner && rights.reader.Some? ==>
      var r := rights.reader.value;
      s.fromTimestamp >= r.historyFrom && (r.historyTo == 0 || s.toTimestamp < r.historyTo)
  }

  predicate MeasurementsAccepted(s: Selection, rights: Rights) {
    s.measurements.Some? && !rights.owner && !(rights.reader.Some? && rights.reader.value.allMeasurements) ==>
      forall k :: k in s.measurements.value ==> rights.reader.Some? && k in rights.reader.value.measurements
  }

  /** The rights of a DID that a policy grants the scope at that moment. */
  predicate Grants(p: Policy, did: string, now: nat, scope: bv8) {
    scope in {HISTORY, EXPORT} && PolicyRights(p, did, now).scopes & scope != 0
  }

  ghost predicate AllAuthorized(s: Selection, rights: Rights, scope: bv8)
    requires s.measurements.Some?
  {
    forall key, observedAt: nat :: key in s.measurements.value && s.fromTimestamp <= observedAt <= s.toTimestamp
                                   ==> MeasurementAllowed(rights, scope, key, observedAt)
  }

  /** Whoever is granted history or export without owning the Twin is a current reader with that scope of its own. */
  lemma GrantedIsReader(p: Policy, normalizedAt: nat, did: string, now: nat, scope: bv8)
    requires PolicyAccepted(p, normalizedAt) && Grants(p, did, now, scope)
    ensures var rights := PolicyRights(p, did, now);
            !rights.owner ==> rights.publicScopes & scope == 0 && rights.reader.Some? && rights.reader.value.scopes & scope != 0
  {}

  /**
   The two checks on a request are exact: they pass if and only if every selected measurement of every moment of the
   interval is authorized.
   */
  lemma AcceptedIsAuthorized(p: Policy, normalizedAt: nat, did: string, now: nat, s: Selection, requested: nat, scope: bv8)
    requires PolicyAccepted(p, normalizedAt) && Grants(p, did, now, scope)
    requires Requestable(s, requested) && s.measurements.Some?
    ensures var rights := PolicyRights(p, did, now);
            IntervalAccepted(s, rights) && MeasurementsAccepted(s, rights) <==> AllAuthorized(s, rights, scope)
  {
    hide PolicyAccepted, MeasurementKey, Distinct;
    GrantedIsReader(p, normalizedAt, did, now, scope);
    var rights := PolicyRights(p, did, now);
    if AllAuthorized(s, rights, scope) {
      var first := s.measurements.value[0];
      assert MeasurementAllowed(rights, scope, first, s.fromTimestamp) && MeasurementAllowed(rights, scope, first, s.toTimestamp);
      assert forall k :: k in s.measurements.value ==> MeasurementAllowed(rights, scope, k, s.fromTimestamp);
    }
  }

  /** As long as a policy does not change, its readings at two moments that both grant the scope find the same reader. */
  lemma SameReader(p: Policy, normalizedAt: nat, did: string, asked: nat, now: nat, scope: bv8)
    requires PolicyAccepted(p, normalizedAt) && Grants(p, did, asked, scope) && Grants(p, did, now, scope)
    ensures PolicyRights(p, did, asked).owner == PolicyRights(p, did, now).owner
    ensures !PolicyRights(p, did, now).owner ==> PolicyRights(p, did, asked).reader == PolicyRights(p, did, now).reader
  {
    GrantedIsReader(p, normalizedAt, did, asked, scope);
    GrantedIsReader(p, normalizedAt, did, now, scope);
  }

  /** What create accepted under a policy is authorized when the preparation reads the same policy again. */
  lemma AcceptedStaysAuthorized(p: Policy, normalizedAt: nat, did: string, asked: nat, now: nat, s: Selection, scope: bv8)
    requires PolicyAccepted(p, normalizedAt) && Grants(p, did, asked, scope) && Grants(p, did, now, scope)
    requires Requestable(s, asked) && s.measurements.Some?
    requires IntervalAccepted(s, PolicyRights(p, did, asked)) && MeasurementsAccepted(s, PolicyRights(p, did, asked))
    ensures AllAuthorized(s, PolicyRights(p, did, now), scope)
  {
    hide PolicyAccepted, Grants, MeasurementKey, Distinct, PolicyRights, AllAuthorized;
    SameReader(p, normalizedAt, did, asked, now, scope);
    AcceptedIsAuthorized(p, normalizedAt, did, now, s, asked, scope);
  }
}
