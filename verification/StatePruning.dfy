/**
 Pruning superseded on-chain states: each Twin's newest state of every stream is spared, everything else that is old
 enough and can be receipted is pruned oldest first, up to a cap shared by all Twins.
 */
module StatePruning {
  import opened Sorting
  import opened Text
  import opened Wrappers
  import R = Retention

  /** Object ids are kept in lower case, as they are compared. */
  datatype TwinState = TwinState(id: string, observedAt: int, aspectCode: string, sampleType: string, payloadHash: string)

  datatype Event = Event(eventType: nat, payloadRef: string, payloadHash: string, createdAt: int)

  datatype Snapshot = Snapshot(states: seq<TwinState>, events: seq<Event>)

  /** Two states belong to one stream when both their fields agree. */
  predicate SameStream(a: TwinState, b: TwinState) {
    a.aspectCode == b.aspectCode && a.sampleType == b.sampleType
  }

  /** The key under which the program groups states. */
  function Key(s: TwinState): string {
    s.aspectCode + "\0" + s.sampleType
  }

  /* ---- Orders: `rank` stands for the collation of object ids ---- */

  function NewestFirst(rank: string -> int): (TwinState, TwinState) -> bool {
    (a: TwinState, b: TwinState) => a.observedAt > b.observedAt || (a.observedAt == b.observedAt && rank(a.id) >= rank(b.id))
  }

  function OldestFirst(rank: string -> int): (TwinState, TwinState) -> bool {
    (a: TwinState, b: TwinState) => a.observedAt < b.observedAt || (a.observedAt == b.observedAt && rank(a.id) <= rank(b.id))
  }

  lemma OrdersAreTotal(rank: string -> int)
    ensures TotalPreorder(NewestFirst(rank)) && TotalPreorder(OldestFirst(rank))
  {}

  /* ---- What may be pruned ---- */

  predicate Hex64(s: string) {
    |s| == 64 && forall i :: 0 <= i < 64 ==> '0' <= s[i] <= '9' || 'a' <= s[i] <= 'f'
  }

  function Digest(hash: string): Option<string> {
    var bare := StripAlgorithm(Lower(hash));
    if Hex64(bare) then Some(bare) else None
  }

  predicate CanReceipt(stateHash: string, publicationHash: string) {
    && Digest(stateHash).Some?
    && (publicationHash == "" ||
        (StripAlgorithm(Lower(publicationHash)) != Lower(publicationHash) && Digest(stateHash) == Digest(publicationHash)))
  }

  /** The state has a digest, and its publication either carries no hash or the same digest behind one of the prefixes. */
  ghost predicate Receiptable(stateHash: string, publicationHash: string) {
    exists d :: Hex64Digits(d) && Names(stateHash, d) && (publicationHash == "" || Lower(publicationHash) in {"sha256:" + d, "0x" + d})
  }

  lemma HexAgrees(d: string)
    ensures Hex64(d) <==> Hex64Digits(d)
  {
    assert forall c: char :: c in "0123456789abcdef" <==> '0' <= c <= '9' || 'a' <= c <= 'f';
  }

  lemma ReceiptExactly(stateHash: string, publicationHash: string)
    ensures CanReceipt(stateHash, publicationHash) <==> Receiptable(stateHash, publicationHash)
  {
    hide StripAlgorithm, Lower, Hex64, Hex64Digits;
    var bare := StripAlgorithm(Lower(stateHash));
    HexAgrees(bare);
    StripSplits(Lower(stateHash));
    StripSplits(Lower(publicationHash));
    if CanReceipt(stateHash, publicationHash) {
      assert Names(stateHash, bare);
    }
    if d :| Hex64Digits(d) && Names(stateHash, d) && (publicationHash == "" || Lower(publicationHash) in {"sha256:" + d, "0x" + d}) {
      DigitsHaveNoPrefix(d);
      assert bare == d;
      LongerThan(d);
    }
  }

  lemma LongerThan(d: string)
    ensures "sha256:" + d != d && "0x" + d != d
  {
    assert |"sha256:" + d| > |d| && |"0x" + d| > |d|;
  }

  /** The last publication event that names the state. */
  function Publication(events: seq<Event>, id: string): Option<Event> {
    if events == [] then None
    else
      var last := events[|events| - 1];
      if last.eventType == 30 && last.payloadRef != "" && Lower(last.payloadRef) == id then Some(last)
      else Publication(events[..|events| - 1], id)
  }

  /** The event is a publication of the state. */
  ghost predicate Publishes(e: Event, id: string) {
    e.eventType == 30 && e.payloadRef != "" && Lower(e.payloadRef) == id
  }

  /** Event i is e, the last that publishes the state. */
  ghost predicate PublishedAt(events: seq<Event>, id: string, e: Event, i: int) {
    0 <= i < |events| && events[i] == e && Publishes(e, id) && forall j :: i < j < |events| ==> !Publishes(events[j], id)
  }

  lemma PublishedBefore(events: seq<Event>, id: string, e: Event, i: int)
    requires events != [] && !Publishes(events[|events| - 1], id)
    ensures PublishedAt(events, id, e, i) <==> PublishedAt(events[..|events| - 1], id, e, i)
  {
    hide Publishes;
    var n := |events| - 1;
    assert forall j :: 0 <= j < n ==> events[..n][j] == events[j];
  }

  /** A state's publication is the last event that publishes it. */
  lemma {:induction false} PublicationExactly(events: seq<Event>, id: string, e: Event)
    ensures Publication(events, id) == Some(e) <==> exists i :: PublishedAt(events, id, e, i)
  {
    if events != [] {
      var last := events[|events| - 1];
      if Publishes(last, id) {
        hide Publishes;
        assert PublishedAt(events, id, last, |events| - 1);
        assert forall i :: PublishedAt(events, id, e, i) ==> i == |events| - 1;
      } else {
        var front := events[..|events| - 1];
        PublicationExactly(front, id, e);
        if i :| PublishedAt(events, id, e, i) {
          PublishedBefore(events, id, e, i);
        }
        if i :| PublishedAt(front, id, e, i) {
          PublishedBefore(events, id, e, i);
        }
      }
    }
  }

  /** The first state of each key, in the given order. */
  function Firsts(states: seq<TwinState>): map<string, string> {
    if states == [] then map[]
    else
      var before := Firsts(states[..|states| - 1]);
      var last := states[|states| - 1];
      if Key(last) in before then before else before[Key(last) := last.id]
  }

  function Newest(states: seq<TwinState>, rank: string -> int): map<string, string> {
    Firsts(Sort(states, NewestFirst(rank)))
  }

  predicate Spared(newest: map<string, string>, s: TwinState) {
    Key(s) in newest && newest[Key(s)] == s.id
  }

  datatype Fate = Current | TooYoung | Unproven | Eligible

  function FateOf(snapshot: Snapshot, newest: map<string, string>, cutoff: int, s: TwinState): Fate {
    if Spared(newest, s) then Current
    else
      var publication := Publication(snapshot.events, s.id);
      if publication.None? || publication.value.createdAt > cutoff then TooYoung
      else if !CanReceipt(s.payloadHash, publication.value.payloadHash) then Unproven
      else Eligible
  }

  function EligibleOf(snapshot: Snapshot, newest: map<string, string>, cutoff: int, states: seq<TwinState>): seq<TwinState> {
    if states == [] then []
    else
      var last := states[|states| - 1];
      EligibleOf(snapshot, newest, cutoff, states[..|states| - 1])
      + if FateOf(snapshot, newest, cutoff, last).Eligible? then [last] else []
  }

  function UnanchoredOf(snapshot: Snapshot, newest: map<string, string>, cutoff: int, states: seq<TwinState>): nat {
    if states == [] then 0
    else UnanchoredOf(snapshot, newest, cutoff, states[..|states| - 1])
         + if FateOf(snapshot, newest, cutoff, states[|states| - 1]).Unproven? then 1 else 0
  }

  /** The positions of the states that are superseded and published long enough ago, and of which no receipt can be made. */
  ghost function UnprovenAt(snapshot: Snapshot, newest: map<string, string>, cutoff: int, states: seq<TwinState>): set<int> {
    set i | 0 <= i < |states| && UnprovenState(snapshot, newest, cutoff, states[i])
  }

  ghost predicate UnprovenState(snapshot: Snapshot, newest: map<string, string>, cutoff: int, s: TwinState) {
    && !(Key(s) in newest && newest[Key(s)] == s.id)
    && exists e, i :: PublishedAt(snapshot.events, s.id, e, i) && e.createdAt <= cutoff && !Receiptable(s.payloadHash, e.payloadHash)
  }

  lemma UnprovenExactly(snapshot: Snapshot, newest: map<string, string>, cutoff: int, s: TwinState)
    ensures FateOf(snapshot, newest, cutoff, s).Unproven? <==> UnprovenState(snapshot, newest, cutoff, s)
  {
    hide Publication, CanReceipt, Receiptable, PublishedAt;
    forall e
      ensures Publication(snapshot.events, s.id) == Some(e) <==> exists i :: PublishedAt(snapshot.events, s.id, e, i)
      ensures CanReceipt(s.payloadHash, e.payloadHash) <==> Receiptable(s.payloadHash, e.payloadHash)
    {
      PublicationExactly(snapshot.events, s.id, e);
      ReceiptExactly(s.payloadHash, e.payloadHash);
    }
  }

  /** Counted as unanchored are exactly those states. */
  lemma {:induction false} UnanchoredCounts(snapshot: Snapshot, newest: map<string, string>, cutoff: int, states: seq<TwinState>)
    ensures UnanchoredOf(snapshot, newest, cutoff, states) == |UnprovenAt(snapshot, newest, cutoff, states)|
  {
    hide FateOf, UnprovenState;
    if states != [] {
      var n := |states| - 1;
      UnanchoredCounts(snapshot, newest, cutoff, states[..n]);
      UnprovenExactly(snapshot, newest, cutoff, states[n]);
      assert UnprovenAt(snapshot, newest, cutoff, states)
          == UnprovenAt(snapshot, newest, cutoff, states[..n]) + if UnprovenState(snapshot, newest, cutoff, states[n]) then {n} else {};
    }
  }

  /** The prunable states of one Twin, oldest first. */
  function Prunable(snapshot: Snapshot, rank: string -> int, cutoff: int): seq<TwinState> {
    EligibleOf(snapshot, Newest(snapshot.states, rank), cutoff, Sort(snapshot.states, OldestFirst(rank)))
  }

  /** How many old enough states of one Twin cannot be receipted. */
  function Unanchored(snapshot: Snapshot, rank: string -> int, cutoff: int): nat {
    UnanchoredOf(snapshot, Newest(snapshot.states, rank), cutoff, Sort(snapshot.states, OldestFirst(rank)))
  }

  function AllUnanchored(twins: seq<(string, Option<Snapshot>)>, rank: string -> int, cutoff: int): nat {
    if twins == [] then 0
    else
      var snapshot := twins[|twins| - 1].1;
      AllUnanchored(twins[..|twins| - 1], rank, cutoff) + if snapshot.None? then 0 else Unanchored(snapshot.value, rank, cutoff)
  }

  function Tag(twin: string, states: seq<TwinState>): seq<(string, TwinState)> {
    seq(|states|, i requires 0 <= i < |states| => (twin, states[i]))
  }

  /** The prunable states of all Twins whose snapshot can be read, Twin by Twin. */
  function AllPrunable(twins: seq<(string, Option<Snapshot>)>, rank: string -> int, cutoff: int): seq<(string, TwinState)> {
    if twins == [] then []
    else
      var (twin, snapshot) := twins[|twins| - 1];
      AllPrunable(twins[..|twins| - 1], rank, cutoff)
      + if snapshot.None? then [] else Tag(twin, Prunable(snapshot.value, rank, cutoff))
  }

  function Scanned(twins: seq<(string, Option<Snapshot>)>): nat {
    if twins == [] then 0 else Scanned(twins[..|twins| - 1]) + if twins[|twins| - 1].1.Some? then 1 else 0
  }

  ghost function ReadableAt(twins: seq<(string, Option<Snapshot>)>): set<int> {
    set i | 0 <= i < |twins| && twins[i].1 != None
  }

  /** Scanned are the Twins whose snapshot can be read. */
  lemma {:induction false} ScannedCounts(twins: seq<(string, Option<Snapshot>)>)
    ensures Scanned(twins) == |ReadableAt(twins)|
  {
    if twins != [] {
      var n := |twins| - 1;
      ScannedCounts(twins[..n]);
      assert ReadableAt(twins) == ReadableAt(twins[..n]) + if twins[n].1 != None then {n} else {};
    }
  }

  /** Twin by Twin, the unanchored states of each readable snapshot are added up. */
  lemma AllUnanchoredSums(twins: seq<(string, Option<Snapshot>)>, twin: string, snapshot: Option<Snapshot>, rank: string -> int, cutoff: int)
    ensures AllUnanchored([], rank, cutoff) == 0
    ensures AllUnanchored(twins + [(twin, snapshot)], rank, cutoff) == AllUnanchored(twins, rank, cutoff) +
            match snapshot
            case None => 0
            case Some(found) => |UnprovenAt(found, Newest(found.states, rank), cutoff, Sort(found.states, OldestFirst(rank)))|
  {
    hide Newest, Sort, UnanchoredOf;
    assert (twins + [(twin, snapshot)])[..|twins|] == twins;
    if snapshot.Some? {
      var found := snapshot.value;
      UnanchoredCounts(found, Newest(found.states, rank), cutoff, Sort(found.states, OldestFirst(rank)));
    }
  }

  /** `failed` counts unreadable snapshots and failed prunes, as the service reports them together. */
  datatype Report = Report(twinsScanned: nat, eligible: nat, pruned: nat, skippedUnanchored: nat, failed: nat, capped: bool)

  function ById(prunes: (string, string) -> bool): ((string, TwinState)) -> bool {
    (x: (string, TwinState)) => prunes(x.0, x.1.id)
  }

  /* ---- The run ---- */

  method FirstByKey(states: seq<TwinState>) returns (newest: map<string, string>)
    ensures newest == Firsts(states)
  {
    newest := map[];
    for i := 0 to |states|
      invariant newest == Firsts(states[..i])
    {
      assert states[..i + 1][..i] == states[..i];
      if Key(states[i]) !in newest {
        newest := newest[Key(states[i]) := states[i].id];
      }
    }
    assert states[..|states|] == states;
  }

  /** One Twin's part of the run, continuing the shared counts. */
  method PruneTwin(twin: string, snapshot: Snapshot, rank: string -> int, cutoff: int, cap: nat, prunes: (string, string) -> bool,
                   ghost before: seq<(string, TwinState)>, attempts: seq<(string, TwinState)>, report: Report)
    returns (all: seq<(string, TwinState)>, r: Report)
    requires (attempts, report.pruned) == R.Work(before, ById(prunes), cap)
    requires report.capped <==> |attempts| < |before|
    ensures (all, r.pruned) == R.Work(before + Tag(twin, Prunable(snapshot, rank, cutoff)), ById(prunes), cap)
    ensures r.capped <==> |all| < |before + Tag(twin, Prunable(snapshot, rank, cutoff))|
    ensures r.eligible == report.eligible + |Prunable(snapshot, rank, cutoff)|
    ensures r.twinsScanned == report.twinsScanned + 1
    ensures r.failed + r.pruned - |all| == report.failed + report.pruned - |attempts|
    ensures r.skippedUnanchored == report.skippedUnanchored + Unanchored(snapshot, rank, cutoff)
    ensures attempts <= all
  {
    hide R.Work, Sort, FateOf, Publication, Firsts, ById;
    var newest := FirstByKey(Sort(snapshot.states, NewestFirst(rank)));
    var sorted := Sort(snapshot.states, OldestFirst(rank));
    ghost var succeeds := ById(prunes);
    all := attempts;
    r := report.(twinsScanned := report.twinsScanned + 1);
    ghost var tagged: seq<(string, TwinState)> := [];
    assert before + [] == before;
    assert EligibleOf(snapshot, newest, cutoff, sorted[..0]) == [];
    assert Tag(twin, []) == [];
    for i := 0 to |sorted|
      invariant tagged == Tag(twin, EligibleOf(snapshot, newest, cutoff, sorted[..i]))
      invariant (all, r.pruned) == R.Work(before + tagged, succeeds, cap)
      invariant r.capped <==> |all| < |before + tagged|
      invariant r.eligible == report.eligible + |tagged|
      invariant r.twinsScanned == report.twinsScanned + 1
      invariant r.failed + r.pruned - |all| == report.failed + report.pruned - |attempts|
      invariant r.skippedUnanchored == report.skippedUnanchored + UnanchoredOf(snapshot, newest, cutoff, sorted[..i])
      invariant attempts <= all
    {
      assert sorted[..i + 1][..i] == sorted[..i];
      var s := sorted[i];
      ghost var eligible := EligibleOf(snapshot, newest, cutoff, sorted[..i]);
      assert EligibleOf(snapshot, newest, cutoff, sorted[..i + 1])
             == if FateOf(snapshot, newest, cutoff, s).Eligible? then eligible + [s] else eligible;
      match FateOf(snapshot, newest, cutoff, s) {
        case Current =>
        case TooYoung =>
        case Unproven => r := r.(skippedUnanchored := r.skippedUnanchored + 1);
        case Eligible =>
          R.WorkStep(before + tagged, (twin, s), succeeds, cap);
          R.WorkSpec(before + tagged, succeeds, cap);
          assert Tag(twin, eligible + [s]) == tagged + [(twin, s)];
          assert before + (tagged + [(twin, s)]) == (before + tagged) + [(twin, s)];
          ByIdIs(prunes, twin, s);
          tagged := tagged + [(twin, s)];
          r := r.(eligible := r.eligible + 1);
          if r.pruned >= cap {
            r := r.(capped := true);
          } else {
            all := all + [(twin, s)];
            if prunes(twin, s.id) {
              r := r.(pruned := r.pruned + 1);
            } else {
              r := r.(failed := r.failed + 1);
            }
          }
      }
    }
    assert sorted[..|sorted|] == sorted;
  }

  lemma ByIdIs(prunes: (string, string) -> bool, twin: string, s: TwinState)
    ensures ById(prunes)((twin, s)) == prunes(twin, s.id)
  {}

  /** `attempts` lists the prunes that are asked for, in order. */
  method PruneOnChainStates(twins: seq<(string, Option<Snapshot>)>, rank: string -> int, cutoff: int, cap: nat,
                            prunes: (string, string) -> bool) returns (r: Report, attempts: seq<(string, TwinState)>)
    ensures var prunable := AllPrunable(twins, rank, cutoff);
            && (attempts, r.pruned) == R.Work(prunable, ById(prunes), cap)
            && r.eligible == |prunable|
            && r.twinsScanned == Scanned(twins)
            && r.failed == |twins| - Scanned(twins) + |attempts| - r.pruned
            && r.capped == (|attempts| < |prunable|)
            && r.skippedUnanchored == AllUnanchored(twins, rank, cutoff)
  {
    hide R.Work, Prunable, Tag, ById, Unanchored;
    r := Report(0, 0, 0, 0, 0, false);
    attempts := [];
    R.WorkNothing(ById(prunes), cap);
    for i := 0 to |twins|
      invariant (attempts, r.pruned) == R.Work(AllPrunable(twins[..i], rank, cutoff), ById(prunes), cap)
      invariant r.eligible == |AllPrunable(twins[..i], rank, cutoff)|
      invariant r.twinsScanned == Scanned(twins[..i])
      invariant r.failed == i - Scanned(twins[..i]) + |attempts| - r.pruned
      invariant r.capped <==> |attempts| < |AllPrunable(twins[..i], rank, cutoff)|
      invariant r.skippedUnanchored == AllUnanchored(twins[..i], rank, cutoff)
    {
      assert twins[..i + 1][..i] == twins[..i];
      var (twin, snapshot) := twins[i];
      ghost var before := AllPrunable(twins[..i], rank, cutoff);
      if snapshot.None? {
        assert AllPrunable(twins[..i + 1], rank, cutoff) == before;
        r := r.(failed := r.failed + 1);
      } else {
        assert AllPrunable(twins[..i + 1], rank, cutoff) == before + Tag(twin, Prunable(snapshot.value, rank, cutoff));
        TagSize(twin, Prunable(snapshot.value, rank, cutoff));
        attempts, r := PruneTwin(twin, snapshot.value, rank, cutoff, cap, prunes, before, attempts, r);
      }
    }
    assert twins[..|twins|] == twins;
  }

  lemma TagSize(twin: string, states: seq<TwinState>)
    ensures |Tag(twin, states)| == |states|
  {}

  /* ---- The newest state of a stream ---- */

  /** The other state was not observed later, nor at the same time under an id that sorts behind. */
  ghost predicate AsNew(rank: string -> int, s: TwinState, other: TwinState) {
    other.observedAt <= s.observedAt && (other.observedAt == s.observedAt ==> rank(other.id) <= rank(s.id))
  }

  ghost predicate IsNewest(states: seq<TwinState>, rank: string -> int, s: TwinState) {
    s in states && forall o :: o in states && SameStream(o, s) ==> AsNew(rank, s, o)
  }

  /** States are distinct objects, and the collation tells their ids apart. */
  predicate DistinctStates(states: seq<TwinState>, rank: string -> int) {
    forall i, j :: 0 <= i < j < |states| ==> rank(states[i].id) != rank(states[j].id)
  }

  /** States that share a key share a stream. */
  predicate KeysFaithful(states: seq<TwinState>) {
    forall a, b :: a in states && b in states && Key(a) == Key(b) ==> SameStream(a, b)
  }

  ghost predicate Leads(states: seq<TwinState>, rank: string -> int, w: TwinState, s: TwinState) {
    w in states && Key(w) == Key(s) && forall o :: o in states && Key(o) == Key(s) ==> NewestFirst(rank)(w, o)
  }

  /** In newest-first order, the state remembered for a key leads all states of that key. */
  lemma {:induction false} FirstsLead(states: seq<TwinState>, rank: string -> int, s: TwinState) returns (w: TwinState)
    requires Sorted(states, NewestFirst(rank)) && s in states
    ensures Key(s) in Firsts(states) && Firsts(states)[Key(s)] == w.id && Leads(states, rank, w, s)
  {
    hide Key, NewestFirst, Leads;
    var rest := states[..|states| - 1];
    if k: nat :| k < |rest| && Key(rest[k]) == Key(s) {
      w := FirstsLead(rest, rank, rest[k]);
      LeadsOn(states, rank, w, rest[k], s);
    } else {
      w := states[|states| - 1];
      FirstsAbsent(rest, Key(s));
      OnlyLeads(states, rank, s);
    }
  }

  /** A state whose key no earlier one has leads. */
  lemma OnlyLeads(states: seq<TwinState>, rank: string -> int, s: TwinState)
    requires s in states && forall k :: 0 <= k < |states| - 1 ==> Key(states[k]) != Key(s)
    ensures s == states[|states| - 1] && Leads(states, rank, s, s)
  {
    hide Key;
  }

  /** The leader of the earlier states also leads the last one. */
  lemma LeadsOn(states: seq<TwinState>, rank: string -> int, w: TwinState, t: TwinState, s: TwinState)
    requires states != [] && Sorted(states, NewestFirst(rank))
    requires Leads(states[..|states| - 1], rank, w, t) && Key(t) == Key(s)
    ensures Leads(states, rank, w, s)
  {}

  lemma {:induction false} FirstsAbsent(states: seq<TwinState>, key: string)
    requires forall i :: 0 <= i < |states| ==> Key(states[i]) != key
    ensures key !in Firsts(states)
  {
    hide Key;
    if states != [] {
      FirstsAbsent(states[..|states| - 1], key);
    }
  }

  lemma {:induction false} NewestExists(states: seq<TwinState>, rank: string -> int, s: TwinState) returns (m: TwinState)
    requires s in states
    ensures IsNewest(states, rank, m) && SameStream(m, s)
  {
    var rest := states[..|states| - 1];
    var last := states[|states| - 1];
    assert states == rest + [last];
    if k: nat :| k < |rest| && SameStream(rest[k], s) {
      m := NewestExists(rest, rank, rest[k]);
      if SameStream(last, s) && !NewestFirst(rank)(m, last) {
        assert NewestFirst(rank)(last, m);
        m := last;
      }
    } else {
      m := last;
    }
  }

  lemma SameRankSame(states: seq<TwinState>, rank: string -> int, a: TwinState, b: TwinState)
    requires DistinctStates(states, rank) && a in states && b in states && rank(a.id) == rank(b.id)
    ensures a == b
  {}

  lemma RememberedLeads(states: seq<TwinState>, rank: string -> int, s: TwinState) returns (w: TwinState)
    requires s in states
    ensures Key(s) in Newest(states, rank) && Newest(states, rank)[Key(s)] == w.id && Leads(states, rank, w, s)
  {
    hide Key;
    OrdersAreTotal(rank);
    SortSpec(states, NewestFirst(rank));
    SortMembers(states, NewestFirst(rank));
    w := FirstsLead(Sort(states, NewestFirst(rank)), rank, s);
  }

  lemma NewestIsSpared(states: seq<TwinState>, rank: string -> int, s: TwinState)
    requires DistinctStates(states, rank) && KeysFaithful(states) && IsNewest(states, rank, s)
    ensures Spared(Newest(states, rank), s)
  {
    hide Key, Newest;
    var w := RememberedLeads(states, rank, s);
    assert SameStream(w, s);
    assert NewestFirst(rank)(s, w) && NewestFirst(rank)(w, s);
    SameRankSame(states, rank, w, s);
  }

  lemma SharedKeyLosesOne(states: seq<TwinState>, rank: string -> int, a: TwinState, b: TwinState)
    requires DistinctStates(states, rank) && a in states && b in states && Key(a) == Key(b) && !SameStream(a, b)
    ensures exists s :: IsNewest(states, rank, s) && !Spared(Newest(states, rank), s)
  {
    hide Newest;
    var x := NewestExists(states, rank, a);
    var y := NewestExists(states, rank, b);
    assert Key(x) == Key(y);
    assert rank(x.id) == rank(y.id) ==> x == y by {
      if rank(x.id) == rank(y.id) {
        SameRankSame(states, rank, x, y);
      }
    }
    assert x.id != y.id;
  }

  /** Every stream keeps its newest state exactly when no two streams of the snapshot share a key. */
  lemma NewestKeptExactly(states: seq<TwinState>, rank: string -> int)
    requires DistinctStates(states, rank)
    ensures (forall s :: IsNewest(states, rank, s) ==> Spared(Newest(states, rank), s)) <==> KeysFaithful(states)
  {
    hide Key, Newest, IsNewest, Spared, SameStream;
    if KeysFaithful(states) {
      forall s | IsNewest(states, rank, s)
        ensures Spared(Newest(states, rank), s)
      {
        NewestIsSpared(states, rank, s);
      }
    } else {
      var a, b :| a in states && b in states && Key(a) == Key(b) && !SameStream(a, b);
      SharedKeyLosesOne(states, rank, a, b);
    }
  }

  /** Aspect codes without a NUL character never make keys collide. */
  lemma PlainAspectsAreFaithful(states: seq<TwinState>)
    requires forall s :: s in states ==> '\0' !in s.aspectCode
    ensures KeysFaithful(states)
  {
    forall a, b | a in states && b in states && Key(a) == Key(b)
      ensures SameStream(a, b)
    {
      JoinedApart(a.aspectCode, a.sampleType, b.aspectCode, b.sampleType);
    }
  }

  lemma JoinedApart(a: string, x: string, b: string, y: string)
    requires '\0' !in a && '\0' !in b && a + "\0" + x == b + "\0" + y
    ensures a == b && x == y
  {
    var s := a + "\0" + x;
    assert s[|a|] == '\0' && s[|b|] == '\0';
    assert forall i :: 0 <= i < |a| ==> s[i] == a[i];
    assert forall i :: 0 <= i < |b| ==> s[i] == b[i];
    assert a == s[..|a|] && b == s[..|b|];
    assert x == s[|a| + 1..] && y == s[|b| + 1..];
  }

  /* ---- Main results of the run ---- */

  lemma {:induction false} EligibleMembers(snapshot: Snapshot, newest: map<string, string>, cutoff: int, states: seq<TwinState>)
    ensures forall s :: s in EligibleOf(snapshot, newest, cutoff, states)
                        <==> s in states && FateOf(snapshot, newest, cutoff, s).Eligible?
  {
    hide FateOf;
    if states != [] {
      EligibleMembers(snapshot, newest, cutoff, states[..|states| - 1]);
      assert states == states[..|states| - 1] + [states[|states| - 1]];
    }
  }

  lemma {:induction false} EligibleSorted(snapshot: Snapshot, newest: map<string, string>, cutoff: int, states: seq<TwinState>, rank: string -> int)
    requires Sorted(states, OldestFirst(rank))
    ensures Sorted(EligibleOf(snapshot, newest, cutoff, states), OldestFirst(rank))
  {
    hide FateOf, OldestFirst;
    if states != [] {
      var rest := states[..|states| - 1];
      EligibleSorted(snapshot, newest, cutoff, rest, rank);
      EligibleMembers(snapshot, newest, cutoff, rest);
      var kept := EligibleOf(snapshot, newest, cutoff, rest);
      forall i | 0 <= i < |kept|
        ensures OldestFirst(rank)(kept[i], states[|states| - 1])
      {
        assert kept[i] in rest;
        var k :| 0 <= k < |rest| && rest[k] == kept[i];
        assert states[k] == kept[i];
      }
    }
  }

  /** Each Twin's prunable states are tried in the order in which they were observed. */
  lemma PrunableOldestFirst(snapshot: Snapshot, rank: string -> int, cutoff: int, i: nat, j: nat)
    requires i < j < |Prunable(snapshot, rank, cutoff)|
    ensures Prunable(snapshot, rank, cutoff)[i].observedAt <= Prunable(snapshot, rank, cutoff)[j].observedAt
  {
    OrdersAreTotal(rank);
    SortSpec(snapshot.states, OldestFirst(rank));
    EligibleSorted(snapshot, Newest(snapshot.states, rank), cutoff, Sort(snapshot.states, OldestFirst(rank)), rank);
    assert OldestFirst(rank)(Prunable(snapshot, rank, cutoff)[i], Prunable(snapshot, rank, cutoff)[j]);
  }

  ghost predicate PrunableIn(twins: seq<(string, Option<Snapshot>)>, rank: string -> int, cutoff: int, x: (string, TwinState)) {
    exists i :: 0 <= i < |twins| && twins[i].0 == x.0 && twins[i].1.Some? && x.1 in Prunable(twins[i].1.value, rank, cutoff)
  }

  lemma {:induction false} AllPrunableMembers(twins: seq<(string, Option<Snapshot>)>, rank: string -> int, cutoff: int)
    ensures forall x :: x in AllPrunable(twins, rank, cutoff) <==> PrunableIn(twins, rank, cutoff, x)
  {
    hide Prunable;
    if twins != [] {
      var rest := twins[..|twins| - 1];
      var last := twins[|twins| - 1];
      AllPrunableMembers(rest, rank, cutoff);
      forall x
        ensures PrunableIn(twins, rank, cutoff, x) <==>
                PrunableIn(rest, rank, cutoff, x) || (last.0 == x.0 && last.1.Some? && x.1 in Prunable(last.1.value, rank, cutoff))
      {
        if PrunableIn(rest, rank, cutoff, x) {
          var i :| 0 <= i < |rest| && rest[i].0 == x.0 && rest[i].1.Some? && x.1 in Prunable(rest[i].1.value, rank, cutoff);
          assert twins[i] == rest[i];
        }
      }
      if last.1.Some? {
        TagMembers(last.0, Prunable(last.1.value, rank, cutoff));
      }
    }
  }

  lemma TagMembers(twin: string, states: seq<TwinState>)
    ensures forall x :: x in Tag(twin, states) <==> x.0 == twin && x.1 in states
  {
    forall s | s in states
      ensures (twin, s) in Tag(twin, states)
    {
      var i :| 0 <= i < |states| && states[i] == s;
      assert Tag(twin, states)[i] == (twin, s);
    }
  }

  lemma PrunableMembers(snapshot: Snapshot, rank: string -> int, cutoff: int)
    ensures forall s :: s in Prunable(snapshot, rank, cutoff)
                        <==> s in snapshot.states && FateOf(snapshot, Newest(snapshot.states, rank), cutoff, s).Eligible?
  {
    hide FateOf, Newest;
    OrdersAreTotal(rank);
    SortMembers(snapshot.states, OldestFirst(rank));
    EligibleMembers(snapshot, Newest(snapshot.states, rank), cutoff, Sort(snapshot.states, OldestFirst(rank)));
  }

  /** The snapshots of a run in which every Twin's streams have keys of their own. */
  ghost predicate Sound(twins: seq<(string, Option<Snapshot>)>, rank: string -> int) {
    forall i :: 0 <= i < |twins| && twins[i].1.Some? ==>
      DistinctStates(twins[i].1.value.states, rank) && KeysFaithful(twins[i].1.value.states)
  }

  /**
   Whatever the run asks to prune is, in its Twin's snapshot, old enough, receiptable and not the newest state of its
   stream; and the run asks for no more than the cap lets succeed.
   */
  lemma PrunesAreSafe(twins: seq<(string, Option<Snapshot>)>, rank: string -> int, cutoff: int, cap: nat,
                      prunes: (string, string) -> bool, x: (string, TwinState))
    requires Sound(twins, rank)
    requires x in R.Work(AllPrunable(twins, rank, cutoff), ById(prunes), cap).0
    ensures exists i :: 0 <= i < |twins| && twins[i].0 == x.0 && twins[i].1.Some?
                        && x.1 in twins[i].1.value.states && !IsNewest(twins[i].1.value.states, rank, x.1)
                        && Publication(twins[i].1.value.events, x.1.id).Some?
                        && Publication(twins[i].1.value.events, x.1.id).value.createdAt <= cutoff
                        && Receiptable(x.1.payloadHash, Publication(twins[i].1.value.events, x.1.id).value.payloadHash)
  {
    hide R.Work, Sort, IsNewest, Publication, CanReceipt, Receiptable, KeysFaithful, DistinctStates, Newest, Spared;
    R.WorkSpec(AllPrunable(twins, rank, cutoff), ById(prunes), cap);
    AllPrunableMembers(twins, rank, cutoff);
    var all := AllPrunable(twins, rank, cutoff);
    var tried := R.Work(all, ById(prunes), cap).0;
    assert tried == all[..|tried|];
    assert PrunableIn(twins, rank, cutoff, x);
    var i :| 0 <= i < |twins| && twins[i].0 == x.0 && twins[i].1.Some? && x.1 in Prunable(twins[i].1.value, rank, cutoff);
    var snapshot := twins[i].1.value;
    PrunableMembers(snapshot, rank, cutoff);
    NewestKeptExactly(snapshot.states, rank);
    ReceiptExactly(x.1.payloadHash, Publication(snapshot.events, x.1.id).value.payloadHash);
  }

  /** Over all Twins together at most `cap` prunes succeed, and a prunable state is left alone only once that many did. */
  lemma PruneBudget(twins: seq<(string, Option<Snapshot>)>, rank: string -> int, cutoff: int, cap: nat, prunes: (string, string) -> bool)
    ensures var all := AllPrunable(twins, rank, cutoff);
            var (attempts, pruned) := R.Work(all, ById(prunes), cap);
            && attempts <= all && pruned <= cap && (attempts != all ==> pruned == cap)
            && pruned == R.Successes(attempts, ById(prunes))
  {
    R.WorkSpec(AllPrunable(twins, rank, cutoff), ById(prunes), cap);
  }

  /* ---- When a newest state is pruned ---- */

  /** A newer state of another stream has the same key. */
  ghost predicate Overshadowed(states: seq<TwinState>, rank: string -> int, s: TwinState) {
    exists o :: o in states && Key(o) == Key(s) && !SameStream(o, s) && AsNew(rank, o, s)
  }

  lemma SparedExactly(states: seq<TwinState>, rank: string -> int, s: TwinState)
    requires DistinctStates(states, rank) && IsNewest(states, rank, s)
    ensures Spared(Newest(states, rank), s) <==> !Overshadowed(states, rank, s)
  {
    hide Key, Newest;
    var w := RememberedLeads(states, rank, s);
    if SameStream(w, s) {
      assert NewestFirst(rank)(s, w) && NewestFirst(rank)(w, s);
      SameRankSame(states, rank, w, s);
    }
    if w.id == s.id {
      SameRankSame(states, rank, w, s);
      forall o | o in states && Key(o) == Key(s) && NewestFirst(rank)(o, s)
        ensures SameStream(o, s)
      {
        assert NewestFirst(rank)(s, o);
        SameRankSame(states, rank, o, s);
      }
    }
  }

  /** The newest state of a stream that the program takes for a superseded one, old enough and receiptable. */
  ghost predicate Exposed(snapshot: Snapshot, rank: string -> int, cutoff: int, s: TwinState) {
    && IsNewest(snapshot.states, rank, s)
    && Overshadowed(snapshot.states, rank, s)
    && var publication := Publication(snapshot.events, s.id);
       publication.Some? && publication.value.createdAt <= cutoff && Receiptable(s.payloadHash, publication.value.payloadHash)
  }

  lemma ExposedExactly(snapshot: Snapshot, rank: string -> int, cutoff: int, s: TwinState)
    requires DistinctStates(snapshot.states, rank)
    ensures Exposed(snapshot, rank, cutoff, s)
            <==> IsNewest(snapshot.states, rank, s) && s in Prunable(snapshot, rank, cutoff)
  {
    hide Key, Newest, Spared, Overshadowed, Publication, CanReceipt, Receiptable, Prunable, DistinctStates;
    PrunableMembers(snapshot, rank, cutoff);
    if Publication(snapshot.events, s.id).Some? {
      ReceiptExactly(s.payloadHash, Publication(snapshot.events, s.id).value.payloadHash);
    }
    if IsNewest(snapshot.states, rank, s) {
      SparedExactly(snapshot.states, rank, s);
    }
  }

  /** The listing names each Twin once, and every snapshot's states can be told apart. */
  ghost predicate Listing(twins: seq<(string, Option<Snapshot>)>, rank: string -> int) {
    && (forall i, j :: 0 <= i < j < |twins| ==> twins[i].0 != twins[j].0)
    && (forall i :: 0 <= i < |twins| && twins[i].1.Some? ==> DistinctStates(twins[i].1.value.states, rank))
  }

  ghost predicate NewestIn(twins: seq<(string, Option<Snapshot>)>, rank: string -> int, x: (string, TwinState)) {
    exists i :: 0 <= i < |twins| && twins[i].0 == x.0 && twins[i].1.Some? && IsNewest(twins[i].1.value.states, rank, x.1)
  }

  ghost predicate ExposedIn(twins: seq<(string, Option<Snapshot>)>, rank: string -> int, cutoff: int, x: (string, TwinState)) {
    exists i :: 0 <= i < |twins| && twins[i].0 == x.0 && twins[i].1.Some? && Exposed(twins[i].1.value, rank, cutoff, x.1)
  }

  lemma ExposedInExactly(twins: seq<(string, Option<Snapshot>)>, rank: string -> int, cutoff: int, x: (string, TwinState))
    requires Listing(twins, rank)
    ensures ExposedIn(twins, rank, cutoff, x) <==> NewestIn(twins, rank, x) && x in AllPrunable(twins, rank, cutoff)
  {
    hide Prunable, AllPrunable, IsNewest, Exposed, DistinctStates;
    AllPrunableMembers(twins, rank, cutoff);
    forall i | 0 <= i < |twins| && twins[i].1.Some?
      ensures Exposed(twins[i].1.value, rank, cutoff, x.1)
              <==> IsNewest(twins[i].1.value.states, rank, x.1) && x.1 in Prunable(twins[i].1.value, rank, cutoff)
    {
      ExposedExactly(twins[i].1.value, rank, cutoff, x.1);
    }
  }

  /** Some prunable state that is exposed is reached before the cap. */
  ghost predicate ReachesExposed(twins: seq<(string, Option<Snapshot>)>, rank: string -> int, cutoff: int, cap: nat,
                                 prunes: (string, string) -> bool) {
    var all := AllPrunable(twins, rank, cutoff);
    exists k :: 0 <= k < |all| && ExposedIn(twins, rank, cutoff, all[k]) && R.Successes(all[..k], ById(prunes)) < cap
  }

  /** The run asks to prune the newest state of some stream. */
  ghost predicate AsksForNewest(twins: seq<(string, Option<Snapshot>)>, rank: string -> int, cutoff: int, cap: nat,
                                prunes: (string, string) -> bool) {
    exists x :: x in R.Work(AllPrunable(twins, rank, cutoff), ById(prunes), cap).0 && NewestIn(twins, rank, x)
  }

  /** A run asks to prune the newest state of a stream exactly when it reaches an exposed one before its cap. */
  lemma NewestPrunedExactly(twins: seq<(string, Option<Snapshot>)>, rank: string -> int, cutoff: int, cap: nat,
                            prunes: (string, string) -> bool)
    requires Listing(twins, rank)
    ensures AsksForNewest(twins, rank, cutoff, cap, prunes) <==> ReachesExposed(twins, rank, cutoff, cap, prunes)
  {
    hide R.Work, R.Successes, AllPrunable, NewestIn, ExposedIn, Listing, ById;
    var all := AllPrunable(twins, rank, cutoff);
    var tried := R.Work(all, ById(prunes), cap).0;
    R.WorkSpec(all, ById(prunes), cap);
    forall k | 0 <= k < |all|
      ensures k < |tried| <==> R.Successes(all[..k], ById(prunes)) < cap
      ensures ExposedIn(twins, rank, cutoff, all[k]) <==> NewestIn(twins, rank, all[k])
    {
      R.TriedExactly(all, ById(prunes), cap, k);
      ExposedInExactly(twins, rank, cutoff, all[k]);
    }
    assert tried == all[..|tried|];
    assert forall k :: 0 <= k < |tried| ==> tried[k] == all[k];
  }

  /** No cap ever lets a run ask to prune the newest state of a stream exactly when no state of a snapshot is exposed. */
  lemma NewestSafeExactly(twins: seq<(string, Option<Snapshot>)>, rank: string -> int, cutoff: int, prunes: (string, string) -> bool)
    requires Listing(twins, rank)
    ensures (forall cap: nat :: !AsksForNewest(twins, rank, cutoff, cap, prunes))
            <==> forall x :: !ExposedIn(twins, rank, cutoff, x)
  {
    hide R.Work, R.Successes, AllPrunable, NewestIn, ExposedIn, Listing, ById, AsksForNewest;
    var all := AllPrunable(twins, rank, cutoff);
    forall cap: nat
      ensures AsksForNewest(twins, rank, cutoff, cap, prunes) <==> ReachesExposed(twins, rank, cutoff, cap, prunes)
    {
      NewestPrunedExactly(twins, rank, cutoff, cap, prunes);
    }
    if x :| ExposedIn(twins, rank, cutoff, x) {
      ExposedInExactly(twins, rank, cutoff, x);
      var k :| 0 <= k < |all| && all[k] == x;
      R.SuccessesGrow(all, k, ById(prunes));
      assert ReachesExposed(twins, rank, cutoff, k + 1, prunes);
      assert AsksForNewest(twins, rank, cutoff, k + 1, prunes);
    }
  }

  /** One Twin with two streams whose joined keys agree; the older state is published, the newer one is not. */
  function NulListing(): seq<(string, Option<Snapshot>)> {
    var older := TwinState("0x1", 1, "p\0q", "r", seq(64, _ => 'a'));
    var newer := TwinState("0x2", 2, "p", "q\0r", "");
    [("t", Some(Snapshot([older, newer], [Event(30, "0x1", "", 3)])))]
  }

  /** On that listing every run with a cap asks to prune the newest state of a stream. */
  lemma NulInAspectPrunesNewest(rank: string -> int, cap: nat, prunes: (string, string) -> bool)
    requires rank("0x1") != rank("0x2") && cap > 0
    ensures AsksForNewest(NulListing(), rank, 5, cap, prunes)
  {
    hide R.Work, AllPrunable;
    var twins := NulListing();
    var snapshot := twins[0].1.value;
    var s, newer := snapshot.states[0], snapshot.states[1];
    assert Key(s) == "p\0q\0r" == Key(newer);
    assert Exposed(snapshot, rank, 5, s) by {
      HashOfLetters(s.payloadHash);
      assert newer in snapshot.states && Lower("0x1") == "0x1";
    }
    ExposedExactly(snapshot, rank, 5, s);
    SparedExactly(snapshot.states, rank, newer);
    PrunableMembers(snapshot, rank, 5);
    OneTwinFirst(twins, rank, 5, s, cap, prunes);
    assert NewestIn(twins, rank, (twins[0].0, s));
  }

  lemma HashOfLetters(hash: string)
    requires |hash| == 64 && forall i :: 0 <= i < 64 ==> hash[i] == 'a'
    ensures Receiptable(hash, "")
  {
    assert Lower(hash) == hash;
    assert Hex64Digits(hash) && Names(hash, hash);
  }

  /** With one Twin and one prunable state, a run with a cap asks for that state. */
  lemma OneTwinFirst(twins: seq<(string, Option<Snapshot>)>, rank: string -> int, cutoff: int, s: TwinState, cap: nat,
                     prunes: (string, string) -> bool)
    requires |twins| == 1 && twins[0].1.Some? && cap > 0
    requires forall o :: o in Prunable(twins[0].1.value, rank, cutoff) <==> o == s
    ensures (twins[0].0, s) in R.Work(AllPrunable(twins, rank, cutoff), ById(prunes), cap).0
  {
    hide R.Work, Prunable, AllPrunable, ById, R.Successes;
    var all := AllPrunable(twins, rank, cutoff);
    AllPrunableMembers(twins, rank, cutoff);
    assert PrunableIn(twins, rank, cutoff, (twins[0].0, s));
    assert all[0] in all;
    assert all[0] == (twins[0].0, s);
    FirstIsTried(all, ById(prunes), cap);
  }

  lemma FirstIsTried(items: seq<(string, TwinState)>, succeeds: ((string, TwinState)) -> bool, cap: nat)
    requires items != [] && cap > 0
    ensures items[0] in R.Work(items, succeeds, cap).0
  {
    hide R.Work;
    R.TriedExactly(items, succeeds, cap, 0);
    R.WorkSpec(items, succeeds, cap);
  }
}
