/** The encrypted plant catalog shared by independent processes: a lock file, a revision check and an atomic rename. */
module PlantCatalog {
  import opened Text
  import opened Wrappers

  /*
   Writers may fail or die between any two awaits. Hashes are kept as the values they hash, and the authenticated encryption
   as a blob that carries the data it is bound to.
   */

  const MAX_SAFE: nat := 9007199254740991

  /** A tenant scope and a plant id. */
  datatype Key = Key(scope: string, plant: string)

  datatype Publication = Publication(name: string, longitude: real, latitude: real)

  /** The public projection stored in the clear next to the pointer. */
  datatype Projection = Projection(id: string, shown: Publication)

  datatype Pointer = Pointer(key: Key, revision: nat, uri: nat, projection: Option<Projection>)

  /** What a stored blob authenticates (key, revision, projection) and holds. */
  datatype Envelope<D> = Envelope(key: Key, revision: nat, projection: Option<Projection>, id: string, document: D)

  datatype Request<D> = Request(key: Key, revision: int, document: D, publication: Option<Publication>)

  /* ---- Input checks ---- */

  predicate IdStart(c: char) {
    'a' <= c <= 'z' || 'A' <= c <= 'Z' || '0' <= c <= '9'
  }

  predicate ValidId(id: string) {
    && 1 <= |id| <= 128 && IdStart(id[0])
    && forall i :: 1 <= i < |id| ==> IdStart(id[i]) || id[i] == '.' || id[i] == '_' || id[i] == '-'
  }

  predicate Blank(name: string) {
    forall i :: 0 <= i < |name| ==> name[i] == ' ' || '\t' <= name[i] <= '\r'
  }

  predicate ValidPublication(p: Publication) {
    && !Blank(p.name) && |p.name| <= 256
    && -90.0 <= p.latitude <= 90.0 && -180.0 <= p.longitude <= 180.0
  }

  predicate ValidRequest<D>(r: Request<D>) {
    && ValidId(r.key.plant) && 0 <= r.revision < MAX_SAFE
    && (r.publication.Some? ==> ValidPublication(r.publication.value))
  }

  function ProjectionOf<D>(r: Request<D>): Option<Projection> {
    if r.publication.Some? then Some(Projection(r.key.plant, r.publication.value)) else None
  }

  /* ---- Catalog contents ---- */

  function Find(catalog: seq<Pointer>, key: Key): Option<Pointer> {
    if catalog == [] then None
    else if catalog[0].key == key then Some(catalog[0])
    else Find(catalog[1..], key)
  }

  function RevisionOf(catalog: seq<Pointer>, key: Key): nat {
    var found := Find(catalog, key);
    if found.Some? then found.value.revision else 0
  }

  function Others(catalog: seq<Pointer>, key: Key): seq<Pointer> {
    if catalog == [] then []
    else (if catalog[0].key != key then [catalog[0]] else []) + Others(catalog[1..], key)
  }

  function Replace(catalog: seq<Pointer>, p: Pointer): seq<Pointer> {
    Others(catalog, p.key) + [p]
  }

  predicate DistinctKeys(catalog: seq<Pointer>) {
    forall i, j :: 0 <= i < j < |catalog| ==> catalog[i].key != catalog[j].key
  }

  predicate ValidPointer(p: Pointer) {
    && 1 <= p.revision <= MAX_SAFE
    && (p.projection.Some? ==>
          ValidId(p.projection.value.id) && p.projection.value.id == p.key.plant && ValidPublication(p.projection.value.shown))
  }

  /** What reading the catalog file back accepts. */
  predicate Acceptable(catalog: seq<Pointer>) {
    DistinctKeys(catalog) && forall p :: p in catalog ==> ValidPointer(p)
  }

  /** The reader's loop over the parsed entries. */
  method CheckCatalog(entries: seq<Pointer>) returns (ok: bool)
    ensures ok <==> Acceptable(entries)
  {
    var seen: set<Key> := {};
    for i := 0 to |entries|
      invariant seen == set p | p in entries[..i] :: p.key
      invariant Acceptable(entries[..i])
    {
      var entry := entries[i];
      assert entries[..i + 1] == entries[..i] + [entry];
      assert entry in entries;
      if !ValidPointer(entry) {
        return false;
      }
      if entry.key in seen {
        var p :| p in entries[..i] && p.key == entry.key;
        var k :| 0 <= k < i && entries[k] == p;
        assert entries[k].key == entries[i].key;
        return false;
      }
      assert forall p :: p in entries[..i] ==> p.key in seen;
      seen := seen + {entry.key};
    }
    assert entries[..|entries|] == entries;
    ok := true;
  }

  lemma {:induction false} FindMember(catalog: seq<Pointer>, key: Key)
    ensures var f := Find(catalog, key);
            if f.Some? then f.value in catalog && f.value.key == key else forall p :: p in catalog ==> p.key != key
  {
    if catalog != [] && catalog[0].key != key {
      FindMember(catalog[1..], key);
    }
  }

  lemma {:induction false} OthersMembers(catalog: seq<Pointer>, key: Key)
    ensures forall p :: p in Others(catalog, key) <==> p in catalog && p.key != key
    ensures DistinctKeys(catalog) ==> DistinctKeys(Others(catalog, key))
  {
    if catalog != [] {
      OthersMembers(catalog[1..], key);
      var rest := Others(catalog[1..], key);
      assert forall j :: 0 <= j < |rest| ==> rest[j] in catalog[1..];
    }
  }

  lemma ReplaceMembers(catalog: seq<Pointer>, p: Pointer)
    ensures forall q :: q in Replace(catalog, p) <==> (q in catalog && q.key != p.key) || q == p
    ensures DistinctKeys(catalog) ==> DistinctKeys(Replace(catalog, p))
  {
    OthersMembers(catalog, p.key);
    var rest := Others(catalog, p.key);
    assert forall j :: 0 <= j < |rest| ==> rest[j] in rest;
  }

  /* ---- The shared state and its writers ---- */

  datatype Outcome = Success(revision: nat) | Invalid | Busy | Conflict(revision: nat) | Refused | Faulted

  /** Where a writer stands between two awaits. `Dead` is a process that stopped for good. */
  datatype Phase =
    | Ready
    | Locked
    | Loaded(catalog: seq<Pointer>)
    | Validated(catalog: seq<Pointer>)
    | Stored(catalog: seq<Pointer>, uri: nat)
    | Written(next: seq<Pointer>)
    | Renamed
    | Done(outcome: Outcome)
    | Dead

  datatype Writer<D> = Writer(request: Request<D>, phase: Phase)

  /** One committed document; `writer` is who committed it. */
  datatype Commit<D> = Commit(writer: nat, document: D, publication: Option<Publication>)

  /** The files and blobs, the writers, and the history of commits per key. */
  datatype State<D> = State(file: Option<seq<Pointer>>, lockFile: bool, blobs: map<nat, Envelope<D>>,
                            writers: map<nat, Writer<D>>, log: map<Key, seq<Commit<D>>>)

  datatype Action<D> =
    | Begin(w: nat, request: Request<D>)
    | OpenLock(w: nat)
    | Load(w: nat)
    | Validate(w: nat, accepted: bool)
    | StoreBlob(w: nat, uri: nat)
    | WriteTemporary(w: nat)
    | Rename(w: nat)
    | Release(w: nat)
    | Fault(w: nat, unlinked: bool)
    | Crash(w: nat)

  function Current<D>(s: State<D>): seq<Pointer> {
    if s.file.Some? then s.file.value else []
  }

  function History<D>(log: map<Key, seq<Commit<D>>>, key: Key): seq<Commit<D>> {
    if key in log then log[key] else []
  }

  function At<D>(s: State<D>, w: nat, phase: Phase): State<D>
    requires w in s.writers
  {
    s.(writers := s.writers[w := Writer(s.writers[w].request, phase)])
  }

  predicate Holds(phase: Phase) {
    phase.Locked? || phase.Loaded? || phase.Validated? || phase.Stored? || phase.Written? || phase.Renamed?
  }

  function NewPointer<D>(r: Request<D>, uri: nat): Pointer
    requires r.revision >= 0
  {
    Pointer(r.key, r.revision + 1, uri, ProjectionOf(r))
  }

  /** One atomic compare-and-swap: what a whole put amounts to. */
  function AtomicPut<D>(log: map<Key, seq<Commit<D>>>, w: nat, r: Request<D>): map<Key, seq<Commit<D>>> {
    log[r.key := History(log, r.key) + [Commit(w, r.document, r.publication)]]
  }

  /** One step of one writer; an action that is not possible now changes nothing. */
  function Step<D>(s: State<D>, a: Action<D>): State<D> {
    if a.Begin? then
      if a.w in s.writers then s
      else s.(writers := s.writers[a.w := Writer(a.request, if ValidRequest(a.request) then Ready else Done(Invalid))])
    else if a.w !in s.writers then s
    else
      var writer := s.writers[a.w];
      var r, phase := writer.request, writer.phase;
      match a
      case OpenLock(w) =>
        if !phase.Ready? then s
        else if s.lockFile then At(s, w, Done(Busy))
        else At(s.(lockFile := true), w, Locked)
      case Load(w) =>
        if !phase.Locked? then s
        else
          var found := RevisionOf(Current(s), r.key);
          if found != r.revision then At(s.(lockFile := false), w, Done(Conflict(found)))
          else At(s, w, Loaded(Current(s)))
      case Validate(w, accepted) =>
        if !phase.Loaded? then s
        else if !accepted then At(s.(lockFile := false), w, Done(Refused))
        else At(s, w, Validated(phase.catalog))
      case StoreBlob(w, uri) =>
        if !phase.Validated? || uri in s.blobs || r.revision < 0 then s
        else At(s.(blobs := s.blobs[uri := Envelope(r.key, r.revision + 1, ProjectionOf(r), r.key.plant, r.document)]),
                w, Stored(phase.catalog, uri))
      case WriteTemporary(w) =>
        if !phase.Stored? || r.revision < 0 then s
        else At(s, w, Written(Replace(phase.catalog, NewPointer(r, phase.uri))))
      case Rename(w) =>
        if !phase.Written? then s
        else At(s.(file := Some(phase.next), log := AtomicPut(s.log, w, r)), w, Renamed)
      case Release(w) =>
        if !phase.Renamed? || r.revision < 0 then s
        else At(s.(lockFile := false), w, Done(Success(r.revision + 1)))
      case Fault(w, unlinked) =>
        if phase.Ready? then At(s, w, Done(Faulted))
        else if Holds(phase) then At(s.(lockFile := s.lockFile && !unlinked), w, Done(Faulted))
        else s
      case Crash(w) =>
        if phase.Done? then s else At(s, w, Dead)
  }

  function Exec<D>(s: State<D>, actions: seq<Action<D>>): State<D> {
    if actions == [] then s
    else Step(Exec(s, actions[..|actions| - 1]), actions[|actions| - 1])
  }

  function Initial<D>(): State<D> {
    State(None, false, map[], map[], map[])
  }

  /* ---- The invariant ---- */

  /** The pointer leads to a blob bound to it that holds the last committed document of its key. */
  ghost predicate PointsToLast<D>(s: State<D>, p: Pointer) {
    && p.key in s.log && |s.log[p.key]| == p.revision > 0
    && p.uri in s.blobs
    && (var last := s.log[p.key][p.revision - 1];
        && s.blobs[p.uri] == Envelope(p.key, p.revision, p.projection, p.key.plant, last.document)
        && p.projection == if last.publication.Some? then Some(Projection(p.key.plant, last.publication.value)) else None)
  }

  /** The file and the history describe the same documents. */
  ghost predicate FileMatchesLog<D>(s: State<D>) {
    && Acceptable(Current(s))
    && (forall p :: p in Current(s) ==> PointsToLast(s, p))
    && (forall k :: k in s.log ==> s.log[k] != [] && Find(Current(s), k).Some?)
  }

  ghost predicate LockExclusive<D>(s: State<D>) {
    && (forall w :: w in s.writers && Holds(s.writers[w].phase) ==> s.lockFile)
    && (forall v, w :: v in s.writers && w in s.writers && Holds(s.writers[v].phase) && Holds(s.writers[w].phase) ==> v == w)
  }

  /** A writer that has passed the revision check still sees the current file, and its request is admissible. */
  ghost predicate WriterConsistent<D>(s: State<D>, w: nat)
    requires w in s.writers
  {
    var r, phase := s.writers[w].request, s.writers[w].phase;
    && (phase.Ready? || Holds(phase) ==> ValidRequest(r))
    && (phase.Loaded? || phase.Validated? || phase.Stored? ==>
          phase.catalog == Current(s) && RevisionOf(Current(s), r.key) == r.revision)
    && (phase.Stored? ==>
          phase.uri in s.blobs
          && s.blobs[phase.uri] == Envelope(r.key, r.revision + 1, ProjectionOf(r), r.key.plant, r.document))
    && (phase.Written? ==>
          RevisionOf(Current(s), r.key) == r.revision
          && exists uri :: uri in s.blobs && phase.next == Replace(Current(s), NewPointer(r, uri))
               && s.blobs[uri] == Envelope(r.key, r.revision + 1, ProjectionOf(r), r.key.plant, r.document))
    && (phase.Renamed? || (phase.Done? && phase.outcome.Success?) ==> Committed(s, w))
    && (phase.Done? && phase.outcome.Success? ==> phase.outcome.revision == r.revision + 1)
  }

  /** The history holds this writer's document at the position its base revision asked for. */
  ghost predicate Committed<D>(s: State<D>, w: nat)
    requires w in s.writers
  {
    var r := s.writers[w].request;
    && 0 <= r.revision < |History(s.log, r.key)|
    && History(s.log, r.key)[r.revision] == Commit(w, r.document, r.publication)
  }

  ghost predicate Inv<D>(s: State<D>) {
    && FileMatchesLog(s) && LockExclusive(s)
    && (forall w :: w in s.writers ==> WriterConsistent(s, w))
  }

  /* ---- Every step keeps it ---- */

  /** The pointer's revision and the length of the key's history are the same number. */
  lemma RevisionIsLength<D>(s: State<D>, key: Key)
    requires FileMatchesLog(s)
    ensures RevisionOf(Current(s), key) == |History(s.log, key)|
  {
    FindMember(Current(s), key);
    if Find(Current(s), key).Some? {
      assert PointsToLast(s, Find(Current(s), key).value);
    }
  }

  /** Adding blobs disturbs neither the file nor any writer. */
  lemma BlobsGrow<D>(s: State<D>, t: State<D>)
    requires FileMatchesLog(s) && t.file == s.file && t.log == s.log
    requires forall uri :: uri in s.blobs ==> uri in t.blobs && t.blobs[uri] == s.blobs[uri]
    ensures FileMatchesLog(t)
    ensures forall w :: w in s.writers && w in t.writers && t.writers[w] == s.writers[w] && WriterConsistent(s, w) ==>
              WriterConsistent(t, w)
  {}

  /** Only writer w moved, and only it may have taken or returned the lock. */
  ghost predicate OneMoved<D>(s: State<D>, t: State<D>, w: nat) {
    && w in t.writers
    && (forall v :: v in t.writers && v != w ==> v in s.writers && t.writers[v] == s.writers[v])
    && var held, holds := w in s.writers && Holds(s.writers[w].phase), Holds(t.writers[w].phase);
       && (holds ==> t.lockFile && (held || !s.lockFile))
       && (!held ==> (s.lockFile ==> t.lockFile))
  }

  lemma LockStays<D>(s: State<D>, t: State<D>, w: nat)
    requires LockExclusive(s) && OneMoved(s, t, w)
    ensures LockExclusive(t)
  {
  }

  lemma QuietStep<D>(s: State<D>, t: State<D>, w: nat)
    requires Inv(s) && OneMoved(s, t, w) && t.file == s.file && t.log == s.log
    requires forall uri :: uri in s.blobs ==> uri in t.blobs && t.blobs[uri] == s.blobs[uri]
    requires WriterConsistent(t, w)
    ensures Inv(t)
  {
    LockStays(s, t, w);
    BlobsGrow(s, t);
  }

  lemma BeginKeeps<D>(s: State<D>, a: Action<D>)
    requires Inv(s) && a.Begin?
    ensures Inv(Step(s, a))
  {
    if a.w !in s.writers {
      QuietStep(s, Step(s, a), a.w);
    }
  }

  lemma LockKeeps<D>(s: State<D>, a: Action<D>)
    requires Inv(s) && (a.OpenLock? || a.Load? || a.Validate?)
    ensures Inv(Step(s, a))
  {
    hide ValidRequest, Acceptable, AtomicPut, Replace, ProjectionOf;
    if a.w in s.writers && Step(s, a) != s {
      assert WriterConsistent(s, a.w);
      QuietStep(s, Step(s, a), a.w);
    }
  }

  lemma ReleaseKeeps<D>(s: State<D>, a: Action<D>)
    requires Inv(s) && (a.Release? || a.Fault? || a.Crash?)
    ensures Inv(Step(s, a))
  {
    hide ValidRequest, Acceptable, AtomicPut, Replace, ProjectionOf;
    if a.w in s.writers && Step(s, a) != s {
      var t := Step(s, a);
      assert WriterConsistent(s, a.w);
      assert t.writers[a.w].request == s.writers[a.w].request;
      assert Committed(s, a.w) ==> Committed(t, a.w);
      QuietStep(s, t, a.w);
    }
  }

  lemma StoreKeeps<D>(s: State<D>, a: Action<D>)
    requires Inv(s) && a.StoreBlob?
    ensures Inv(Step(s, a))
  {
    if a.w in s.writers && Step(s, a) != s {
      assert WriterConsistent(s, a.w);
      QuietStep(s, Step(s, a), a.w);
    }
  }

  lemma WriteKeeps<D>(s: State<D>, a: Action<D>)
    requires Inv(s) && a.WriteTemporary?
    ensures Inv(Step(s, a))
  {
    if a.w in s.writers && Step(s, a) != s {
      assert WriterConsistent(s, a.w);
      var r, phase, t := s.writers[a.w].request, s.writers[a.w].phase, Step(s, a);
      assert phase.uri in t.blobs && t.writers[a.w].phase.next == Replace(Current(t), NewPointer(r, phase.uri));
      QuietStep(s, t, a.w);
    }
  }

  /** The renamed file describes exactly the extended history. */
  lemma RenamedFile<D>(s: State<D>, t: State<D>, w: nat, r: Request<D>, uri: nat)
    requires FileMatchesLog(s) && ValidRequest(r) && RevisionOf(Current(s), r.key) == r.revision
    requires uri in s.blobs && s.blobs[uri] == Envelope(r.key, r.revision + 1, ProjectionOf(r), r.key.plant, r.document)
    requires t.file == Some(Replace(Current(s), NewPointer(r, uri))) && t.log == AtomicPut(s.log, w, r) && t.blobs == s.blobs
    ensures FileMatchesLog(t)
  {
    var p := NewPointer(r, uri);
    ReplaceMembers(Current(s), p);
    RevisionIsLength(s, r.key);
    assert ValidPointer(p);
    assert PointsToLast(t, p);
    forall q | q in Current(t) ensures PointsToLast(t, q) && ValidPointer(q) {
      if q != p {
        assert PointsToLast(s, q);
      }
    }
    forall k | k in t.log ensures t.log[k] != [] && Find(Current(t), k).Some? {
      FindMember(Current(t), k);
      if k != r.key {
        FindMember(Current(s), k);
      }
    }
  }

  lemma OthersUnmoved<D>(s: State<D>, t: State<D>, w: nat, r: Request<D>)
    requires Inv(s) && w in s.writers && Holds(s.writers[w].phase)
    requires forall v :: v in t.writers && v != w ==> v in s.writers && t.writers[v] == s.writers[v]
    requires t.log == AtomicPut(s.log, w, r)
    ensures forall v :: v in t.writers && v != w ==> WriterConsistent(t, v)
  {}

  lemma RenameKeeps<D>(s: State<D>, a: Action<D>)
    requires Inv(s) && a.Rename?
    ensures Inv(Step(s, a))
  {
    if a.w in s.writers && Step(s, a) != s {
      assert WriterConsistent(s, a.w);
      var r, phase, t := s.writers[a.w].request, s.writers[a.w].phase, Step(s, a);
      var uri :| uri in s.blobs && phase.next == Replace(Current(s), NewPointer(r, uri))
        && s.blobs[uri] == Envelope(r.key, r.revision + 1, ProjectionOf(r), r.key.plant, r.document);
      OthersUnmoved(s, t, a.w, r);
      RevisionIsLength(s, r.key);
      RenamedFile(s, t, a.w, r, uri);
      LockStays(s, t, a.w);
      assert WriterConsistent(t, a.w);
    }
  }

  lemma StepKeeps<D>(s: State<D>, a: Action<D>)
    requires Inv(s)
    ensures Inv(Step(s, a))
  {
    match a
    case Begin(_, _) => BeginKeeps(s, a);
    case OpenLock(_) => LockKeeps(s, a);
    case Load(_) => LockKeeps(s, a);
    case Validate(_, _) => LockKeeps(s, a);
    case StoreBlob(_, _) => StoreKeeps(s, a);
    case WriteTemporary(_) => WriteKeeps(s, a);
    case Rename(_) => RenameKeeps(s, a);
    case Release(_) => ReleaseKeeps(s, a);
    case Fault(_, _) => ReleaseKeeps(s, a);
    case Crash(_) => ReleaseKeeps(s, a);
  }

  /** Whatever the interleaving, the faults and the crashes, every reachable state is consistent. */
  lemma {:induction false} EveryRunConsistent<D>(actions: seq<Action<D>>)
    ensures Inv(Exec(Initial(), actions))
  {
    if actions != [] {
      EveryRunConsistent(actions[..|actions| - 1]);
      StepKeeps(Exec(Initial(), actions[..|actions| - 1]), actions[|actions| - 1]);
    }
  }

  /* ---- What holds over all runs ---- */

  /**
   Every step is either invisible or one atomic compare-and-swap: only a rename extends the history, by
   the document of the renaming writer, and only at exactly the base revision it was asked for.
   */
  lemma StepIsAtomic<D>(s: State<D>, a: Action<D>)
    requires Inv(s)
    ensures Step(s, a).log != s.log ==>
              && a.Rename? && a.w in s.writers
              && var r := s.writers[a.w].request;
                 && |History(s.log, r.key)| == r.revision
                 && Step(s, a).log == AtomicPut(s.log, a.w, r)
  {
    if a.Rename? && a.w in s.writers && Step(s, a) != s {
      assert WriterConsistent(s, a.w);
      RevisionIsLength(s, s.writers[a.w].request.key);
    }
  }

  /** Each key has at most one pointer, whose revision counts its commits: the committed revisions are exactly 1, 2, 3, ... */
  lemma RevisionsExact<D>(actions: seq<Action<D>>)
    ensures var s := Exec(Initial(), actions);
            && Acceptable(Current(s))
            && (forall p :: p in Current(s) ==> p.key in s.log && p.revision == |s.log[p.key]|)
            && (forall k :: RevisionOf(Current(s), k) == |History(s.log, k)|)
  {
    EveryRunConsistent(actions);
    var s := Exec(Initial(), actions);
    forall k ensures RevisionOf(Current(s), k) == |History(s.log, k)| {
      RevisionIsLength(s, k);
    }
    forall p | p in Current(s) ensures p.key in s.log && p.revision == |s.log[p.key]| {
      assert PointsToLast(s, p);
    }
  }

  /** Of the writers that share a key and a base revision at most one succeeds. */
  lemma OneWinnerPerBase<D>(actions: seq<Action<D>>, v: nat, w: nat)
    requires var s := Exec(Initial(), actions);
             && v in s.writers && w in s.writers
             && s.writers[v].request.key == s.writers[w].request.key
             && s.writers[v].request.revision == s.writers[w].request.revision
             && s.writers[v].phase.Done? && s.writers[v].phase.outcome.Success?
             && s.writers[w].phase.Done? && s.writers[w].phase.outcome.Success?
    ensures v == w
  {
    EveryRunConsistent(actions);
    var s := Exec(Initial(), actions);
    assert WriterConsistent(s, v) && WriterConsistent(s, w);
  }

  lemma {:induction false} ExecAppend<D>(s: State<D>, a: seq<Action<D>>, b: seq<Action<D>>)
    ensures Exec(s, a + b) == Exec(Exec(s, a), b)
  {
    if b == [] {
      assert a + b == a;
    } else {
      ExecAppend(s, a, b[..|b| - 1]);
      assert (a + b)[..|a + b| - 1] == a + b[..|b| - 1];
    }
  }

  ghost predicate Extends<D>(s: State<D>, t: State<D>) {
    && (forall k :: k in s.log ==> k in t.log && s.log[k] <= t.log[k])
    && (forall uri :: uri in s.blobs ==> uri in t.blobs && t.blobs[uri] == s.blobs[uri])
  }

  lemma StepExtends<D>(s: State<D>, a: Action<D>)
    ensures Extends(s, Step(s, a))
  {
  }

  lemma ExtendsOn<D>(s: State<D>, t: State<D>, u: State<D>)
    requires Extends(s, t) && Extends(t, u)
    ensures Extends(s, u)
  {
  }

  /** Committed documents and stored blobs are never changed or removed later. */
  lemma {:induction false} HistoryOnlyGrows<D>(s: State<D>, actions: seq<Action<D>>)
    ensures Extends(s, Exec(s, actions))
  {
    hide Step;
    if actions != [] {
      var front := actions[..|actions| - 1];
      HistoryOnlyGrows(s, front);
      StepExtends(Exec(s, front), actions[|actions| - 1]);
      ExtendsOn(s, Exec(s, front), Exec(s, actions));
    }
  }

  datatype Listed<D> = Listed(id: string, revision: nat, document: D, publication: Option<Publication>)

  /** Decrypting one blob under the data its pointer binds; None is the integrity failure. */
  function Open<D>(p: Pointer, blobs: map<nat, Envelope<D>>): Option<Listed<D>> {
    if p.uri !in blobs then None
    else
      var e := blobs[p.uri];
      if e.key != p.key || e.revision != p.revision || e.projection != p.projection || e.id != p.key.plant || !ValidId(e.id) then None
      else Some(Listed(e.id, p.revision, e.document, if p.projection.Some? then Some(p.projection.value.shown) else None))
  }

  /** The listing of one tenant from a catalog read earlier; None as soon as one document cannot be authenticated. */
  function List<D>(catalog: seq<Pointer>, blobs: map<nat, Envelope<D>>, scope: string): Option<seq<Listed<D>>> {
    if catalog == [] then Some([])
    else
      var rest := List(catalog[1..], blobs, scope);
      if catalog[0].key.scope != scope then rest
      else
        var first := Open(catalog[0], blobs);
        if first.None? || rest.None? then None else Some([first.value] + rest.value)
  }

  /** What a listing has to show: for each key of the tenant the last committed document, and nothing else. */
  ghost predicate ShowsLast<D>(log: map<Key, seq<Commit<D>>>, scope: string, shown: seq<Listed<D>>) {
    && (forall l :: l in shown ==>
          var k := Key(scope, l.id);
          k in log && l.revision == |log[k]| > 0
          && l.document == log[k][l.revision - 1].document && l.publication == log[k][l.revision - 1].publication)
    && (forall k :: k in log && k.scope == scope ==> exists l :: l in shown && l.id == k.plant)
  }

  lemma OpensLast<D>(s: State<D>, t: State<D>, p: Pointer)
    requires Inv(s) && p in Current(s) && Extends(s, t)
    requires forall k :: k in s.log ==> ValidId(k.plant)
    ensures PointsToLast(s, p)
    ensures Open(p, t.blobs) ==
            var last := s.log[p.key][p.revision - 1];
            Some(Listed(p.key.plant, p.revision, last.document, last.publication))
  {}

  ghost predicate ComesFrom<D>(catalog: seq<Pointer>, blobs: map<nat, Envelope<D>>, scope: string, l: Listed<D>) {
    exists p :: p in catalog && p.key.scope == scope && Open(p, blobs) == Some(l)
  }

  lemma {:induction false} ListShows<D>(s: State<D>, t: State<D>, catalog: seq<Pointer>, scope: string)
    requires Inv(s) && Extends(s, t) && forall p :: p in catalog ==> p in Current(s)
    requires forall k :: k in s.log ==> ValidId(k.plant)
    ensures List(catalog, t.blobs, scope).Some?
    ensures forall l :: l in List(catalog, t.blobs, scope).value <==> ComesFrom(catalog, t.blobs, scope, l)
  {
    if catalog != [] {
      assert catalog[0] in catalog;
      OpensLast(s, t, catalog[0]);
      ListShows(s, t, catalog[1..], scope);
      forall l ensures ComesFrom(catalog, t.blobs, scope, l) <==>
                        ComesFrom(catalog[1..], t.blobs, scope, l) || (catalog[0].key.scope == scope && Open(catalog[0], t.blobs) == Some(l))
      {
        if ComesFrom(catalog, t.blobs, scope, l) {
          var p :| p in catalog && p.key.scope == scope && Open(p, t.blobs) == Some(l);
          assert p == catalog[0] || p in catalog[1..];
        }
      }
    }
  }

  lemma {:induction false} LoggedIdsValid<D>(actions: seq<Action<D>>)
    ensures forall k :: k in Exec(Initial(), actions).log ==> ValidId(k.plant)
  {
    if actions != [] {
      var s, a := Exec(Initial(), actions[..|actions| - 1]), actions[|actions| - 1];
      LoggedIdsValid(actions[..|actions| - 1]);
      EveryRunConsistent(actions[..|actions| - 1]);
      StepIsAtomic(s, a);
      if a.Rename? && a.w in s.writers {
        assert WriterConsistent(s, a.w);
      }
    }
  }

  /**
   A listing never fails and shows exactly the last committed documents of the moment it read the
   catalog, however many steps pass before it fetches the blobs.
   */
  lemma ListReturnsLastCommitted<D>(before: seq<Action<D>>, later: seq<Action<D>>, scope: string)
    ensures var s, t := Exec(Initial(), before), Exec(Initial(), before + later);
            var listing := List(Current(s), t.blobs, scope);
            listing.Some? && ShowsLast(s.log, scope, listing.value)
  {
    hide Exec, List, Open;
    var s, t := Exec(Initial(), before), Exec(Initial(), before + later);
    EveryRunConsistent(before);
    LoggedIdsValid(before);
    ExecAppend(Initial(), before, later);
    HistoryOnlyGrows(s, later);
    ListingIsLast(s, t, scope);
  }

  lemma ListingIsLast<D>(s: State<D>, t: State<D>, scope: string)
    requires Inv(s) && Extends(s, t)
    requires forall k :: k in s.log ==> ValidId(k.plant)
    ensures List(Current(s), t.blobs, scope).Some? && ShowsLast(s.log, scope, List(Current(s), t.blobs, scope).value)
  {
    hide List, Open;
    ListShows(s, t, Current(s), scope);
    var shown := List(Current(s), t.blobs, scope).value;
    forall l | l in shown
      ensures var k := Key(scope, l.id);
              k in s.log && l.revision == |s.log[k]| > 0
              && l.document == s.log[k][l.revision - 1].document && l.publication == s.log[k][l.revision - 1].publication
    {
      assert ComesFrom(Current(s), t.blobs, scope, l);
      var p :| p in Current(s) && p.key.scope == scope && Open(p, t.blobs) == Some(l);
      OpensLast(s, t, p);
      assert p.key == Key(scope, l.id);
    }
    forall k | k in s.log && k.scope == scope ensures exists l :: l in shown && l.id == k.plant {
      FindMember(Current(s), k);
      var p := Find(Current(s), k).value;
      OpensLast(s, t, p);
      assert ComesFrom(Current(s), t.blobs, scope, Open(p, t.blobs).value);
    }
  }

  /** The steps of one put that nothing interrupts. */
  function Alone<D>(w: nat, r: Request<D>, uri: nat): seq<Action<D>> {
    [Begin(w, r), OpenLock(w), Load(w), Validate(w, true), StoreBlob(w, uri), WriteTemporary(w), Rename(w), Release(w)]
  }

  lemma ExecOne<D>(s: State<D>, a: Action<D>, rest: seq<Action<D>>)
    ensures Exec(s, [a] + rest) == Exec(Step(s, a), rest)
  {
    ExecAppend(s, [a], rest);
    assert Exec(s, [a]) == Step(Exec(s, [a][..0]), a);
  }

  lemma ExecEight<D>(s: State<D>, all: seq<Action<D>>)
    requires |all| == 8
    ensures Exec(s, all) == Exec(Step(Step(Step(s, all[0]), all[1]), all[2]), all[3..])
    ensures Exec(s, all) == Step(Step(Step(Step(Step(Step(Step(Step(s, all[0]), all[1]), all[2]), all[3]), all[4]), all[5]), all[6]), all[7])
  {
    hide Step, Exec;
    var s3 := Step(Step(Step(s, all[0]), all[1]), all[2]);
    assert all == [all[0]] + ([all[1]] + ([all[2]] + all[3..]));
    ExecOne(s, all[0], [all[1]] + ([all[2]] + all[3..]));
    ExecOne(Step(s, all[0]), all[1], [all[2]] + all[3..]);
    ExecOne(Step(Step(s, all[0]), all[1]), all[2], all[3..]);
    assert all[3..] == [all[3]] + ([all[4]] + ([all[5]] + ([all[6]] + ([all[7]] + []))));
    ExecOne(s3, all[3], [all[4]] + ([all[5]] + ([all[6]] + ([all[7]] + []))));
    ExecOne(Step(s3, all[3]), all[4], [all[5]] + ([all[6]] + ([all[7]] + [])));
    ExecOne(Step(Step(s3, all[3]), all[4]), all[5], [all[6]] + ([all[7]] + []));
    ExecOne(Step(Step(Step(s3, all[3]), all[4]), all[5]), all[6], [all[7]] + []);
    ExecOne(Step(Step(Step(Step(s3, all[3]), all[4]), all[5]), all[6]), all[7], []);
    ExecNothing(Step(Step(Step(Step(Step(s3, all[3]), all[4]), all[5]), all[6]), all[7]));
  }

  lemma ExecNothing<D>(s: State<D>)
    ensures Exec(s, []) == s
  {
  }

  /** The first three steps alone take the lock and compare the revision. */
  lemma LoadAlone<D>(s: State<D>, w: nat, r: Request<D>, uri: nat)
    requires Inv(s) && !s.lockFile && w !in s.writers && ValidRequest(r)
    ensures var t := Step(Step(Step(s, Begin(w, r)), OpenLock(w)), Load(w));
            && t.log == s.log && t.file == s.file && t.blobs == s.blobs && w in t.writers && t.writers[w].request == r
            && t.writers.Keys == s.writers.Keys + {w}
            && (if |History(s.log, r.key)| == r.revision then t.lockFile && t.writers[w].phase == Loaded(Current(s))
                else !t.lockFile && t.writers[w].phase == Done(Conflict(|History(s.log, r.key)|)))
  {
    RevisionIsLength(s, r.key);
    hide Inv, RevisionOf;
    var s1 := Step(s, Begin(w, r));
    assert s1.writers[w] == Writer(r, Ready) && !s1.lockFile && Current(s1) == Current(s);
    var s2 := Step(s1, OpenLock(w));
    assert s2.writers[w] == Writer(r, Locked) && s2.lockFile && Current(s2) == Current(s);
  }

  /** The remaining steps turn a loaded catalog into a committed one. */
  lemma CommitAlone<D>(s: State<D>, w: nat, r: Request<D>, catalog: seq<Pointer>, uri: nat)
    requires w in s.writers && s.writers[w] == Writer(r, Loaded(catalog)) && uri !in s.blobs && r.revision >= 0
    ensures var t := Step(Step(Step(Step(Step(s, Validate(w, true)), StoreBlob(w, uri)), WriteTemporary(w)), Rename(w)), Release(w));
            && !t.lockFile && w in t.writers && t.writers[w].phase == Done(Success(r.revision + 1))
            && t.log == AtomicPut(s.log, w, r)
            && t.file == Some(Replace(catalog, NewPointer(r, uri)))
            && t.blobs.Keys == s.blobs.Keys + {uri} && t.writers.Keys == s.writers.Keys
  {}

  lemma DoneStays<D>(s: State<D>, w: nat, a: Action<D>)
    requires w in s.writers && s.writers[w].phase.Done? && a.w == w
    ensures Step(s, a) == s
  {
  }

  /** With the lock free, an uninterrupted put commits exactly when its base revision is current; otherwise it reports the conflict. */
  lemma UninterruptedPut<D>(s: State<D>, w: nat, r: Request<D>, uri: nat)
    requires Inv(s) && !s.lockFile && w !in s.writers && uri !in s.blobs && ValidRequest(r)
    ensures var t := Exec(s, Alone(w, r, uri));
            && !t.lockFile && w in t.writers
            && (|History(s.log, r.key)| == r.revision ==>
                  t.writers[w].phase == Done(Success(r.revision + 1)) && t.log == AtomicPut(s.log, w, r)
                  && t.blobs.Keys == s.blobs.Keys + {uri} && t.writers.Keys == s.writers.Keys + {w})
            && (|History(s.log, r.key)| != r.revision ==>
                  t.writers[w].phase == Done(Conflict(|History(s.log, r.key)|)) && t.log == s.log && t.file == s.file)
  {
    hide Step, Inv;
    var all := Alone(w, r, uri);
    ExecEight(s, all);
    LoadAlone(s, w, r, uri);
    var loaded := Step(Step(Step(s, all[0]), all[1]), all[2]);
    if |History(s.log, r.key)| == r.revision {
      CommitAlone(loaded, w, r, Current(s), uri);
    } else {
      DoneStays(loaded, w, all[3]);
      DoneStays(loaded, w, all[4]);
      DoneStays(loaded, w, all[5]);
      DoneStays(loaded, w, all[6]);
      DoneStays(loaded, w, all[7]);
    }
  }

  /** What a put must be asked for with: a plain id, a base revision, and a publication that shows a named place on earth, if any. */
  ghost predicate Storable<D>(r: Request<D>) {
    && 0 < |r.key.plant| < 129 && (Letter(r.key.plant[0]) || Figure(r.key.plant[0]))
    && (forall i :: 0 < i < |r.key.plant| ==> Letter(r.key.plant[i]) || Figure(r.key.plant[i]) || r.key.plant[i] in "._-")
    && 0 <= r.revision <= 9007199254740990
    && match r.publication
       case None => true
       case Some(p) =>
         && (exists i :: 0 <= i < |p.name| && !Space(p.name[i])) && |p.name| < 257
         && !(p.latitude < -90.0) && !(90.0 < p.latitude) && !(p.longitude < -180.0) && !(180.0 < p.longitude)
  }

  predicate Figure(c: char) {
    c in "0123456789"
  }

  predicate Space(c: char) {
    c as int == 32 || 9 <= c as int <= 13
  }

  lemma StorableIs<D>(r: Request<D>)
    ensures Storable(r) <==> ValidRequest(r)
  {
    CharactersAgree();
    hide Letter, Figure, Space, IdStart;
    var id := r.key.plant;
    assert forall c :: c in "._-" <==> c == '.' || c == '_' || c == '-';
    if r.publication.Some? {
      var name := r.publication.value.name;
      assert Blank(name) <==> forall i :: 0 <= i < |name| ==> Space(name[i]) by { BlankIs(name); }
    }
  }

  lemma CharactersAgree()
    ensures forall c :: IdStart(c) <==> Letter(c) || Figure(c)
  {}

  lemma BlankIs(name: string)
    ensures Blank(name) <==> forall i :: 0 <= i < |name| ==> Space(name[i])
  {}

  /** A put of this request would write the pointer; an id that is not shown is not looked at. */
  ghost predicate WrittenFor(r: Request<int>, p: Pointer) {
    && 0 <= r.revision <= 9007199254740990 && (r.publication.Some? ==> Storable(r))
    && p == NewPointer(r, p.uri)
  }

  /** Reading the catalog back accepts exactly the pointers that puts write. */
  lemma ValidPointerExactly(p: Pointer)
    ensures ValidPointer(p) <==> exists r: Request<int> :: WrittenFor(r, p)
  {
    hide Storable, ValidId, ValidPublication;
    if ValidPointer(p) {
      var shown := if p.projection.Some? then Some(p.projection.value.shown) else None;
      var r := Request(p.key, p.revision - 1, 0, shown);
      StorableIs(r);
      assert WrittenFor(r, p);
    }
    if r: Request<int> :| WrittenFor(r, p) {
      StorableIs(r);
    }
  }

  /** With the lock free, an uninterrupted put commits exactly a storable request on the current revision, and nothing else ever changes. */
  lemma PutCommitsExactly<D>(s: State<D>, w: nat, r: Request<D>, uri: nat)
    requires Inv(s) && !s.lockFile && w !in s.writers && uri !in s.blobs
    ensures var t := Exec(s, Alone(w, r, uri));
            && !t.lockFile && w in t.writers && t.writers[w].phase.Done?
            && (t.writers[w].phase.outcome == Invalid <==> !Storable(r))
            && (t.writers[w].phase.outcome.Success? <==> Storable(r) && |History(s.log, r.key)| == r.revision)
            && t.log == if Storable(r) && |History(s.log, r.key)| == r.revision then AtomicPut(s.log, w, r) else s.log
  {
    StorableIs(r);
    hide Inv, Storable;
    if ValidRequest(r) {
      UninterruptedPut(s, w, r, uri);
    } else {
      var all := Alone(w, r, uri);
      ExecEight(s, all);
      var begun := Step(s, all[0]);
      hide Exec;
      DoneStays(begun, w, all[1]);
      DoneStays(begun, w, all[2]);
      DoneStays(begun, w, all[3]);
      DoneStays(begun, w, all[4]);
      DoneStays(begun, w, all[5]);
      DoneStays(begun, w, all[6]);
      DoneStays(begun, w, all[7]);
    }
  }

  /** Whatever the interleaving, every place shown in the clear lies on earth, is named, and is its own key's. */
  lemma ShownPlacesAreReal<D>(actions: seq<Action<D>>, p: Pointer)
    requires p in Current(Exec(Initial<D>(), actions)) && p.projection.Some?
    ensures var shown := p.projection.value.shown;
            && -90.0 <= shown.latitude <= 90.0 && -180.0 <= shown.longitude <= 180.0
            && |shown.name| <= 256 && (exists i :: 0 <= i < |shown.name| && !Space(shown.name[i]))
            && p.projection.value.id == p.key.plant
  {
    EveryRunConsistent<D>(actions);
    BlankIs(p.projection.value.shown.name);
  }

  /** A lock left by a dead writer is never taken over: nothing is committed any more. */
  lemma {:induction false} StaleLockStopsWriters<D>(s: State<D>, actions: seq<Action<D>>)
    requires s.lockFile && forall w :: w in s.writers ==> !Holds(s.writers[w].phase)
    ensures var t := Exec(s, actions);
            t.log == s.log && t.file == s.file && t.lockFile && forall w :: w in t.writers ==> !Holds(t.writers[w].phase)
  {
    if actions != [] {
      StaleLockStopsWriters(s, actions[..|actions| - 1]);
    }
  }

  /* ---- Blobs that do not belong to their pointer ---- */

  /** The blob is there and was sealed for this key, revision and projection. */
  ghost predicate SealedFor<D>(p: Pointer, blobs: map<nat, Envelope<D>>) {
    && p.uri in blobs && blobs[p.uri].key == p.key && blobs[p.uri].revision == p.revision
    && blobs[p.uri].projection == p.projection && blobs[p.uri].id == p.key.plant && ValidId(p.key.plant)
  }

  /** A blob opens exactly under the pointer it was sealed for, and shows its own document. */
  lemma OpensExactly<D>(p: Pointer, blobs: map<nat, Envelope<D>>)
    ensures Open(p, blobs).Some? <==> SealedFor(p, blobs)
    ensures SealedFor(p, blobs) ==>
              var l := Open(p, blobs).value;
              && l.id == p.key.plant && l.revision == p.revision && l.document == blobs[p.uri].document
              && (l.publication == None <==> p.projection == None)
              && (p.projection.Some? ==> l.publication == Some(p.projection.value.shown))
  {}

  /** A listing fails as a whole exactly when one blob of the tenant is missing, was swapped or is another revision's. */
  lemma {:induction false} ListFailsExactly<D>(catalog: seq<Pointer>, blobs: map<nat, Envelope<D>>, scope: string)
    ensures List(catalog, blobs, scope) == None <==> exists p :: p in catalog && p.key.scope == scope && !SealedFor(p, blobs)
  {
    hide Open, SealedFor;
    if catalog != [] {
      ListFailsExactly(catalog[1..], blobs, scope);
      OpensExactly(catalog[0], blobs);
      assert catalog == [catalog[0]] + catalog[1..];
    }
  }

  /* ---- The lock is given back ---- */

  /** A writer stops for good, or cannot remove its lock. */
  ghost predicate LeavesLock<D>(a: Action<D>) {
    a.Crash? || (a.Fault? && !a.unlinked)
  }

  ghost predicate SomeoneHolds<D>(s: State<D>) {
    exists w :: HoldsIn(s, w)
  }

  ghost predicate HoldsIn<D>(s: State<D>, w: nat) {
    w in s.writers && Holds(s.writers[w].phase)
  }

  /** Nobody else moves, and the lock changes hands with its file. */
  lemma OwnMove<D>(s: State<D>, a: Action<D>)
    requires LockExclusive(s) && !LeavesLock(a)
    ensures var t := Step(s, a);
            && (forall v :: v != a.w ==> (HoldsIn(t, v) <==> HoldsIn(s, v)))
            && (HoldsIn(s, a.w) && !HoldsIn(t, a.w) ==> !t.lockFile)
            && (HoldsIn(s, a.w) == HoldsIn(t, a.w) ==> t.lockFile == s.lockFile)
            && (!HoldsIn(s, a.w) && HoldsIn(t, a.w) ==> t.lockFile)
  {}

  lemma LockStep<D>(s: State<D>, a: Action<D>)
    requires LockExclusive(s) && !LeavesLock(a) && (s.lockFile <==> SomeoneHolds(s))
    ensures var t := Step(s, a); t.lockFile <==> SomeoneHolds(t)
  {
    hide Step, Holds;
    var t := Step(s, a);
    OwnMove(s, a);
    if HoldsIn(t, a.w) {
      assert SomeoneHolds(t);
    } else if SomeoneHolds(t) {
      var w :| HoldsIn(t, w);
      assert HoldsIn(s, w) && w != a.w;
      assert SomeoneHolds(s) && !HoldsIn(s, a.w);
    }
  }

  /** While no process stops and every unlink works, the lock file is there exactly when a writer holds the lock. */
  lemma {:induction false} LockIsHeld<D>(actions: seq<Action<D>>)
    requires forall a :: a in actions ==> !LeavesLock(a)
    ensures Exec(Initial(), actions).lockFile <==> SomeoneHolds(Exec(Initial(), actions))
  {
    hide Step, Inv, SomeoneHolds, LeavesLock;
    if actions == [] {
      NobodyYet<D>();
    } else {
      var before := actions[..|actions| - 1];
      LockIsHeld(before);
      EveryRunConsistent(before);
      InvExclusive(Exec(Initial(), before));
      LockStep(Exec(Initial(), before), actions[|actions| - 1]);
    }
  }

  lemma NobodyYet<D>()
    ensures !Initial<D>().lockFile && !SomeoneHolds(Initial<D>())
  {}

  lemma InvExclusive<D>(s: State<D>)
    requires Inv(s)
    ensures LockExclusive(s)
  {}

  /** A put that is refused or fails while it holds the lock gives the lock back and commits nothing. */
  lemma FailuresFreeLock<D>(s: State<D>, w: nat)
    requires w in s.writers
    ensures var phase := s.writers[w].phase;
            && (phase.Loaded? ==> Ended(s, Step(s, Validate(w, false)), w, Refused))
            && (Holds(phase) ==> Ended(s, Step(s, Fault(w, true)), w, Faulted))
            && (phase.Locked? && RevisionOf(Current(s), s.writers[w].request.key) != s.writers[w].request.revision ==>
                  Ended(s, Step(s, Load(w)), w, Conflict(RevisionOf(Current(s), s.writers[w].request.key))))
            && (Holds(phase) ==>
                  var t := Step(s, Fault(w, false));
                  t.lockFile == s.lockFile && t.file == s.file && t.log == s.log && t.blobs == s.blobs && t.writers[w].phase == Done(Faulted))
  {}

  /** A put that has not got the lock, because somebody has it or because opening fails, ends without changing anything. */
  lemma WithoutLock<D>(s: State<D>, w: nat, unlinked: bool)
    requires w in s.writers && s.writers[w].phase == Ready
    ensures s.lockFile ==> Step(s, OpenLock(w)) == s.(writers := s.writers[w := Writer(s.writers[w].request, Done(Busy))])
    ensures Step(s, Fault(w, unlinked)) == s.(writers := s.writers[w := Writer(s.writers[w].request, Done(Faulted))])
  {}

  ghost predicate Ended<D>(s: State<D>, t: State<D>, w: nat, outcome: Outcome) {
    && !t.lockFile && t.file == s.file && t.log == s.log && t.blobs == s.blobs
    && w in t.writers && t.writers[w].phase == Done(outcome)
  }

  /** What a writer in this phase does next. */
  function Onward<D>(phase: Phase, w: nat, uri: nat): Action<D> {
    match phase
    case Locked => Load(w)
    case Loaded(_) => Validate(w, true)
    case Validated(_) => StoreBlob(w, uri)
    case Stored(_, _) => WriteTemporary(w)
    case Written(_) => Rename(w)
    case _ => Release(w)
  }

  function ToGo(phase: Phase): nat {
    match phase
    case Locked => 6
    case Loaded(_) => 5
    case Validated(_) => 4
    case Stored(_, _) => 3
    case Written(_) => 2
    case Renamed => 1
    case _ => 0
  }

  ghost predicate NeedsUri(phase: Phase) {
    phase.Locked? || phase.Loaded? || phase.Validated?
  }

  lemma HolderMoves<D>(s: State<D>, w: nat, uri: nat)
    requires w in s.writers && Holds(s.writers[w].phase) && s.writers[w].request.revision >= 0 && s.lockFile
    requires NeedsUri(s.writers[w].phase) ==> uri !in s.blobs
    ensures var t := Step(s, Onward(s.writers[w].phase, w, uri));
            && w in t.writers && ToGo(t.writers[w].phase) < ToGo(s.writers[w].phase)
            && (if Holds(t.writers[w].phase) then NeedsUri(t.writers[w].phase) ==> uri !in t.blobs
                else !t.lockFile && t.writers[w].phase.Done?)
  {}

  /** Whoever holds the lock can go on to the end of its put and give it back, whatever the others have done. */
  lemma {:induction false} HolderFinishes<D>(s: State<D>, w: nat, uri: nat) returns (actions: seq<Action<D>>)
    requires Inv(s) && w in s.writers && Holds(s.writers[w].phase)
    requires NeedsUri(s.writers[w].phase) ==> uri !in s.blobs
    ensures var t := Exec(s, actions); !t.lockFile && w in t.writers && t.writers[w].phase.Done?
    decreases ToGo(s.writers[w].phase)
  {
    HolderValid(s, w);
    var next := Onward<D>(s.writers[w].phase, w, uri);
    StepKeeps(s, next);
    HolderMoves(s, w, uri);
    hide Inv, Step, Holds, ToGo, Onward, NeedsUri, Exec;
    var t := Step(s, next);
    if Holds(t.writers[w].phase) {
      var rest := HolderFinishes(t, w, uri);
      actions := [next] + rest;
      ExecOne(s, next, rest);
    } else {
      actions := [next];
      ExecOne(s, next, []);
      ExecNothing(t);
      assert [next] + [] == [next];
    }
  }

  lemma HolderValid<D>(s: State<D>, w: nat)
    requires Inv(s) && w in s.writers && Holds(s.writers[w].phase)
    ensures s.writers[w].request.revision >= 0 && s.lockFile
  {}

  /* ---- The service's own form ---- */

  /** One put from start to end on the directory's lock file, catalog file and blobs. */
  class PlantService<D> {
    var lockFile: bool
    var file: Option<seq<Pointer>>
    var blobs: map<nat, Envelope<D>>

    constructor ()
      ensures !lockFile && file.None? && blobs == map[]
    {
      lockFile, file, blobs := false, None, map[];
    }

    function Plants(): seq<Pointer>
      reads this
    {
      if file.Some? then file.value else []
    }

    /** `accepted` is what the caller's check answers under the lock; `uri` is where the provider stores the blob. */
    method Put(r: Request<D>, accepted: bool, uri: nat) returns (outcome: Outcome)
      requires uri !in blobs
      modifies this
      ensures !ValidRequest(r) ==> outcome == Invalid && unchanged(this)
      ensures ValidRequest(r) && old(lockFile) ==> outcome == Busy && unchanged(this)
      ensures ValidRequest(r) && !old(lockFile) ==> !lockFile
      ensures ValidRequest(r) && !old(lockFile) && RevisionOf(old(Plants()), r.key) != r.revision ==>
                outcome == Conflict(RevisionOf(old(Plants()), r.key)) && file == old(file) && blobs == old(blobs)
      ensures ValidRequest(r) && !old(lockFile) && RevisionOf(old(Plants()), r.key) == r.revision && !accepted ==>
                outcome == Refused && file == old(file) && blobs == old(blobs)
      ensures ValidRequest(r) && !old(lockFile) && RevisionOf(old(Plants()), r.key) == r.revision && accepted ==>
                outcome == Success(r.revision + 1)
                && blobs == old(blobs)[uri := Envelope(r.key, r.revision + 1, ProjectionOf(r), r.key.plant, r.document)]
                && file == Some(Replace(old(Plants()), NewPointer(r, uri)))
    {
      if !ValidRequest(r) {
        return Invalid;
      }
      if lockFile {
        return Busy;
      }
      lockFile := true;
      var plants := Plants();
      var previous := RevisionOf(plants, r.key);
      if previous != r.revision {
        outcome := Conflict(previous);
      } else if !accepted {
        outcome := Refused;
      } else {
        var pointer := NewPointer(r, uri);
        blobs := blobs[uri := Envelope(pointer.key, pointer.revision, pointer.projection, r.key.plant, r.document)];
        plants := Others(plants, r.key);
        plants := plants + [pointer];
        file := Some(plants);
        outcome := Success(pointer.revision);
      }
      lockFile := false;
    }
  }
}
