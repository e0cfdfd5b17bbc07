/**
 Batched removal of a Twin's registered children.

 The planner picks one batch at a time: a member or indicator alone, and once none is left up to sixteen of the other
 children. The theorems say which calls a plan makes, that no batch orphans a child, what repeating the planner does to
 the whole registry, and when a plan is refused.
 */
module TwinCleanup {
  import opened Wrappers

  datatype Kind =
    | Aspect | Relation | Identifier | ModelRef | Dataset | Command | Composition | IdentifierMapping
    | RoleGrant | State | FidelityProfile | MaturityAssessment | Event
    | CompositionMember | MaturityIndicator | Interface | InterfaceNetwork | Unknown

  /** A registered child; `parent` is the composition, assessment or interface its fields name ("" if none). */
  datatype Child = Child(id: string, kind: Kind, parent: string)

  datatype Op = RemoveMember | RemoveIndicator | RemoveInterface | RemoveInterfaceV2 | RemoveOne(kind: Kind)

  /** One Move call and the child objects it is given. */
  datatype Call = Call(op: Op, ids: seq<string>)

  datatype PlanError = MissingParent | UnknownType | DuplicateNetwork

  const BATCH: nat := 16

  /* ---- The planner as a function ---- */

  /** Lookup in the id map; a later child with the same id replaces an earlier one. */
  function KindOf(children: seq<Child>, id: string): Kind {
    if children == [] then Unknown
    else
      var last := children[|children| - 1];
      if last.id == id then last.kind else KindOf(children[..|children| - 1], id)
  }

  /** The kind of object a dependent needs to find its parent under; Unknown when it needs none. */
  function RequiredParent(kind: Kind): Kind {
    match kind
    case CompositionMember => Composition
    case MaturityIndicator => MaturityAssessment
    case InterfaceNetwork => Interface
    case _ => Unknown
  }

  predicate ParentPresent(children: seq<Child>, c: Child) {
    RequiredParent(c.kind) != Unknown ==> KindOf(children, c.parent) == RequiredParent(c.kind)
  }

  function FirstError(children: seq<Child>, from: nat): Option<PlanError>
    requires from <= |children|
    decreases |children| - from
  {
    if from == |children| then None
    else if children[from].kind == Unknown then Some(UnknownType)
    else if !ParentPresent(children, children[from]) then Some(MissingParent)
    else FirstError(children, from + 1)
  }

  function FirstOfKind(children: seq<Child>, kind: Kind): Option<Child> {
    if children == [] then None
    else if children[0].kind == kind then Some(children[0])
    else FirstOfKind(children[1..], kind)
  }

  function NetworksOf(children: seq<Child>, id: string): seq<string> {
    if children == [] then []
    else
      (if children[0].kind == InterfaceNetwork && children[0].parent == id then [children[0].id] else [])
      + NetworksOf(children[1..], id)
  }

  function CallFor(children: seq<Child>, c: Child): Result<seq<Call>, PlanError> {
    if c.kind == InterfaceNetwork then Ok([])
    else if c.kind == Interface then
      var networks := NetworksOf(children, c.id);
      if |networks| > 1 then Err(DuplicateNetwork)
      else Ok([Call(if |networks| == 0 then RemoveInterface else RemoveInterfaceV2, [c.id] + networks)])
    else Ok([Call(RemoveOne(c.kind), [c.id])])
  }

  /** The calls for the first `n` children, in registry order. */
  function CallsFor(children: seq<Child>, n: nat): Result<seq<Call>, PlanError>
    requires n <= |children|
  {
    if n == 0 then Ok([])
    else
      match CallsFor(children, n - 1)
      case Err(e) => Err(e)
      case Ok(calls) =>
        match CallFor(children, children[n - 1])
        case Err(e) => Err(e)
        case Ok(more) => Ok(calls + more)
  }

  function Select(calls: seq<Call>, events: bool): seq<Call> {
    if calls == [] then []
    else (if (calls[0].op == RemoveOne(Event)) == events then [calls[0]] else []) + Select(calls[1..], events)
  }

  /** The stable sort that puts event removals last. */
  function EventsLast(calls: seq<Call>): seq<Call> {
    Select(calls, false) + Select(calls, true)
  }

  function FirstBatch(calls: seq<Call>): seq<Call> {
    if |calls| <= BATCH then calls else calls[..BATCH]
  }

  function Plan(children: seq<Child>): Result<seq<Call>, PlanError> {
    match FirstError(children, 0)
    case Some(e) => Err(e)
    case None =>
      var member := FirstOfKind(children, CompositionMember);
      var indicator := FirstOfKind(children, MaturityIndicator);
      if member.Some? then Ok([Call(RemoveMember, [member.value.parent, member.value.id])])
      else if indicator.Some? then Ok([Call(RemoveIndicator, [indicator.value.parent, indicator.value.id])])
      else
        match CallsFor(children, |children|)
        case Err(e) => Err(e)
        case Ok(calls) => Ok(FirstBatch(EventsLast(calls)))
  }

  /** An error met while building the calls is the result for the whole registry. */
  lemma {:induction false} CallsErrorPersists(children: seq<Child>, i: nat, n: nat)
    requires i <= n <= |children| && CallsFor(children, i).Err?
    ensures CallsFor(children, n) == CallsFor(children, i)
  {
    if i < n {
      CallsErrorPersists(children, i, n - 1);
    }
  }

  method PlanCleanup(children: seq<Child>) returns (r: Result<seq<Call>, PlanError>)
    ensures r == Plan(children)
  {
    for i := 0 to |children|
      invariant FirstError(children, 0) == FirstError(children, i)
    {
      if children[i].kind == Unknown {
        return Err(UnknownType);
      }
      if !ParentPresent(children, children[i]) {
        return Err(MissingParent);
      }
    }
    var member := FirstOfKind(children, CompositionMember);
    if member.Some? {
      return Ok([Call(RemoveMember, [member.value.parent, member.value.id])]);
    }
    var indicator := FirstOfKind(children, MaturityIndicator);
    if indicator.Some? {
      return Ok([Call(RemoveIndicator, [indicator.value.parent, indicator.value.id])]);
    }
    var calls: seq<Call> := [];
    for i := 0 to |children|
      invariant CallsFor(children, i) == Ok(calls)
    {
      var child := children[i];
      if child.kind != InterfaceNetwork {
        if child.kind == Interface {
          var networks := NetworksOf(children, child.id);
          if |networks| > 1 {
            assert CallsFor(children, i + 1) == Err(DuplicateNetwork);
            CallsErrorPersists(children, i + 1, |children|);
            return Err(DuplicateNetwork);
          }
          calls := calls + [Call(if |networks| == 0 then RemoveInterface else RemoveInterfaceV2, [child.id] + networks)];
        } else {
          calls := calls + [Call(RemoveOne(child.kind), [child.id])];
        }
      } else {
        assert calls + [] == calls;
      }
    }
    r := Ok(FirstBatch(EventsLast(calls)));
  }

  /* ---- Registries ---- */

  ghost predicate DistinctIds(children: seq<Child>) {
    forall i, j :: 0 <= i < j < |children| ==> children[i].id != children[j].id
  }

  /** Every entry is of a known kind and finds its parent: what the planner checks up front. */
  ghost predicate Complete(children: seq<Child>) {
    forall c :: c in children ==> c.kind != Unknown && ParentPresent(children, c)
  }

  ghost predicate SingleNetworks(children: seq<Child>) {
    forall c, d :: c in children && d in children && c.kind == d.kind == InterfaceNetwork && c.parent == d.parent ==>
      c.id == d.id
  }

  /** What a consistent snapshot that passed the planner's checks satisfies. */
  ghost predicate Sound(children: seq<Child>) {
    DistinctIds(children) && Complete(children)
  }

  ghost predicate WellFormed(children: seq<Child>) {
    Sound(children) && SingleNetworks(children)
  }

  predicate IsOther(kind: Kind) {
    kind != CompositionMember && kind != MaturityIndicator && kind != InterfaceNetwork
  }

  ghost function MemberIds(children: seq<Child>): set<string> {
    set c | c in children && c.kind == CompositionMember :: c.id
  }

  ghost function IndicatorIds(children: seq<Child>): set<string> {
    set c | c in children && c.kind == MaturityIndicator :: c.id
  }

  ghost function OtherIds(children: seq<Child>): set<string> {
    set c | c in children && IsOther(c.kind) :: c.id
  }

  /** The objects the contract deletes when it runs a call; a member or indicator call only borrows the parent. */
  function Deleted(call: Call): set<string> {
    if call.op.RemoveMember? || call.op.RemoveIndicator? then
      if |call.ids| == 2 then {call.ids[1]} else {}
    else set id | id in call.ids
  }

  function DeletedBy(calls: seq<Call>): set<string> {
    if calls == [] then {} else Deleted(calls[0]) + DeletedBy(calls[1..])
  }

  function Without(children: seq<Child>, gone: set<string>): seq<Child> {
    if children == [] then []
    else (if children[0].id in gone then [] else [children[0]]) + Without(children[1..], gone)
  }

  /** The registry after one successful batch; unchanged when there is nothing to plan. */
  function Next(children: seq<Child>): seq<Child> {
    match Plan(children)
    case Err(_) => children
    case Ok(calls) => Without(children, DeletedBy(calls))
  }

  function After(children: seq<Child>, batches: nat): seq<Child> {
    if batches == 0 then children else Next(After(children, batches - 1))
  }

  ghost function Batches(children: seq<Child>): nat {
    |MemberIds(children)| + |IndicatorIds(children)| + (|OtherIds(children)| + BATCH - 1) / BATCH
  }

  /* ---- Facts about the pieces ---- */

  lemma {:induction false} WithoutMembers(children: seq<Child>, gone: set<string>)
    ensures forall c :: c in Without(children, gone) <==> c in children && c.id !in gone
  {
    if children != [] {
      WithoutMembers(children[1..], gone);
    }
  }

  lemma {:induction false} WithoutDistinct(children: seq<Child>, gone: set<string>)
    requires DistinctIds(children)
    ensures DistinctIds(Without(children, gone))
  {
    if children != [] {
      WithoutDistinct(children[1..], gone);
      WithoutMembers(children[1..], gone);
      var rest := Without(children[1..], gone);
      assert forall j :: 0 <= j < |rest| ==> rest[j] in children[1..];
    }
  }

  lemma {:induction false} KindOfFound(children: seq<Child>, id: string)
    ensures KindOf(children, id) != Unknown ==>
              exists c :: c in children && c.id == id && c.kind == KindOf(children, id)
  {
    if children != [] {
      var last := children[|children| - 1];
      if last.id == id {
        assert last in children;
      } else {
        KindOfFound(children[..|children| - 1], id);
      }
    }
  }

  lemma {:induction false} KindOfMember(children: seq<Child>, c: Child)
    requires DistinctIds(children) && c in children
    ensures KindOf(children, c.id) == c.kind
  {
    var last := children[|children| - 1];
    if last.id == c.id {
      var k :| 0 <= k < |children| && children[k] == c;
      assert k == |children| - 1;
    } else {
      KindOfMember(children[..|children| - 1], c);
    }
  }

  lemma {:induction false} NoErrorMeansComplete(children: seq<Child>, from: nat)
    requires from <= |children|
    ensures FirstError(children, from).None? <==>
            forall i :: from <= i < |children| ==> children[i].kind != Unknown && ParentPresent(children, children[i])
    decreases |children| - from
  {
    if from < |children| {
      NoErrorMeansComplete(children, from + 1);
    }
  }

  lemma {:induction false} FirstOfKindFinds(children: seq<Child>, kind: Kind)
    ensures var f := FirstOfKind(children, kind);
            if f.Some? then f.value in children && f.value.kind == kind
            else forall c :: c in children ==> c.kind != kind
  {
    if children != [] && children[0].kind != kind {
      FirstOfKindFinds(children[1..], kind);
    }
  }

  lemma {:induction false} NetworksOfMembers(children: seq<Child>, id: string)
    ensures forall n :: n in NetworksOf(children, id) <==>
              exists c :: c in children && c.kind == InterfaceNetwork && c.parent == id && c.id == n
  {
    if children != [] {
      NetworksOfMembers(children[1..], id);
      var first := children[0];
      forall n | n in NetworksOf(children, id)
        ensures exists c :: c in children && c.kind == InterfaceNetwork && c.parent == id && c.id == n
      {
        if n in NetworksOf(children[1..], id) {
          var c :| c in children[1..] && c.kind == InterfaceNetwork && c.parent == id && c.id == n;
          assert c in children;
        } else {
          assert first in children;
        }
      }
      forall c | c in children && c.kind == InterfaceNetwork && c.parent == id
        ensures c.id in NetworksOf(children, id)
      {
        if c != first {
          assert c in children[1..];
        }
      }
    }
  }

  lemma {:induction false} NetworksOfDistinct(children: seq<Child>, id: string)
    requires DistinctIds(children)
    ensures forall i, j :: 0 <= i < j < |NetworksOf(children, id)| ==>
              NetworksOf(children, id)[i] != NetworksOf(children, id)[j]
  {
    if children != [] {
      NetworksOfDistinct(children[1..], id);
      NetworksOfMembers(children[1..], id);
      var rest := NetworksOf(children[1..], id);
      assert forall j :: 0 <= j < |rest| ==> rest[j] in rest;
    }
  }

  lemma NetworksAgree(children: seq<Child>, id: string, m: string, n: string)
    requires SingleNetworks(children) && m in NetworksOf(children, id) && n in NetworksOf(children, id)
    ensures m == n
  {
    NetworksOfMembers(children, id);
    var c :| c in children && c.kind == InterfaceNetwork && c.parent == id && c.id == m;
    var d :| d in children && d.kind == InterfaceNetwork && d.parent == id && d.id == n;
  }

  /** An interface with a single network is never refused. */
  lemma SingleNetworksBound(children: seq<Child>, id: string)
    requires DistinctIds(children) && SingleNetworks(children)
    ensures |NetworksOf(children, id)| <= 1
  {
    var networks := NetworksOf(children, id);
    if |networks| > 1 {
      NetworksAgree(children, id, networks[0], networks[1]);
      NetworksOfDistinct(children, id);
    }
  }

  /* ---- The calls built for the independent children ---- */

  /** The children that get a call of their own once no member or indicator is left. */
  function Independent(children: seq<Child>): seq<Child> {
    if children == [] then []
    else
      Independent(children[..|children| - 1])
      + (if children[|children| - 1].kind == InterfaceNetwork then [] else [children[|children| - 1]])
  }

  function CallOf(children: seq<Child>, c: Child): Call {
    if c.kind == Interface then
      var networks := NetworksOf(children, c.id);
      Call(if |networks| == 0 then RemoveInterface else RemoveInterfaceV2, [c.id] + networks)
    else Call(RemoveOne(c.kind), [c.id])
  }

  lemma {:induction false} IndependentMembers(children: seq<Child>)
    ensures forall c :: c in Independent(children) <==> c in children && c.kind != InterfaceNetwork
  {
    if children != [] {
      var front, last := children[..|children| - 1], children[|children| - 1];
      IndependentMembers(front);
      assert children == front + [last];
    }
  }

  lemma {:induction false} IndependentDistinct(children: seq<Child>)
    requires DistinctIds(children)
    ensures DistinctIds(Independent(children))
  {
    if children != [] {
      var front, last := children[..|children| - 1], children[|children| - 1];
      IndependentDistinct(front);
      IndependentMembers(front);
      var kept := Independent(front);
      forall i | 0 <= i < |kept| ensures kept[i].id != last.id {
        assert kept[i] in front;
        var k :| 0 <= k < |front| && front[k] == kept[i];
        assert children[k] == kept[i];
      }
      assert Independent(children) == kept || Independent(children) == kept + [last];
    }
  }

  ghost predicate CallsMatch(children: seq<Child>, cs: seq<Child>, calls: seq<Call>) {
    |calls| == |cs| && forall i :: 0 <= i < |cs| ==> calls[i] == CallOf(children, cs[i])
  }

  lemma {:induction false} CallsForMatch(children: seq<Child>, n: nat)
    requires n <= |children| && DistinctIds(children) && SingleNetworks(children)
    ensures CallsFor(children, n).Ok?
    ensures CallsMatch(children, Independent(children[..n]), CallsFor(children, n).value)
  {
    if n > 0 {
      CallsForMatch(children, n - 1);
      SingleNetworksBound(children, children[n - 1].id);
      assert children[..n][..n - 1] == children[..n - 1];
    }
  }

  /** The calls have pairwise different heads. */
  lemma CallsHaveDistinctHeads(children: seq<Child>, calls: seq<Call>)
    requires DistinctIds(children) && CallsMatch(children, Independent(children), calls)
    ensures DistinctHeads(calls)
  {
    IndependentDistinct(children);
    var cs := Independent(children);
    forall i | 0 <= i < |calls| ensures |calls[i].ids| > 0 && calls[i].ids[0] == cs[i].id {
      assert calls[i] == CallOf(children, cs[i]);
    }
  }

  lemma CallsAreForChildren(children: seq<Child>, calls: seq<Call>)
    requires CallsMatch(children, Independent(children), calls)
    ensures forall k :: k in calls ==> exists c :: c in children && c.kind != InterfaceNetwork && k == CallOf(children, c)
    ensures forall c :: c in children && c.kind != InterfaceNetwork ==> CallOf(children, c) in calls
  {
    IndependentMembers(children);
    var cs := Independent(children);
    forall k | k in calls
      ensures exists c :: c in children && c.kind != InterfaceNetwork && k == CallOf(children, c)
    {
      var i :| 0 <= i < |calls| && calls[i] == k;
      assert cs[i] in cs;
    }
    forall c | c in children && c.kind != InterfaceNetwork ensures CallOf(children, c) in calls {
      var i :| 0 <= i < |cs| && cs[i] == c;
      assert calls[i] in calls;
    }
  }

  ghost predicate DistinctHeads(calls: seq<Call>) {
    && (forall k :: k in calls ==> |k.ids| > 0)
    && (forall i, j :: 0 <= i < j < |calls| ==> calls[i].ids[0] != calls[j].ids[0])
  }

  lemma {:induction false} SelectMembers(calls: seq<Call>, events: bool)
    ensures forall k :: k in Select(calls, events) <==> k in calls && (k.op == RemoveOne(Event)) == events
  {
    if calls != [] {
      SelectMembers(calls[1..], events);
      assert calls == [calls[0]] + calls[1..];
    }
  }

  lemma {:induction false} SelectKeeps(calls: seq<Call>, events: bool)
    requires DistinctHeads(calls)
    ensures DistinctHeads(Select(calls, events))
  {
    if calls != [] {
      var first, later := calls[0], calls[1..];
      SelectKeeps(later, events);
      SelectMembers(later, events);
      var rest := Select(later, events);
      forall j | 0 <= j < |rest| ensures |rest[j].ids| > 0 && first.ids[0] != rest[j].ids[0] {
        assert rest[j] in later;
        var k :| 0 <= k < |later| && later[k] == rest[j];
        assert calls[k + 1] == rest[j] && calls[k + 1] in calls;
      }
      assert Select(calls, events) == rest || Select(calls, events) == [first] + rest;
    }
  }

  lemma {:induction false} SelectLengths(calls: seq<Call>)
    ensures |Select(calls, false)| + |Select(calls, true)| == |calls|
  {
    if calls != [] {
      SelectLengths(calls[1..]);
    }
  }

  lemma EventsLastKeeps(calls: seq<Call>)
    requires DistinctHeads(calls)
    ensures |EventsLast(calls)| == |calls|
    ensures forall k :: k in EventsLast(calls) <==> k in calls
    ensures DistinctHeads(EventsLast(calls))
  {
    SelectKeeps(calls, false);
    SelectKeeps(calls, true);
    SelectMembers(calls, false);
    SelectMembers(calls, true);
    SelectLengths(calls);
    var a: seq<Call>, b: seq<Call> := Select(calls, false), Select(calls, true);
    forall i: int, j: int | 0 <= i < j < |calls|
      ensures (a + b)[i].ids[0] != (a + b)[j].ids[0]
    {
      if i < |a| <= j {
        assert a[i] in a && b[j - |a|] in b;
        var p :| 0 <= p < |calls| && calls[p] == a[i];
        var q :| 0 <= q < |calls| && calls[q] == b[j - |a|];
      }
    }
  }

  /* ---- What one batch does ---- */

  lemma {:induction false} DeletedByMembers(calls: seq<Call>)
    ensures forall id :: id in DeletedBy(calls) <==> exists k :: k in calls && id in Deleted(k)
  {
    if calls != [] {
      DeletedByMembers(calls[1..]);
      assert forall k :: k in calls <==> k == calls[0] || k in calls[1..];
    }
  }

  /** No object appears twice anywhere in the batch. */
  ghost predicate DistinctObjects(calls: seq<Call>) {
    && (forall k, i, j :: k in calls && 0 <= i < j < |k.ids| ==> k.ids[i] != k.ids[j])
    && (forall p, q, i, j :: 0 <= p < q < |calls| && 0 <= i < |calls[p].ids| && 0 <= j < |calls[q].ids| ==>
          calls[p].ids[i] != calls[q].ids[j])
  }

  /** An object of a call is the child the call is for or, for an interface, one of its networks. */
  ghost predicate Owns(children: seq<Child>, c: Child, o: Child) {
    o in children && (o == c || (o.kind == InterfaceNetwork && o.parent == c.id))
  }

  lemma CallObjects(children: seq<Child>, c: Child, id: string) returns (o: Child)
    requires c in children && id in CallOf(children, c).ids
    ensures o.id == id && Owns(children, c, o)
  {
    NetworksOfMembers(children, c.id);
    if id == c.id {
      o := c;
    } else {
      o :| o in children && o.kind == InterfaceNetwork && o.parent == c.id && o.id == id;
    }
  }

  lemma SameChild(children: seq<Child>, c: Child, d: Child)
    requires DistinctIds(children) && c in children && d in children && c.id == d.id
    ensures c == d
  {}

  lemma CallsAreDisjoint(children: seq<Child>, c: Child, d: Child, id: string)
    requires DistinctIds(children) && c in children && d in children
    requires c.kind != InterfaceNetwork && d.kind != InterfaceNetwork
    requires id in CallOf(children, c).ids && id in CallOf(children, d).ids
    ensures c == d
  {
    var o := CallObjects(children, c, id);
    var p := CallObjects(children, d, id);
    SameChild(children, o, p);
    if o.kind == InterfaceNetwork {
      SameChild(children, c, d);
    }
  }

  /* ---- Removing a batch keeps the registry well formed ---- */

  lemma ParentOf(children: seq<Child>, c: Child) returns (p: Child)
    requires Sound(children) && c in children && RequiredParent(c.kind) != Unknown
    ensures p in children && p.id == c.parent && p.kind == RequiredParent(c.kind)
  {
    KindOfFound(children, c.parent);
    p :| p in children && p.id == c.parent && p.kind == RequiredParent(c.kind);
  }

  /** No dependent is left behind: every dependent that stays keeps its parent. */
  ghost predicate KeepsParents(children: seq<Child>, gone: set<string>) {
    forall c :: c in children && RequiredParent(c.kind) != Unknown && c.id !in gone ==> c.parent !in gone
  }

  lemma WithoutSound(children: seq<Child>, gone: set<string>)
    requires Sound(children) && KeepsParents(children, gone)
    ensures Sound(Without(children, gone))
    ensures SingleNetworks(children) ==> SingleNetworks(Without(children, gone))
  {
    WithoutMembers(children, gone);
    WithoutDistinct(children, gone);
    var left := Without(children, gone);
    forall c | c in left ensures ParentPresent(left, c) {
      if RequiredParent(c.kind) != Unknown {
        var p := ParentOf(children, c);
        KindOfMember(left, p);
      }
    }
  }

  lemma {:induction false} WithoutShrinks(children: seq<Child>, gone: set<string>)
    ensures |Without(children, gone)| <= |children|
    ensures Ids(children) * gone != {} ==> |Without(children, gone)| < |children|
  {
    if children != [] {
      WithoutShrinks(children[1..], gone);
      if id :| id in Ids(children) * gone {
        var c :| c in children && c.id == id;
        assert c == children[0] || c in children[1..];
      }
    }
  }

  lemma WithoutCounts(children: seq<Child>, gone: set<string>)
    ensures MemberIds(Without(children, gone)) == MemberIds(children) - gone
    ensures IndicatorIds(Without(children, gone)) == IndicatorIds(children) - gone
    ensures OtherIds(Without(children, gone)) == OtherIds(children) - gone
  {
    WithoutMembers(children, gone);
  }

  ghost function Ids(children: seq<Child>): set<string> {
    set c | c in children :: c.id
  }

  ghost predicate Registered(children: seq<Child>, calls: seq<Call>) {
    forall k, id :: k in calls && id in k.ids ==> id in Ids(children)
  }

  /** What the planner promises about one batch. */
  ghost predicate SafeBatch(children: seq<Child>, calls: seq<Call>) {
    var gone := DeletedBy(calls);
    && 1 <= |calls| <= BATCH
    && DistinctObjects(calls)
    && Registered(children, calls)
    && KeepsParents(children, gone)
    && |Without(children, gone)| < |children|
    && Batches(Without(children, gone)) + 1 == Batches(children)
  }

  lemma LeafKeepsParents(children: seq<Child>, c: Child)
    requires Sound(children) && c in children
    requires c.kind == CompositionMember || c.kind == MaturityIndicator
    ensures KeepsParents(children, {c.id})
  {
    hide DistinctIds, Complete;
    forall d | d in children && RequiredParent(d.kind) != Unknown ensures d.parent != c.id {
      var q := ParentOf(children, d);
      if q.id == c.id {
        SameChild(children, q, c);
      }
    }
  }

  lemma IdSetsDisjoint(children: seq<Child>)
    requires DistinctIds(children)
    ensures MemberIds(children) !! IndicatorIds(children)
    ensures MemberIds(children) + IndicatorIds(children) !! OtherIds(children)
  {}

  lemma RemoveOneId(a: set<string>, b: set<string>, id: string)
    requires id in a && a !! b
    ensures |a - {id}| + 1 == |a| && b - {id} == b
  {
  }

  lemma LeafCounts(children: seq<Child>, c: Child)
    requires DistinctIds(children) && c in children
    requires c.kind == CompositionMember || c.kind == MaturityIndicator
    ensures Batches(Without(children, {c.id})) + 1 == Batches(children)
  {
    hide DistinctIds, Without;
    var m, i, o := MemberIds(children), IndicatorIds(children), OtherIds(children);
    IdSetsDisjoint(children);
    WithoutCounts(children, {c.id});
    if c.kind == CompositionMember {
      RemoveOneId(m, i, c.id);
      RemoveOneId(m, o, c.id);
    } else {
      RemoveOneId(i, m, c.id);
      RemoveOneId(i, o, c.id);
    }
  }

  /** A member or indicator leaves alone, its parent only lent to the call. */
  lemma DependentBatch(children: seq<Child>, c: Child, op: Op)
    requires Sound(children) && c in children
    requires (c.kind == CompositionMember && op == RemoveMember) || (c.kind == MaturityIndicator && op == RemoveIndicator)
    ensures SafeBatch(children, [Call(op, [c.parent, c.id])])
  {
    hide DistinctIds, Complete, Batches, Without, KeepsParents;
    var p := ParentOf(children, c);
    var call := Call(op, [c.parent, c.id]);
    assert DeletedBy([call][1..]) == {};
    assert DeletedBy([call]) == {c.id};
    LeafKeepsParents(children, c);
    LeafCounts(children, c);
    WithoutShrinks(children, {c.id});
    assert p.id != c.id by {
      if p.id == c.id {
        SameChild(children, p, c);
      }
    }
  }

  function Heads(calls: seq<Call>): seq<string>
    requires forall k :: k in calls ==> |k.ids| > 0
  {
    seq(|calls|, i requires 0 <= i < |calls| => calls[i].ids[0])
  }

  lemma {:induction false} DistinctCardinality(s: seq<string>)
    requires forall i, j :: 0 <= i < j < |s| ==> s[i] != s[j]
    ensures |set x | x in s| == |s|
  {
    if s != [] {
      DistinctCardinality(s[1..]);
      assert (set x | x in s) == {s[0]} + set x | x in s[1..];
    }
  }

  /** Some of the calls built for the independent children, in any order. */
  ghost predicate SomeCalls(children: seq<Child>, calls: seq<Call>) {
    && DistinctHeads(calls)
    && (forall k :: k in calls ==> exists c :: c in children && c.kind != InterfaceNetwork && k == CallOf(children, c))
  }

  lemma OneCallDistinct(children: seq<Child>, calls: seq<Call>, k: Call, i: nat, j: nat)
    requires WellFormed(children) && SomeCalls(children, calls)
    requires k in calls && i < j < |k.ids|
    ensures k.ids[i] != k.ids[j]
  {
    hide Complete, SingleNetworks, KindOf, NetworksOf;
    var c :| c in children && c.kind != InterfaceNetwork && k == CallOf(children, c);
    SingleNetworksBound(children, c.id);
    NetworksOfMembers(children, c.id);
    assert j == 1 && k.ids[1] in NetworksOf(children, c.id);
    var o :| o in children && o.kind == InterfaceNetwork && o.parent == c.id && o.id == k.ids[1];
    if o.id == c.id {
      SameChild(children, o, c);
    }
  }

  lemma TwoCallsDisjoint(children: seq<Child>, calls: seq<Call>, p: nat, q: nat, i: nat, j: nat)
    requires WellFormed(children) && SomeCalls(children, calls)
    requires p < q < |calls| && i < |calls[p].ids| && j < |calls[q].ids|
    ensures calls[p].ids[i] != calls[q].ids[j]
  {
    hide Complete, SingleNetworks, CallOf;
    assert calls[p] in calls && calls[q] in calls;
    var c :| c in children && c.kind != InterfaceNetwork && calls[p] == CallOf(children, c);
    var d :| d in children && d.kind != InterfaceNetwork && calls[q] == CallOf(children, d);
    if calls[p].ids[i] == calls[q].ids[j] {
      CallsAreDisjoint(children, c, d, calls[p].ids[i]);
    }
  }

  lemma SomeCallsDisjoint(children: seq<Child>, calls: seq<Call>)
    requires WellFormed(children) && SomeCalls(children, calls)
    ensures DistinctObjects(calls)
  {
    hide WellFormed, SomeCalls;
    forall k, i, j | k in calls && 0 <= i < j < |k.ids| ensures k.ids[i] != k.ids[j] {
      OneCallDistinct(children, calls, k, i, j);
    }
    forall p, q, i, j | 0 <= p < q < |calls| && 0 <= i < |calls[p].ids| && 0 <= j < |calls[q].ids|
      ensures calls[p].ids[i] != calls[q].ids[j]
    {
      TwoCallsDisjoint(children, calls, p, q, i, j);
    }
  }

  lemma SomeCallsKeepParents(children: seq<Child>, calls: seq<Call>)
    requires WellFormed(children) && SomeCalls(children, calls)
    requires MemberIds(children) == {} && IndicatorIds(children) == {}
    ensures KeepsParents(children, DeletedBy(calls))
  {
    forall n | n in children && RequiredParent(n.kind) != Unknown && n.parent in DeletedBy(calls)
      ensures n.id in DeletedBy(calls)
    {
      assert n.id !in MemberIds(children) && n.id !in IndicatorIds(children);
      NetworkLeavesToo(children, calls, n);
    }
  }

  lemma NetworkLeavesToo(children: seq<Child>, calls: seq<Call>, n: Child)
    requires Sound(children) && SomeCalls(children, calls)
    requires n in children && n.kind == InterfaceNetwork && n.parent in DeletedBy(calls)
    ensures n.id in DeletedBy(calls)
  {
    hide DistinctIds, Complete, ParentPresent, KindOf, DeletedBy, DistinctHeads, NetworksOf;
    DeletedByMembers(calls);
    var p := ParentOf(children, n);
    var k :| k in calls && n.parent in Deleted(k);
    var c :| c in children && c.kind != InterfaceNetwork && k == CallOf(children, c);
    var o := CallObjects(children, c, n.parent);
    SameChild(children, o, p);
    NetworksOfMembers(children, p.id);
    assert n.id in k.ids;
    assert n.id in Deleted(k);
  }

  lemma HeadIsIndependent(children: seq<Child>, calls: seq<Call>, k: Call)
    requires WellFormed(children) && SomeCalls(children, calls) && k in calls
    requires MemberIds(children) == {} && IndicatorIds(children) == {}
    ensures k.ids[0] in OtherIds(children) && k.ids[0] in DeletedBy(calls)
  {
    hide DistinctIds, Complete, SingleNetworks, DeletedBy, NetworksOf;
    DeletedByMembers(calls);
    var d :| d in children && d.kind != InterfaceNetwork && k == CallOf(children, d);
    assert d.id !in MemberIds(children) && d.id !in IndicatorIds(children);
    assert k.ids[0] in Deleted(k);
  }

  lemma DeletedOtherIsHead(children: seq<Child>, calls: seq<Call>, id: string)
    requires WellFormed(children) && SomeCalls(children, calls)
    requires id in OtherIds(children) && id in DeletedBy(calls)
    ensures id in Heads(calls)
  {
    hide DistinctIds, Complete, SingleNetworks, DeletedBy, NetworksOf;
    DeletedByMembers(calls);
    var c :| c in children && IsOther(c.kind) && c.id == id;
    var k :| k in calls && id in Deleted(k);
    var d :| d in children && d.kind != InterfaceNetwork && k == CallOf(children, d);
    var o := CallObjects(children, d, id);
    SameChild(children, o, c);
    var i :| 0 <= i < |calls| && calls[i] == k;
    assert Heads(calls)[i] == id;
  }

  lemma SomeCallsCount(children: seq<Child>, calls: seq<Call>)
    requires WellFormed(children) && SomeCalls(children, calls)
    requires MemberIds(children) == {} && IndicatorIds(children) == {}
    ensures |OtherIds(Without(children, DeletedBy(calls)))| == |OtherIds(children)| - |calls|
  {
    var gone, heads, others := DeletedBy(calls), Heads(calls), OtherIds(children);
    var headSet := set x | x in heads;
    forall id | id in others * gone ensures id in headSet {
      DeletedOtherIsHead(children, calls, id);
    }
    forall id | id in headSet ensures id in others * gone {
      var i :| 0 <= i < |heads| && heads[i] == id;
      HeadIsIndependent(children, calls, calls[i]);
    }
    assert others * gone == headSet;
    DistinctCardinality(heads);
    WithoutCounts(children, gone);
    assert |others - gone| == |others| - |others * gone|;
  }

  lemma AllCallsTakeAll(children: seq<Child>, all: seq<Call>)
    requires WellFormed(children) && SomeCalls(children, all)
    requires forall c :: c in children && c.kind != InterfaceNetwork ==> CallOf(children, c) in all
    requires MemberIds(children) == {} && IndicatorIds(children) == {}
    ensures |OtherIds(children)| == |all|
  {
    hide WellFormed, SomeCalls, Without, DeletedBy, NetworksOf;
    SomeCallsCount(children, all);
    WithoutCounts(children, DeletedBy(all));
    forall id | id in OtherIds(children) ensures id in DeletedBy(all) {
      var c :| c in children && IsOther(c.kind) && c.id == id;
      HeadIsIndependent(children, all, CallOf(children, c));
    }
    assert OtherIds(Without(children, DeletedBy(all))) == {};
  }

  lemma BuiltCalls(children: seq<Child>) returns (all: seq<Call>)
    requires WellFormed(children) && children != []
    requires MemberIds(children) == {} && IndicatorIds(children) == {}
    ensures CallsFor(children, |children|) == Ok(all)
    ensures SomeCalls(children, EventsLast(all)) && |EventsLast(all)| == |all| == |OtherIds(children)| > 0
  {
    hide DistinctIds, Complete, SingleNetworks, EventsLast, NetworksOf, CallsMatch, MemberIds, IndicatorIds, OtherIds;
    assert children[..|children|] == children;
    CallsForMatch(children, |children|);
    all := CallsFor(children, |children|).value;
    CallsHaveDistinctHeads(children, all);
    CallsAreForChildren(children, all);
    AllCallsTakeAll(children, all);
    EventsLastKeeps(all);
    var first := children[0];
    if first.kind == InterfaceNetwork {
      first := ParentOf(children, first);
    }
    assert CallOf(children, first) in all;
  }

  lemma SomeCallsRegistered(children: seq<Child>, calls: seq<Call>)
    requires SomeCalls(children, calls)
    ensures Registered(children, calls)
  {
    forall k, id | k in calls && id in k.ids ensures id in Ids(children) {
      var c :| c in children && c.kind != InterfaceNetwork && k == CallOf(children, c);
      var o := CallObjects(children, c, id);
    }
  }

  /** With no member or indicator left, sixteen independent children (or all that remain) leave together. */
  lemma IndependentBatch(children: seq<Child>)
    requires WellFormed(children) && children != []
    requires MemberIds(children) == {} && IndicatorIds(children) == {}
    ensures var all := CallsFor(children, |children|);
            all.Ok? && SafeBatch(children, FirstBatch(EventsLast(all.value)))
  {
    var all := BuiltCalls(children);
    var calls := FirstBatch(EventsLast(all));
    FirstBatchSome(children, EventsLast(all));
    SomeCallsDisjoint(children, calls);
    SomeCallsKeepParents(children, calls);
    SomeCallsRegistered(children, calls);
    IndependentShrinks(children, calls);
    IndependentProgress(children, calls, |all|);
  }

  lemma FirstBatchSome(children: seq<Child>, calls: seq<Call>)
    requires SomeCalls(children, calls)
    ensures SomeCalls(children, FirstBatch(calls))
  {
    assert forall k :: k in FirstBatch(calls) ==> k in calls;
  }

  lemma IndependentShrinks(children: seq<Child>, calls: seq<Call>)
    requires WellFormed(children) && SomeCalls(children, calls) && calls != []
    requires MemberIds(children) == {} && IndicatorIds(children) == {}
    ensures |Without(children, DeletedBy(calls))| < |children|
  {
    var gone, id := DeletedBy(calls), calls[0].ids[0];
    HeadIsIndependent(children, calls, calls[0]);
    assert id in Ids(children) * gone;
    WithoutShrinks(children, gone);
  }

  lemma IndependentProgress(children: seq<Child>, calls: seq<Call>, all: nat)
    requires WellFormed(children) && SomeCalls(children, calls)
    requires MemberIds(children) == {} && IndicatorIds(children) == {}
    requires 0 < all == |OtherIds(children)| && |calls| == if all <= BATCH then all else BATCH
    ensures Batches(Without(children, DeletedBy(calls))) + 1 == Batches(children)
  {
    var left := Without(children, DeletedBy(calls));
    SomeCallsCount(children, calls);
    WithoutCounts(children, DeletedBy(calls));
    OthersProgress(children, left, |calls|);
  }

  lemma OthersProgress(children: seq<Child>, left: seq<Child>, taken: nat)
    requires MemberIds(children) == {} && IndicatorIds(children) == {}
    requires MemberIds(left) == {} && IndicatorIds(left) == {}
    requires |OtherIds(left)| == |OtherIds(children)| - taken
    requires 0 < |OtherIds(children)| && taken == if |OtherIds(children)| <= BATCH then |OtherIds(children)| else BATCH
    ensures Batches(left) + 1 == Batches(children)
  {
  }

  /**
   On a well-formed, non-empty registry the planner always answers, with 1 to 16 calls over pairwise
   distinct registered objects; removing the batch orphans nothing and leaves a strictly smaller
   well-formed registry that is exactly one batch closer to empty.
   */
  lemma PlanIsSafe(children: seq<Child>)
    requires WellFormed(children) && children != []
    ensures Plan(children).Ok? && SafeBatch(children, Plan(children).value)
    ensures WellFormed(Next(children)) && |Next(children)| < |children|
    ensures Batches(Next(children)) + 1 == Batches(children)
  {
    hide DistinctIds, ParentPresent, SingleNetworks, CallsFor, EventsLast, FirstBatch, Without, Batches, DistinctObjects, Registered, KeepsParents,
         DeletedBy;
    NoErrorMeansComplete(children, 0);
    FirstOfKindFinds(children, CompositionMember);
    FirstOfKindFinds(children, MaturityIndicator);
    var member, indicator := FirstOfKind(children, CompositionMember), FirstOfKind(children, MaturityIndicator);
    if member.Some? {
      DependentBatch(children, member.value, RemoveMember);
    } else if indicator.Some? {
      DependentBatch(children, indicator.value, RemoveIndicator);
    } else {
      IndependentBatch(children);
    }
    WithoutSound(children, DeletedBy(Plan(children).value));
  }

  /* ---- Whole runs ---- */

  /** The progress part of PlanIsSafe alone. */
  lemma NextProgress(children: seq<Child>)
    requires WellFormed(children) && children != []
    ensures WellFormed(Next(children)) && Batches(Next(children)) + 1 == Batches(children)
  {
    PlanIsSafe(children);
  }

  /** One more batch, whatever is left. */
  lemma NextBatches(children: seq<Child>)
    requires WellFormed(children)
    ensures WellFormed(Next(children))
    ensures children == [] <==> Batches(children) == 0
    ensures Batches(Next(children)) == if Batches(children) == 0 then 0 else Batches(children) - 1
  {
    if children == [] {
      assert Next(children) == [];
    } else {
      NextProgress(children);
    }
  }

  /** Every batch of a run counts: n batches bring a well-formed registry n closer to empty, and never ill-formed. */
  lemma {:induction false} AfterBatches(children: seq<Child>, n: nat)
    requires WellFormed(children)
    ensures WellFormed(After(children, n))
    ensures Batches(After(children, n)) == if n <= Batches(children) then Batches(children) - n else 0
  {
    hide WellFormed, Batches, Next;
    if n > 0 {
      AfterBatches(children, n - 1);
      var before := After(children, n - 1);
      NextBatches(before);
      assert After(children, n) == Next(before);
    }
  }

  /** Planning stops with an error somewhere before the registry is empty. */
  ghost predicate RunFails(children: seq<Child>) {
    exists n: nat :: After(children, n) != [] && Plan(After(children, n)).Err?
  }

  lemma {:induction false} DuplicateRefused(children: seq<Child>, c: Child, n: nat)
    requires n <= |children| && c in children[..n] && c.kind == Interface
    requires |NetworksOf(children, c.id)| > 1
    ensures CallsFor(children, n) == Err(DuplicateNetwork)
  {
    if CallsFor(children, n - 1).Ok? && children[n - 1] != c {
      assert c in children[..n - 1];
      DuplicateRefused(children, c, n - 1);
    } else if CallsFor(children, n - 1).Err? {
      CallsErrorKind(children, n - 1);
    }
  }

  lemma {:induction false} CallsErrorKind(children: seq<Child>, n: nat)
    requires n <= |children| && CallsFor(children, n).Err?
    ensures CallsFor(children, n) == Err(DuplicateNetwork)
  {
    if CallsFor(children, n - 1).Err? {
      CallsErrorKind(children, n - 1);
    }
  }

  lemma LeafPlan(children: seq<Child>) returns (leaf: Child)
    requires Sound(children) && exists c :: c in children && (c.kind == CompositionMember || c.kind == MaturityIndicator)
    ensures leaf in children && (leaf.kind == CompositionMember || leaf.kind == MaturityIndicator)
    ensures Next(children) == Without(children, {leaf.id})
  {
    hide DistinctIds, ParentPresent, NetworksOf, CallsFor;
    NoErrorMeansComplete(children, 0);
    FirstOfKindFinds(children, CompositionMember);
    FirstOfKindFinds(children, MaturityIndicator);
    var member, indicator := FirstOfKind(children, CompositionMember), FirstOfKind(children, MaturityIndicator);
    leaf := if member.Some? then member.value else indicator.value;
    var calls := Plan(children).value;
    assert DeletedBy(calls[1..]) == {};
    assert DeletedBy(calls) == {leaf.id};
  }

  /** Removing a member or indicator leaves every network in place. */
  lemma LeafStep(children: seq<Child>)
    requires Sound(children) && exists c :: c in children && (c.kind == CompositionMember || c.kind == MaturityIndicator)
    ensures Sound(Next(children))
    ensures forall c :: c in children && c.kind == InterfaceNetwork ==> c in Next(children)
  {
    hide DistinctIds, Complete, Next, Without, KeepsParents;
    var leaf := LeafPlan(children);
    LeafKeepsParents(children, leaf);
    WithoutSound(children, {leaf.id});
    WithoutMembers(children, {leaf.id});
    forall c | c in children && c.kind == InterfaceNetwork ensures c.id != leaf.id {
      if c.id == leaf.id {
        SameChild(children, c, leaf);
      }
    }
  }

  lemma DuplicatePlan(children: seq<Child>, c: Child, d: Child)
    requires Sound(children) && c in children && d in children
    requires c.kind == d.kind == InterfaceNetwork && c.parent == d.parent && c.id != d.id
    requires forall x :: x in children ==> x.kind != CompositionMember && x.kind != MaturityIndicator
    ensures Plan(children) == Err(DuplicateNetwork)
  {
    hide DistinctIds, ParentPresent, KindOf, CallsFor, NetworksOf, FirstError;
    var p := DuplicateParent(children, c, d);
    NoErrorMeansComplete(children, 0);
    FirstOfKindFinds(children, CompositionMember);
    FirstOfKindFinds(children, MaturityIndicator);
    assert children[..|children|] == children;
    DuplicateRefused(children, p, |children|);
  }

  lemma DuplicateParent(children: seq<Child>, c: Child, d: Child) returns (p: Child)
    requires Sound(children) && c in children && d in children
    requires c.kind == d.kind == InterfaceNetwork && c.parent == d.parent && c.id != d.id
    ensures p in children && p.kind == Interface && |NetworksOf(children, p.id)| > 1
  {
    hide Sound;
    p := ParentOf(children, c);
    NetworksOfMembers(children, p.id);
    assert c.id in NetworksOf(children, p.id) && d.id in NetworksOf(children, p.id);
  }

  /** The batches that take the members and indicators away, one each. */
  ghost function LeafCount(children: seq<Child>): nat {
    |MemberIds(children)| + |IndicatorIds(children)|
  }

  lemma LeafStepCounts(children: seq<Child>)
    requires Sound(children) && LeafCount(children) > 0
    ensures Plan(children).Ok? && Sound(Next(children)) && LeafCount(Next(children)) + 1 == LeafCount(children)
    ensures SingleNetworks(Next(children)) ==> SingleNetworks(children)
  {
    hide DistinctIds, Complete, ParentPresent, NetworksOf, CallsFor, Without, KeepsParents;
    assert exists c :: c in children && (c.kind == CompositionMember || c.kind == MaturityIndicator) by {
      if MemberIds(children) != {} {
        var id :| id in MemberIds(children);
      } else {
        var id :| id in IndicatorIds(children);
      }
    }
    NoErrorMeansComplete(children, 0);
    LeafStep(children);
    var leaf := LeafPlan(children);
    var m, i := MemberIds(children), IndicatorIds(children);
    IdSetsDisjoint(children);
    WithoutCounts(children, {leaf.id});
    if leaf.kind == CompositionMember {
      RemoveOneId(m, i, leaf.id);
    } else {
      RemoveOneId(i, m, leaf.id);
    }
  }

  /**
   With two networks of one interface, exactly the batches for the members and indicators succeed, and the plan after
   them is refused.
   */
  lemma {:induction false} DuplicatesFailLate(children: seq<Child>, n: nat)
    requires Sound(children) && !SingleNetworks(children) && n <= LeafCount(children)
    ensures var left := After(children, n);
            && Sound(left) && !SingleNetworks(left) && LeafCount(left) == LeafCount(children) - n
            && (if n < LeafCount(children) then Plan(left).Ok? else Plan(left) == Err(DuplicateNetwork))
  {
    hide Sound, SingleNetworks, LeafCount, Next;
    if n > 0 {
      DuplicatesFailLate(children, n - 1);
      LeafStepCounts(After(children, n - 1));
    }
    var left := After(children, n);
    if n < LeafCount(children) {
      LeafStepCounts(left);
    } else {
      NoLeafRefused(left);
    }
  }

  lemma NoLeafRefused(children: seq<Child>)
    requires Sound(children) && !SingleNetworks(children) && LeafCount(children) == 0
    ensures Plan(children) == Err(DuplicateNetwork)
  {
    hide Sound;
    var c, d :| c in children && d in children && c.kind == d.kind == InterfaceNetwork && c.parent == d.parent && c.id != d.id;
    assert MemberIds(children) == {} && IndicatorIds(children) == {};
    forall x | x in children
      ensures x.kind != CompositionMember && x.kind != MaturityIndicator
    {
      assert x.id !in MemberIds(children) && x.id !in IndicatorIds(children);
    }
    DuplicatePlan(children, c, d);
  }

  /**
   Cleaning up a registry that passed the checks done before anything irreversible ends in a planning
   error exactly when some interface has two networks, although the first plan may well succeed.
   */
  lemma RunFailsIffDuplicateNetwork(children: seq<Child>)
    requires Sound(children)
    ensures RunFails(children) <==> !SingleNetworks(children)
  {
    if !SingleNetworks(children) {
      DuplicatesFailLate(children, LeafCount(children));
    } else {
      forall n: nat | After(children, n) != [] ensures Plan(After(children, n)).Ok? {
        AfterBatches(children, n);
        PlanIsSafe(After(children, n));
      }
    }
  }

  /* ---- Which calls a plan makes ---- */

  /** The child is of the kind and hangs on an object of the parent kind. */
  ghost predicate HangsOn(children: seq<Child>, c: Child, p: Child, kind: Kind, parent: Kind) {
    c in children && p in children && c.kind == kind && p.kind == parent && c.parent == p.id
  }

  /** What the contract takes: each operation has its own kind of object, a dependent comes behind its parent. */
  ghost predicate Accepts(children: seq<Child>, call: Call) {
    match call.op
    case RemoveMember => exists c, p :: HangsOn(children, c, p, CompositionMember, Composition) && call.ids == [p.id, c.id]
    case RemoveIndicator => exists c, p :: HangsOn(children, c, p, MaturityIndicator, MaturityAssessment) && call.ids == [p.id, c.id]
    case RemoveInterface =>
      && |call.ids| == 1 && (exists i :: i in children && i.kind == Interface && call.ids == [i.id])
      && forall n :: n in children && n.kind == InterfaceNetwork ==> n.parent != call.ids[0]
    case RemoveInterfaceV2 =>
      && |call.ids| == 2 && (exists n, i :: HangsOn(children, n, i, InterfaceNetwork, Interface) && call.ids == [i.id, n.id])
      && forall n :: n in children && n.kind == InterfaceNetwork && n.parent == call.ids[0] ==> n.id == call.ids[1]
    case RemoveOne(kind) =>
      && (exists c :: c in children && c.kind == kind && call.ids == [c.id])
      && kind !in {CompositionMember, MaturityIndicator, Interface, InterfaceNetwork}
  }

  lemma {:induction false} CallsForShape(children: seq<Child>, n: nat, k: Call)
    requires n <= |children| && CallsFor(children, n).Ok? && k in CallsFor(children, n).value
    ensures exists c :: c in children[..n] && c.kind != InterfaceNetwork && CallFor(children, c) == Ok([k])
  {
    hide CallFor;
    if k in CallsFor(children, n - 1).value {
      CallsForShape(children, n - 1, k);
      var c :| c in children[..n - 1] && c.kind != InterfaceNetwork && CallFor(children, c) == Ok([k]);
      assert c in children[..n];
    } else {
      var c := children[n - 1];
      CallForIs(children, c);
      assert k in CallFor(children, c).value;
      assert CallFor(children, c).value == [k];
      assert children[..n][n - 1] == c;
    }
  }

  lemma CallForIs(children: seq<Child>, c: Child)
    requires CallFor(children, c).Ok?
    ensures if c.kind == InterfaceNetwork then CallFor(children, c).value == [] else |CallFor(children, c).value| == 1
  {}

  lemma IndependentAccepted(children: seq<Child>, c: Child, k: Call)
    requires Sound(children) && c in children && c.kind != InterfaceNetwork && CallFor(children, c) == Ok([k])
    requires c.kind != CompositionMember && c.kind != MaturityIndicator
    ensures Accepts(children, k)
  {
    hide DistinctIds, Complete, ParentPresent, KindOf;
    if c.kind == Interface {
      var networks := NetworksOf(children, c.id);
      NetworksOfMembers(children, c.id);
      if networks != [] {
        assert networks[0] in networks;
        var n :| n in children && n.kind == InterfaceNetwork && n.parent == c.id && n.id == networks[0];
        assert k.op == RemoveInterfaceV2;
        assert k.ids == [c.id, n.id];
        assert HangsOn(children, n, c, InterfaceNetwork, Interface);
        forall m | m in children && m.kind == InterfaceNetwork && m.parent == k.ids[0]
          ensures m.id == k.ids[1]
        {
          assert m.id in networks;
          assert networks == [n.id];
        }
      } else {
        forall m | m in children && m.kind == InterfaceNetwork
          ensures m.parent != k.ids[0]
        {
          assert m.parent == c.id ==> m.id in networks;
        }
      }
    }
  }

  lemma DependentAccepted(children: seq<Child>, c: Child)
    requires Sound(children) && c in children
    ensures c.kind == CompositionMember ==> Accepts(children, Call(RemoveMember, [c.parent, c.id]))
    ensures c.kind == MaturityIndicator ==> Accepts(children, Call(RemoveIndicator, [c.parent, c.id]))
  {
    hide DistinctIds, Complete;
    if c.kind == CompositionMember {
      var p := ParentOf(children, c);
      assert HangsOn(children, c, p, CompositionMember, Composition);
    } else if c.kind == MaturityIndicator {
      var p := ParentOf(children, c);
      assert HangsOn(children, c, p, MaturityIndicator, MaturityAssessment);
    }
  }

  /** Every call of a plan is one that the contract takes. */
  lemma PlanIsAccepted(children: seq<Child>, k: Call)
    requires Sound(children) && Plan(children).Ok? && k in Plan(children).value
    ensures Accepts(children, k)
  {
    hide DistinctIds, Complete, ParentPresent, KindOf, Accepts, CallsFor, FirstError, CallFor;
    FirstOfKindFinds(children, CompositionMember);
    FirstOfKindFinds(children, MaturityIndicator);
    NoErrorMeansComplete(children, 0);
    var member, indicator := FirstOfKind(children, CompositionMember), FirstOfKind(children, MaturityIndicator);
    if member.Some? {
      DependentAccepted(children, member.value);
    } else if indicator.Some? {
      DependentAccepted(children, indicator.value);
    } else {
      var calls := CallsFor(children, |children|).value;
      SelectMembers(calls, false);
      SelectMembers(calls, true);
      assert k in EventsLast(calls);
      CallsForShape(children, |children|, k);
      var c :| c in children[..|children|] && c.kind != InterfaceNetwork && CallFor(children, c) == Ok([k]);
      IndependentAccepted(children, c, k);
    }
  }

  /** The ids of the children that get a call of their own, events or the others, in registry order. */
  function Removable(children: seq<Child>, events: bool): seq<string> {
    if children == [] then []
    else
      var last := children[|children| - 1];
      Removable(children[..|children| - 1], events)
      + if last.kind != InterfaceNetwork && (last.kind == Event) == events then [last.id] else []
  }

  lemma SelectMore(first: Call, rest: seq<Call>, events: bool)
    ensures Select([first] + rest, events) == (if (first.op == RemoveOne(Event)) == events then [first] else []) + Select(rest, events)
  {
    assert ([first] + rest)[1..] == rest;
  }

  lemma Associates<T>(a: seq<T>, b: seq<T>, c: seq<T>)
    ensures a + (b + c) == (a + b) + c && [] + a == a
  {}

  lemma {:induction false} SelectConcat(a: seq<Call>, b: seq<Call>, events: bool)
    ensures Select(a + b, events) == Select(a, events) + Select(b, events)
  {
    if a == [] {
      assert a + b == b;
      Associates(Select(b, events), [], []);
    } else {
      var rest := a[1..];
      SelectConcat(rest, b, events);
      SelectMore(a[0], rest, events);
      SelectMore(a[0], rest + b, events);
      assert a == [a[0]] + rest && a + b == [a[0]] + (rest + b);
      hide Select;
      var first: seq<Call> := if (a[0].op == RemoveOne(Event)) == events then [a[0]] else [];
      Associates(first, Select(rest, events), Select(b, events));
    }
  }

  ghost predicate HeadsAre(calls: seq<Call>, ids: seq<string>) {
    |calls| == |ids| && forall i :: 0 <= i < |ids| ==> calls[i].ids != [] && calls[i].ids[0] == ids[i]
  }

  lemma {:induction false} SelectedHeads(children: seq<Child>, n: nat, events: bool)
    requires n <= |children| && CallsFor(children, n).Ok?
    ensures HeadsAre(Select(CallsFor(children, n).value, events), Removable(children[..n], events))
  {
    hide CallFor;
    if n > 0 {
      SelectedHeads(children, n - 1, events);
      assert children[..n][..n - 1] == children[..n - 1];
      var before, more := CallsFor(children, n - 1).value, CallFor(children, children[n - 1]).value;
      SelectConcat(before, more, events);
      CallForHead(children, children[n - 1], events);
      hide Select, Removable, HeadsAre;
      var last := children[n - 1];
      HeadsConcat(Select(before, events), Removable(children[..n - 1], events), Select(more, events),
                  if last.kind != InterfaceNetwork && (last.kind == Event) == events then [last.id] else []);
    }
  }

  lemma HeadsConcat(a: seq<Call>, x: seq<string>, b: seq<Call>, y: seq<string>)
    requires HeadsAre(a, x) && HeadsAre(b, y)
    ensures HeadsAre(a + b, x + y)
  {}

  lemma CallForHead(children: seq<Child>, c: Child, events: bool)
    requires CallFor(children, c).Ok?
    ensures HeadsAre(Select(CallFor(children, c).value, events),
                     if c.kind != InterfaceNetwork && (c.kind == Event) == events then [c.id] else [])
  {
    hide NetworksOf;
    var calls := CallFor(children, c).value;
    if calls != [] {
      assert calls[1..] == [];
      assert Select(calls[1..], events) == [];
    }
  }

  /** The first child of the kind in registry order. */
  ghost predicate IsFirst(children: seq<Child>, kind: Kind, i: int) {
    0 <= i < |children| && children[i].kind == kind && forall j :: 0 <= j < i ==> children[j].kind != kind
  }

  lemma {:induction false} FirstOfKindIs(children: seq<Child>, kind: Kind) returns (i: nat)
    requires FirstOfKind(children, kind).Some?
    ensures IsFirst(children, kind, i) && FirstOfKind(children, kind) == Some(children[i])
  {
    if children[0].kind == kind {
      i := 0;
    } else {
      var j := FirstOfKindIs(children[1..], kind);
      i := j + 1;
    }
  }

  /**
   Members go first, one by one in registry order, then indicators, and then the other children: sixteen at a time in
   registry order, the events behind everything else.
   */
  lemma PlanPicks(children: seq<Child>)
    requires Plan(children).Ok?
    ensures var calls := Plan(children).value;
            if exists c :: c in children && c.kind == CompositionMember then
              |calls| == 1 && exists i :: IsFirst(children, CompositionMember, i) && calls[0].ids == [children[i].parent, children[i].id]
            else if exists c :: c in children && c.kind == MaturityIndicator then
              |calls| == 1 && exists i :: IsFirst(children, MaturityIndicator, i) && calls[0].ids == [children[i].parent, children[i].id]
            else
              var order := Removable(children, false) + Removable(children, true);
              HeadsAre(calls, if |order| <= 16 then order else order[..16])
  {
    hide CallsFor, FirstError, HeadsAre, EventsLast, FirstBatch, Removable;
    FirstOfKindFinds(children, CompositionMember);
    FirstOfKindFinds(children, MaturityIndicator);
    if FirstOfKind(children, CompositionMember).Some? {
      var i := FirstOfKindIs(children, CompositionMember);
    } else if FirstOfKind(children, MaturityIndicator).Some? {
      var i := FirstOfKindIs(children, MaturityIndicator);
    } else {
      IndependentPicks(children);
    }
  }

  lemma IndependentPicks(children: seq<Child>)
    requires CallsFor(children, |children|).Ok?
    ensures var order := Removable(children, false) + Removable(children, true);
            HeadsAre(FirstBatch(EventsLast(CallsFor(children, |children|).value)), if |order| <= 16 then order else order[..16])
  {
    hide CallsFor, Select, Removable;
    assert children[..|children|] == children;
    SelectedHeads(children, |children|, false);
    SelectedHeads(children, |children|, true);
  }

  /* ---- Which error a plan ends in ---- */

  /** The parent that a dependent names is not registered, or is of another kind. */
  ghost predicate Orphaned(children: seq<Child>, c: Child) {
    RequiredParent(c.kind) != Unknown && !exists p :: p in children && p.id == c.parent && p.kind == RequiredParent(c.kind)
  }

  /** Position i is the first that holds a child of unknown kind or an orphaned one. */
  ghost predicate FirstBad(children: seq<Child>, i: int) {
    && 0 <= i < |children| && (children[i].kind == Unknown || Orphaned(children, children[i]))
    && forall j :: 0 <= j < i ==> children[j].kind != Unknown && !Orphaned(children, children[j])
  }

  lemma OrphanedIs(children: seq<Child>, c: Child)
    requires DistinctIds(children)
    ensures Orphaned(children, c) <==> !ParentPresent(children, c)
  {
    hide DistinctIds, KindOf;
    KindOfFound(children, c.parent);
    if p :| p in children && p.id == c.parent && p.kind == RequiredParent(c.kind) {
      KindOfMember(children, p);
    }
  }

  lemma {:induction false} FirstErrorIs(children: seq<Child>, from: nat) returns (i: nat)
    requires from <= |children| && FirstError(children, from).Some?
    ensures from <= i < |children| && FirstError(children, from) == Some(if children[i].kind == Unknown then UnknownType else MissingParent)
    ensures children[i].kind == Unknown || !ParentPresent(children, children[i])
    ensures forall j :: from <= j < i ==> children[j].kind != Unknown && ParentPresent(children, children[j])
    decreases |children| - from
  {
    hide ParentPresent;
    if children[from].kind == Unknown || !ParentPresent(children, children[from]) {
      i := from;
    } else {
      i := FirstErrorIs(children, from + 1);
    }
  }

  /**
   A plan is refused for its first child of unknown kind or without its parent, or else, when neither member nor indicator
   is left, for an interface with two networks; and for nothing else.
   */
  lemma PlanErrorsExactly(children: seq<Child>)
    requires DistinctIds(children)
    ensures Plan(children) == Err(UnknownType) <==> exists i :: FirstBad(children, i) && children[i].kind == Unknown
    ensures Plan(children) == Err(MissingParent) <==> exists i :: FirstBad(children, i) && children[i].kind != Unknown
    ensures Plan(children) == Err(DuplicateNetwork)
            <==> Complete(children) && MemberIds(children) == {} && IndicatorIds(children) == {} && !SingleNetworks(children)
  {
    hide DistinctIds, ParentPresent, SingleNetworks, CallsFor, KindOf, MemberIds, IndicatorIds;
    NoErrorMeansComplete(children, 0);
    forall c | c in children ensures Orphaned(children, c) <==> !ParentPresent(children, c) {
      OrphanedIs(children, c);
    }
    if FirstError(children, 0).Some? {
      var i := FirstErrorIs(children, 0);
      assert FirstBad(children, i);
    } else {
      assert Sound(children);
      SoundPlanErrors(children);
    }
  }

  lemma SoundPlanErrors(children: seq<Child>)
    requires Sound(children)
    ensures Plan(children) == Err(DuplicateNetwork)
            <==> MemberIds(children) == {} && IndicatorIds(children) == {} && !SingleNetworks(children)
    ensures Plan(children) != Err(UnknownType) && Plan(children) != Err(MissingParent)
  {
    hide Sound, SingleNetworks, MemberIds, IndicatorIds;
    if SingleNetworks(children) {
      if children != [] {
        PlanIsSafe(children);
      }
    } else if LeafCount(children) > 0 {
      LeafStepCounts(children);
    } else {
      NoLeafRefused(children);
    }
  }
}
