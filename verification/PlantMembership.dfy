/** Every run of plant writers against one catalog with fixed supervisor pins. */
module PlantMembership {
  import opened Wrappers
  import opened PlantBindings

  /*
   The catalog lock makes each write one step (PlantCatalog), so the check a write passed still holds of the catalog it
   replaces.
   */

  /**
   A tenant's supervisor writes a plant; a Twin creation opens the owner's personal plant; a migration adds a Twin
   to it; another subsystem writes under a scope of its own. `twins` is what the chain says when the write runs.
   */
  datatype Write =
    | TenantPut(tenant: string, plant: string, document: Document, twins: string -> TwinFields)
    | OpenPersonal(owner: string)
    | Migrate(owner: string, twin: string)
    | OtherPut(scope: string, plant: string, document: Document)

  function PinOf(pins: Pins, scope: string): Option<string> {
    if pins == [] then None else if pins[0].0 == scope then Some(pins[0].1) else PinOf(pins[1..], scope)
  }

  predicate HasPin(pins: Pins, scope: string) {
    exists i :: 0 <= i < |pins| && pins[i].0 == scope
  }

  /** The keys of one JSON object, none of which looks like a personal scope. */
  predicate PinsOk(pins: Pins) {
    && (forall i, j :: 0 <= i < j < |pins| ==> pins[i].0 != pins[j].0)
    && (forall i :: 0 <= i < |pins| ==> !IsPersonal(pins[i].0))
  }

  predicate DistinctNodes(document: Document) {
    NodesDiffer(document.bindings)
  }

  predicate NodesDiffer(bindings: seq<Binding>) {
    forall i, j :: 0 <= i < j < |bindings| ==> bindings[i].node != bindings[j].node
  }

  predicate SameKey(p: Stored, q: Stored) {
    p.scope == q.scope && p.plant == q.plant
  }

  function Without(plants: Plants, scope: string, plant: string): Plants {
    if plants == [] then []
    else (if plants[0].scope == scope && plants[0].plant == plant then [] else [plants[0]]) + Without(plants[1..], scope, plant)
  }

  function Put(plants: Plants, scope: string, plant: string, document: Document): Plants {
    Without(plants, scope, plant) + [Stored(scope, plant, document)]
  }

  function EmptyPersonal(owner: string): Document {
    Document(owner, Some(Node(PersonalPlant(owner), false, [])), [])
  }

  function WithoutNode(bindings: seq<Binding>, node: string): seq<Binding> {
    if bindings == [] then []
    else (if bindings[0].node == node then [] else [bindings[0]]) + WithoutNode(bindings[1..], node)
  }

  function WithoutChild(children: seq<Node>, id: string): seq<Node> {
    if children == [] then []
    else (if children[0].id == id then [] else [children[0]]) + WithoutChild(children[1..], id)
  }

  function AddTwin(document: Document, twin: string): Document {
    var node := LocalNode(twin);
    var tree := if document.tree.None? then None else
                  Some(document.tree.value.(children := WithoutChild(document.tree.value.children, node) + [Node(node, false, [])]));
    document.(tree := tree, bindings := WithoutNode(document.bindings, node) + [Binding(node, twin)])
  }

  function Step(pins: Pins, plants: Plants, w: Write): Plants {
    match w
    case TenantPut(tenant, plant, document, twins) =>
      var owner := PinOf(pins, tenant);
      if owner.None? || !OwnedBy(document, owner.value) || !DistinctNodes(document) then plants
      else if Check(plants, pins, tenant, owner.value, plant, document, twins).Some? then plants
      else Put(plants, tenant, plant, document.(ownerDid := owner.value))
    case OpenPersonal(owner) =>
      if FindPlant(plants, PersonalScope(owner), PersonalPlant(owner)).Some? then plants
      else Put(plants, PersonalScope(owner), PersonalPlant(owner), EmptyPersonal(owner))
    case Migrate(owner, twin) =>
      var found := FindPlant(plants, PersonalScope(owner), PersonalPlant(owner));
      var document := if found.Some? then found.value.document else EmptyPersonal(owner);
      if document.ownerDid != owner then plants
      else Put(plants, PersonalScope(owner), PersonalPlant(owner), AddTwin(document, twin))
    case OtherPut(scope, plant, document) =>
      if PinOf(pins, scope).Some? || IsPersonal(scope) || !DistinctNodes(document) then plants
      else Put(plants, scope, plant, document)
  }

  function Run(pins: Pins, writes: seq<Write>): Plants {
    if writes == [] then [] else Step(pins, Run(pins, writes[..|writes| - 1]), writes[|writes| - 1])
  }

  /* ---- What every reachable catalog keeps ---- */

  predicate UniqueTwins(document: Document) {
    forall i, j :: 0 <= i < j < |document.bindings| ==> document.bindings[i].twin != document.bindings[j].twin
  }

  /** A plant of an owner's personal scope. */
  predicate PersonalOk(p: Stored)
    requires |p.scope| >= |"personal:"|
  {
    var owner := p.scope[|"personal:"|..];
    && p.plant == PersonalPlant(owner)
    && p.document.ownerDid == owner
    && forall b :: b in p.document.bindings ==> b.node == LocalNode(b.twin)
  }

  predicate PlantOk(pins: Pins, p: Stored) {
    && DistinctNodes(p.document)
    && (PinOf(pins, p.scope).Some? ==> UniqueTwins(p.document) && OwnedBy(p.document, PinOf(pins, p.scope).value))
    && (IsPersonal(p.scope) ==> |p.scope| >= |"personal:"| && PersonalOk(p))
  }

  predicate Apart(p: Stored, q: Stored) {
    forall b, c :: b in p.document.bindings && c in q.document.bindings ==> b.twin != c.twin
  }

  /** Two plants of one owner's tenants bind different Twins. */
  predicate PairOk(pins: Pins, p: Stored, q: Stored) {
    PinOf(pins, p.scope).Some? && PinOf(pins, p.scope) == PinOf(pins, q.scope) ==> Apart(p, q)
  }

  predicate KeysDiffer(plants: Plants) {
    forall i, j :: 0 <= i < j < |plants| ==> !SameKey(plants[i], plants[j])
  }

  predicate CatalogOk(pins: Pins, plants: Plants) {
    && KeysDiffer(plants)
    && (forall p :: p in plants ==> PlantOk(pins, p))
    && (forall p, q :: p in plants && q in plants && !SameKey(p, q) ==> PairOk(pins, p, q))
  }

  /* ---- Small facts about the helpers ---- */

  lemma {:induction false} WithoutMembers(plants: Plants, scope: string, plant: string)
    ensures forall p :: p in Without(plants, scope, plant) <==> p in plants && !(p.scope == scope && p.plant == plant)
  {
    if plants != [] {
      WithoutMembers(plants[1..], scope, plant);
      assert plants == [plants[0]] + plants[1..];
    }
  }

  lemma {:induction false} WithoutDistinct(plants: Plants, scope: string, plant: string)
    requires KeysDiffer(plants)
    ensures KeysDiffer(Without(plants, scope, plant))
  {
    if plants != [] {
      WithoutDistinct(plants[1..], scope, plant);
      WithoutMembers(plants[1..], scope, plant);
      var rest := Without(plants[1..], scope, plant);
      forall j | 0 <= j < |rest|
        ensures !SameKey(plants[0], rest[j])
      {
        assert rest[j] in plants[1..];
      }
      assert Without(plants, scope, plant) == rest || Without(plants, scope, plant) == [plants[0]] + rest;
    }
  }

  lemma {:induction false} Found(plants: Plants, scope: string, plant: string)
    ensures var r := FindPlant(plants, scope, plant);
            if r.Some? then r.value in plants && r.value.scope == scope && r.value.plant == plant
            else forall p :: p in plants ==> !(p.scope == scope && p.plant == plant)
  {
    if plants != [] {
      Found(plants[1..], scope, plant);
      assert plants == [plants[0]] + plants[1..];
    }
  }

  lemma {:induction false} InScopeMembers(plants: Plants, scope: string)
    ensures forall p :: p in InScope(plants, scope) <==> p in plants && p.scope == scope
  {
    if plants != [] {
      InScopeMembers(plants[1..], scope);
      assert plants == [plants[0]] + plants[1..];
    }
  }

  lemma {:induction false} GatherMembers(plants: Plants, scopes: seq<string>)
    ensures forall p :: p in Gather(plants, scopes) <==> p in plants && p.scope in scopes
  {
    if scopes != [] {
      var last := |scopes| - 1;
      GatherMembers(plants, scopes[..last]);
      InScopeMembers(plants, scopes[last]);
      assert scopes == scopes[..last] + [scopes[last]];
    }
  }

  lemma {:induction false} PinnedMembers(pins: Pins, owner: string)
    requires PinsOk(pins)
    ensures forall s :: s in PinnedScopes(pins, owner) <==> PinOf(pins, s) == Some(owner)
    ensures forall s :: PinOf(pins, s).Some? ==> !IsPersonal(s) && HasPin(pins, s)
  {
    if pins != [] {
      var rest := pins[1..];
      forall i | 0 <= i < |rest|
        ensures rest[i].0 == pins[i + 1].0 && !IsPersonal(rest[i].0)
      {}
      PinnedMembers(rest, owner);
      forall s | PinOf(pins, s).Some?
        ensures !IsPersonal(s) && HasPin(pins, s)
      {
        if pins[0].0 != s {
          assert HasPin(rest, s);
          var i :| 0 <= i < |rest| && rest[i].0 == s;
          assert pins[i + 1].0 == s;
        }
      }
      assert !HasPin(rest, pins[0].0) by {
        forall i | 0 <= i < |rest|
          ensures rest[i].0 != pins[0].0
        {
          assert pins[0].0 != pins[i + 1].0;
        }
      }
    }
  }

  /** The owner's plants are those of the scopes pinned to it and of its personal scope. */
  lemma OwnedMembers(plants: Plants, pins: Pins, owner: string)
    requires PinsOk(pins)
    ensures forall p :: p in Gather(plants, Scopes(pins, owner))
                        <==> p in plants && (PinOf(pins, p.scope) == Some(owner) || p.scope == PersonalScope(owner))
  {
    PinnedMembers(pins, owner);
    GatherMembers(plants, Scopes(pins, owner));
  }

  lemma {:induction false} LookupFinds(bindings: seq<Binding>, node: string, twin: string)
    requires Lookup(bindings, node) == Some(twin)
    ensures Binding(node, twin) in bindings
  {
    if bindings[0].node != node {
      LookupFinds(bindings[1..], node, twin);
    }
  }

  lemma {:induction false} WithoutNodeMembers(bindings: seq<Binding>, node: string)
    ensures forall b :: b in WithoutNode(bindings, node) <==> b in bindings && b.node != node
  {
    if bindings != [] {
      WithoutNodeMembers(bindings[1..], node);
      assert bindings == [bindings[0]] + bindings[1..];
    }
  }

  lemma {:induction false} WithoutNodeDistinct(bindings: seq<Binding>, node: string)
    requires NodesDiffer(bindings)
    ensures NodesDiffer(WithoutNode(bindings, node))
  {
    if bindings != [] {
      WithoutNodeDistinct(bindings[1..], node);
      WithoutNodeMembers(bindings[1..], node);
      var rest := WithoutNode(bindings[1..], node);
      forall j | 0 <= j < |rest|
        ensures bindings[0].node != rest[j].node
      {
        assert rest[j] in bindings[1..];
      }
    }
  }

  /* ---- What a passed check promises ---- */

  /** A Twin may be newly bound here: it is the owner's, its origin is elsewhere nowhere, and no other tenant plant has it. */
  ghost predicate Bindable(owned: Plants, tenant: string, owner: string, plant: string, twin: string, fields: TwinFields) {
    && fields.ownerDid == owner
    && fields.origin.Some?
    && (Industrial(fields.origin.value) ==> fields.origin.value == Origin(Some(tenant), Some(plant)))
    && !TakenElsewhere(owned, tenant, plant, twin)
  }

  /** The binding in position i is well formed, the first of its Twin, and either unchanged or of a bindable Twin. */
  ghost predicate Checked(owned: Plants, tenant: string, owner: string, plant: string, document: Document,
                          twins: string -> TwinFields, i: nat)
    requires i < |document.bindings|
  {
    var b := document.bindings[i];
    var previous := FindPlant(owned, tenant, plant);
    var earlier := if previous.Some? then previous.value.document.bindings else [];
    && ValidTwinId(b.twin) && b.node in TreeIds(document)
    && (forall k :: 0 <= k < i ==> document.bindings[k].twin != b.twin)
    && (Lookup(earlier, b.node) == Some(b.twin) || Bindable(owned, tenant, owner, plant, b.twin, twins(b.twin)))
  }

  lemma {:induction false} CheckedAll(owned: Plants, tenant: string, owner: string, plant: string, document: Document,
                                      twins: string -> TwinFields, from: nat)
    requires from <= |document.bindings|
    ensures FirstError(owned, tenant, owner, plant, document, twins, from).None? <==>
            forall i :: from <= i < |document.bindings| ==> Checked(owned, tenant, owner, plant, document, twins, i)
    decreases |document.bindings| - from
  {
    hide Checked;
    if from < |document.bindings| {
      CheckedOne(owned, tenant, owner, plant, document, twins, from);
      CheckedAll(owned, tenant, owner, plant, document, twins, from + 1);
    }
  }

  lemma CheckedOne(owned: Plants, tenant: string, owner: string, plant: string, document: Document,
                   twins: string -> TwinFields, from: nat)
    requires from < |document.bindings|
    ensures FirstError(owned, tenant, owner, plant, document, twins, from).None? <==>
            && Checked(owned, tenant, owner, plant, document, twins, from)
            && FirstError(owned, tenant, owner, plant, document, twins, from + 1).None?
  {}

  /** Every binding of the document is in order. */
  ghost predicate AllChecked(owned: Plants, tenant: string, owner: string, plant: string, document: Document, twins: string -> TwinFields) {
    forall i :: 0 <= i < |document.bindings| ==> Checked(owned, tenant, owner, plant, document, twins, i)
  }

  /** The check passes exactly when the owner's plants are its own and every binding is in order. */
  lemma CheckPassesExactly(plants: Plants, pins: Pins, tenant: string, owner: string, plant: string, document: Document,
                           twins: string -> TwinFields)
    ensures Check(plants, pins, tenant, owner, plant, document, twins).None? <==>
            && (forall p :: p in Gather(plants, Scopes(pins, owner)) ==> OwnedBy(p.document, owner))
            && AllChecked(Gather(plants, Scopes(pins, owner)), tenant, owner, plant, document, twins)
  {
    CheckedAll(Gather(plants, Scopes(pins, owner)), tenant, owner, plant, document, twins, 0);
  }

  /** A binding that passed names no Twin of another of the owner's tenant plants. */
  lemma CheckedFree(pins: Pins, plants: Plants, owned: Plants, tenant: string, owner: string, plant: string, document: Document,
                    twins: string -> TwinFields, i: nat, q: Stored, c: Binding)
    requires PinsOk(pins) && CatalogOk(pins, plants) && PinOf(pins, tenant) == Some(owner)
    requires owned == Gather(plants, Scopes(pins, owner))
    requires i < |document.bindings| && Checked(owned, tenant, owner, plant, document, twins, i)
    requires q in plants && PinOf(pins, q.scope) == Some(owner) && !(q.scope == tenant && q.plant == plant)
    requires c in q.document.bindings
    ensures document.bindings[i].twin != c.twin
  {
    hide PlantOk, Scopes, Gather, PinsOk, ValidTwinId, TreeIds, Industrial;
    var b := document.bindings[i];
    OwnedMembers(plants, pins, owner);
    PinnedMembers(pins, owner);
    Found(owned, tenant, plant);
    var previous := FindPlant(owned, tenant, plant);
    var earlier := if previous.Some? then previous.value.document.bindings else [];
    if Lookup(earlier, b.node) == Some(b.twin) {
      LookupFinds(earlier, b.node, b.twin);
      assert PairOk(pins, previous.value, q);
    } else {
      assert !Binds(q.document, b.twin);
    }
  }

  /* ---- One step ---- */

  /** Replacing one plant keeps the catalog well formed when the new document fits the plants that stay. */
  lemma PutKeeps(pins: Pins, plants: Plants, scope: string, plant: string, document: Document)
    requires CatalogOk(pins, plants)
    requires PlantOk(pins, Stored(scope, plant, document))
    requires forall q :: q in plants && !(q.scope == scope && q.plant == plant) ==>
               PairOk(pins, Stored(scope, plant, document), q) && PairOk(pins, q, Stored(scope, plant, document))
    ensures CatalogOk(pins, Put(plants, scope, plant, document))
  {
    hide PlantOk, PairOk, Without;
    WithoutMembers(plants, scope, plant);
    WithoutDistinct(plants, scope, plant);
    var kept := Without(plants, scope, plant);
    forall i | 0 <= i < |kept|
      ensures !SameKey(kept[i], Stored(scope, plant, document))
    {
      assert kept[i] in kept;
    }
  }

  lemma TenantPutKeeps(pins: Pins, plants: Plants, tenant: string, plant: string, document: Document, twins: string -> TwinFields)
    requires PinsOk(pins) && CatalogOk(pins, plants) && DistinctNodes(document)
    requires PinOf(pins, tenant).Some? && OwnedBy(document, PinOf(pins, tenant).value)
    requires Check(plants, pins, tenant, PinOf(pins, tenant).value, plant, document, twins).None?
    ensures CatalogOk(pins, Put(plants, tenant, plant, document.(ownerDid := PinOf(pins, tenant).value)))
  {
    hide CatalogOk, PinsOk, Gather, Scopes, Checked, Put;
    var owner := PinOf(pins, tenant).value;
    var owned := Gather(plants, Scopes(pins, owner));
    var next := document.(ownerDid := owner);
    var p := Stored(tenant, plant, next);
    CheckPassesExactly(plants, pins, tenant, owner, plant, document, twins);
    forall i, j | 0 <= i < j < |document.bindings|
      ensures document.bindings[i].twin != document.bindings[j].twin
    {
      CheckedNew(owned, tenant, owner, plant, document, twins, i, j);
    }
    PinnedMembers(pins, owner);
    assert PlantOk(pins, p);
    forall q | q in plants && !(q.scope == tenant && q.plant == plant)
      ensures PairOk(pins, p, q) && PairOk(pins, q, p)
    {
      if PinOf(pins, q.scope) == Some(owner) {
        forall b, c | b in next.bindings && c in q.document.bindings
          ensures b.twin != c.twin
        {
          var i :| 0 <= i < |document.bindings| && document.bindings[i] == b;
          CheckedFree(pins, plants, owned, tenant, owner, plant, document, twins, i, q, c);
        }
      }
    }
    PutKeeps(pins, plants, tenant, plant, next);
  }

  lemma CheckedNew(owned: Plants, tenant: string, owner: string, plant: string, document: Document,
                   twins: string -> TwinFields, i: nat, j: nat)
    requires i < j < |document.bindings| && Checked(owned, tenant, owner, plant, document, twins, j)
    ensures document.bindings[i].twin != document.bindings[j].twin
  {}

  /** A document written under a personal scope leaves every tenant pair as it was. */
  lemma PersonalPutKeeps(pins: Pins, plants: Plants, owner: string, document: Document)
    requires PinsOk(pins) && CatalogOk(pins, plants) && DistinctNodes(document) && document.ownerDid == owner
    requires forall b :: b in document.bindings ==> b.node == LocalNode(b.twin)
    ensures CatalogOk(pins, Put(plants, PersonalScope(owner), PersonalPlant(owner), document))
  {
    hide CatalogOk, PinsOk, Put, LocalNode, PersonalPlant;
    PinnedMembers(pins, owner);
    var scope := PersonalScope(owner);
    assert scope[|"personal:"|..] == owner;
    assert "personal:" <= scope;
    PutKeeps(pins, plants, scope, PersonalPlant(owner), document);
  }

  lemma AddTwinFits(document: Document, twin: string)
    requires DistinctNodes(document)
    requires forall b :: b in document.bindings ==> b.node == LocalNode(b.twin)
    ensures var next := AddTwin(document, twin);
            DistinctNodes(next) && next.ownerDid == document.ownerDid
            && forall b :: b in next.bindings ==> b.node == LocalNode(b.twin)
  {
    var node := LocalNode(twin);
    WithoutNodeMembers(document.bindings, node);
    WithoutNodeDistinct(document.bindings, node);
    var kept := WithoutNode(document.bindings, node);
    forall i | 0 <= i < |kept|
      ensures kept[i].node != node
    {
      assert kept[i] in kept;
    }
  }

  /** What the stored personal plant looks like. */
  lemma PersonalFound(pins: Pins, plants: Plants, owner: string)
    requires CatalogOk(pins, plants)
    ensures var r := FindPlant(plants, PersonalScope(owner), PersonalPlant(owner));
            r.Some? ==> DistinctNodes(r.value.document)
                        && forall b :: b in r.value.document.bindings ==> b.node == LocalNode(b.twin)
  {
    hide LocalNode, PersonalPlant, DistinctNodes;
    Found(plants, PersonalScope(owner), PersonalPlant(owner));
    var r := FindPlant(plants, PersonalScope(owner), PersonalPlant(owner));
    if r.Some? {
      assert PlantOk(pins, r.value);
      assert "personal:" <= r.value.scope;
    }
  }

  lemma StepKeeps(pins: Pins, plants: Plants, w: Write)
    requires PinsOk(pins) && CatalogOk(pins, plants)
    ensures CatalogOk(pins, Step(pins, plants, w))
  {
    hide CatalogOk, PinsOk, Check, Put, FindPlant, AddTwin, PersonalPlant, PersonalScope, LocalNode;
    match w
    case TenantPut(tenant, plant, document, twins) =>
      var owner := PinOf(pins, tenant);
      if owner.Some? && OwnedBy(document, owner.value) && DistinctNodes(document)
         && Check(plants, pins, tenant, owner.value, plant, document, twins).None? {
        TenantPutKeeps(pins, plants, tenant, plant, document, twins);
      }
    case OpenPersonal(owner) =>
      PersonalPutKeeps(pins, plants, owner, EmptyPersonal(owner));
    case Migrate(owner, twin) =>
      PersonalFound(pins, plants, owner);
      var found := FindPlant(plants, PersonalScope(owner), PersonalPlant(owner));
      var document := if found.Some? then found.value.document else EmptyPersonal(owner);
      AddTwinFits(document, twin);
      if document.ownerDid == owner {
        PersonalPutKeeps(pins, plants, owner, AddTwin(document, twin));
      }
    case OtherPut(scope, plant, document) =>
      if PinOf(pins, scope).None? && !IsPersonal(scope) && DistinctNodes(document) {
        PutKeeps(pins, plants, scope, plant, document);
      }
  }

  /** Every catalog a run can reach binds each Twin at most once among the tenant plants of one owner. */
  lemma {:induction false} EveryRunOk(pins: Pins, writes: seq<Write>)
    requires PinsOk(pins)
    ensures CatalogOk(pins, Run(pins, writes))
  {
    hide CatalogOk, PinsOk, Step;
    if writes == [] {
      assert CatalogOk(pins, []) by { EmptyOk(pins); }
    } else {
      EveryRunOk(pins, writes[..|writes| - 1]);
      StepKeeps(pins, Run(pins, writes[..|writes| - 1]), writes[|writes| - 1]);
    }
  }

  /** In every reachable catalog, two bindings of one Twin among one owner's tenant plants are the same binding. */
  lemma BoundOnce(pins: Pins, writes: seq<Write>, p: Stored, q: Stored, b: Binding, c: Binding)
    requires PinsOk(pins)
    requires p in Run(pins, writes) && b in p.document.bindings
    requires q in Run(pins, writes) && c in q.document.bindings
    requires PinOf(pins, p.scope).Some? && PinOf(pins, p.scope) == PinOf(pins, q.scope) && b.twin == c.twin
    ensures p == q && b == c
  {
    hide Run, PinsOk, PinOf, DistinctNodes;
    EveryRunOk(pins, writes);
    assert !SameKey(p, q) ==> PairOk(pins, p, q);
    assert PlantOk(pins, p);
  }

  lemma EmptyOk(pins: Pins)
    ensures CatalogOk(pins, [])
  {}

  /* ---- Looking a Twin up ---- */

  /** The plants that pass `keep`, in order. */
  ghost function Select(plants: Plants, keep: Stored -> bool): Plants {
    if plants == [] then []
    else
      var last := plants[|plants| - 1];
      Select(plants[..|plants| - 1], keep) + if keep(last) then [last] else []
  }

  ghost function Places(plants: Plants, node: Stored -> Option<string>): seq<Membership> {
    seq(|plants|, i requires 0 <= i < |plants| => Membership(plants[i].plant, TenantOf(plants[i].scope), node(plants[i])))
  }

  ghost predicate OneKey(plants: Plants, keep: Stored -> bool) {
    forall p, q :: p in plants && q in plants && keep(p) && keep(q) ==> SameKey(p, q)
  }

  lemma {:induction false} SelectOne(plants: Plants, keep: Stored -> bool)
    requires KeysDiffer(plants) && OneKey(plants, keep)
    ensures forall p :: p in plants && keep(p) ==> Select(plants, keep) == [p]
    ensures (forall p :: p in plants ==> !keep(p)) ==> Select(plants, keep) == []
  {
    hide SameKey;
    if plants != [] {
      var rest := plants[..|plants| - 1];
      var last := plants[|plants| - 1];
      assert plants == rest + [last];
      SelectOne(rest, keep);
      forall p | p in rest && keep(p)
        ensures !keep(last)
      {
        var i :| 0 <= i < |rest| && rest[i] == p;
        assert !SameKey(plants[i], plants[|plants| - 1]);
      }
    }
  }

  ghost function NodeOf(twin: string): Stored -> Option<string> {
    (p: Stored) => var nodes := NodesOf(p.document.bindings, twin); if nodes == [] then None else Some(nodes[0])
  }

  ghost function Naming(twin: string): Stored -> bool {
    (p: Stored) => NodesOf(p.document.bindings, twin) != []
  }

  ghost function NamingTenant(twin: string): Stored -> bool {
    (p: Stored) => NodesOf(p.document.bindings, twin) != [] && !IsPersonal(p.scope)
  }

  ghost function OriginOnly(twin: string, origin: Origin): Stored -> bool {
    (p: Stored) => NodesOf(p.document.bindings, twin) == [] && IsOrigin(p, origin)
  }

  lemma {:induction false} MatchesSelect(owned: Plants, twin: string)
    ensures Matches(owned, twin) == Places(Select(owned, Naming(twin)), NodeOf(twin))
    ensures WithTenant(Matches(owned, twin)) == Places(Select(owned, NamingTenant(twin)), NodeOf(twin))
  {
    hide NodesOf, IsPersonal;
    if owned != [] {
      var rest := owned[..|owned| - 1];
      var p := owned[|owned| - 1];
      MatchesSelect(rest, twin);
      PlacesStep(Select(rest, Naming(twin)), p, NodeOf(twin));
      PlacesStep(Select(rest, NamingTenant(twin)), p, NodeOf(twin));
      WithTenantStep(Matches(rest, twin), Membership(p.plant, TenantOf(p.scope), NodeOf(twin)(p)));
      assert Matches(rest, twin) + [] == Matches(rest, twin);
    }
  }

  lemma PlacesStep(plants: Plants, p: Stored, node: Stored -> Option<string>)
    ensures Places(plants + [p], node) == Places(plants, node) + [Membership(p.plant, TenantOf(p.scope), node(p))]
    ensures plants + [] == plants
  {}

  lemma WithTenantStep(matches: seq<Membership>, m: Membership)
    ensures WithTenant(matches + [m]) == WithTenant(matches) + if m.tenant.Some? then [m] else []
    ensures WithTenant(matches) + [] == WithTenant(matches)
  {}

  lemma {:induction false} OriginsSelect(owned: Plants, twin: string, origin: Origin)
    ensures |Origins(owned, twin, origin)| == |Select(owned, OriginOnly(twin, origin))|
    ensures forall i :: 0 <= i < |Origins(owned, twin, origin)| ==>
                          var p := Select(owned, OriginOnly(twin, origin))[i];
                          Origins(owned, twin, origin)[i] == Membership(p.plant, TenantOf(p.scope), None)
  {
    hide NodesOf, IsOrigin;
    if owned != [] {
      OriginsSelect(owned[..|owned| - 1], twin, origin);
    }
  }

  lemma {:induction false} NodesOfMembers(bindings: seq<Binding>, twin: string)
    ensures forall n :: n in NodesOf(bindings, twin) <==> Binding(n, twin) in bindings
  {
    if bindings != [] {
      NodesOfMembers(bindings[1..], twin);
      assert bindings == [bindings[0]] + bindings[1..];
      assert Binding(bindings[0].node, bindings[0].twin) == bindings[0];
    }
  }

  /** Two bindings of the list name the Twin. */
  ghost predicate Twice(bindings: seq<Binding>, twin: string) {
    exists i, j :: 0 <= i < j < |bindings| && bindings[i].twin == twin && bindings[j].twin == twin
  }

  lemma {:induction false} NodesOfOnce(bindings: seq<Binding>, twin: string)
    requires !Twice(bindings, twin)
    ensures |NodesOf(bindings, twin)| <= 1
  {
    if bindings != [] {
      var rest := bindings[1..];
      forall i, j | 0 <= i < j < |rest|
        ensures !(rest[i].twin == twin && rest[j].twin == twin)
      {
        assert !(bindings[i + 1].twin == twin && bindings[j + 1].twin == twin);
      }
      NodesOfOnce(rest, twin);
      if bindings[0].twin == twin {
        forall j | 0 <= j < |rest|
          ensures rest[j].twin != twin
        {
          assert !(bindings[0].twin == twin && bindings[j + 1].twin == twin);
        }
        NodesOfNone(rest, twin);
      }
    }
  }

  lemma {:induction false} NodesOfNone(bindings: seq<Binding>, twin: string)
    requires forall i :: 0 <= i < |bindings| ==> bindings[i].twin != twin
    ensures NodesOf(bindings, twin) == []
  {
    if bindings != [] {
      NodesOfNone(bindings[1..], twin);
    }
  }

  /** In a well-formed catalog no plant of the owner names a Twin at two nodes. */
  lemma NamedOnce(pins: Pins, plants: Plants, p: Stored, owner: string, twin: string)
    requires CatalogOk(pins, plants) && p in plants
    requires PinOf(pins, p.scope) == Some(owner) || p.scope == PersonalScope(owner)
    ensures |NodesOf(p.document.bindings, twin)| <= 1
  {
    hide LocalNode, PersonalPlant, KeysDiffer, PairOk, NodesOf;
    assert PlantOk(pins, p);
    assert p.scope == PersonalScope(owner) ==> "personal:" <= p.scope;
    NodesOfOnce(p.document.bindings, twin);
  }

  predicate ScopesDiffer(scopes: seq<string>) {
    forall i, j :: 0 <= i < j < |scopes| ==> scopes[i] != scopes[j]
  }

  lemma {:induction false} InScopeDistinct(plants: Plants, scope: string)
    requires KeysDiffer(plants)
    ensures KeysDiffer(InScope(plants, scope))
  {
    if plants != [] {
      var rest := plants[1..];
      InScopeDistinct(rest, scope);
      InScopeMembers(rest, scope);
      var kept := InScope(rest, scope);
      forall j | 0 <= j < |kept|
        ensures !SameKey(plants[0], kept[j])
      {
        assert kept[j] in rest;
      }
      assert InScope(plants, scope) == kept || InScope(plants, scope) == [plants[0]] + kept;
    }
  }

  lemma {:induction false} GatherDistinct(plants: Plants, scopes: seq<string>)
    requires KeysDiffer(plants) && ScopesDiffer(scopes)
    ensures KeysDiffer(Gather(plants, scopes))
  {
    if scopes != [] {
      var last := |scopes| - 1;
      GatherDistinct(plants, scopes[..last]);
      InScopeDistinct(plants, scopes[last]);
      GatherMembers(plants, scopes[..last]);
      InScopeMembers(plants, scopes[last]);
      var before := Gather(plants, scopes[..last]);
      var added := InScope(plants, scopes[last]);
      forall i, j | 0 <= i < |before| && 0 <= j < |added|
        ensures !SameKey(before[i], added[j])
      {
        assert before[i] in before && added[j] in added;
      }
    }
  }

  lemma {:induction false} PinnedDistinct(pins: Pins, owner: string)
    requires PinsOk(pins)
    ensures ScopesDiffer(PinnedScopes(pins, owner))
  {
    if pins != [] {
      var rest := pins[1..];
      assert PinsOk(rest) by {
        forall i | 0 <= i < |rest|
          ensures rest[i] == pins[i + 1]
        {}
      }
      PinnedDistinct(rest, owner);
      PinnedMembers(rest, owner);
      var kept := PinnedScopes(rest, owner);
      forall j | 0 <= j < |kept|
        ensures kept[j] != pins[0].0
      {
        assert kept[j] in kept;
        assert HasPin(rest, kept[j]);
        var i :| 0 <= i < |rest| && rest[i].0 == kept[j];
        assert pins[0].0 != pins[i + 1].0;
      }
    }
  }

  lemma OwnedDistinct(plants: Plants, pins: Pins, owner: string)
    requires PinsOk(pins) && KeysDiffer(plants)
    ensures KeysDiffer(Gather(plants, Scopes(pins, owner)))
  {
    PinnedDistinct(pins, owner);
    PinnedMembers(pins, owner);
    var scopes := Scopes(pins, owner);
    assert "personal:" <= PersonalScope(owner);
    forall i | 0 <= i < |scopes| - 1
      ensures scopes[i] != PersonalScope(owner)
    {
      assert scopes[i] in PinnedScopes(pins, owner);
    }
    GatherDistinct(plants, scopes);
  }

  /** Among one owner's plants, each way of being found picks plants of a single key. */
  lemma FoundOnce(pins: Pins, plants: Plants, owner: string, twin: string, origin: Origin)
    requires PinsOk(pins) && CatalogOk(pins, plants)
    ensures var owned := Gather(plants, Scopes(pins, owner));
            && OneKey(owned, NamingTenant(twin))
            && ((forall p :: p in owned ==> !NamingTenant(twin)(p)) ==> OneKey(owned, Naming(twin)))
            && OneKey(owned, OriginOnly(twin, origin))
  {
    hide PersonalPlant, LocalNode, Gather, Scopes, PinsOk, NodesOf, KeysDiffer, DistinctNodes, UniqueTwins, OwnedBy;
    OwnedMembers(plants, pins, owner);
    PinnedMembers(pins, owner);
    var owned := Gather(plants, Scopes(pins, owner));
    assert "personal:" <= PersonalScope(owner);
    forall p | p in owned && IsPersonal(p.scope)
      ensures p.scope == PersonalScope(owner) && p.plant == PersonalPlant(owner)
    {
      assert PlantOk(pins, p);
    }
    forall p, q | p in owned && q in owned && NamingTenant(twin)(p) && NamingTenant(twin)(q)
      ensures SameKey(p, q)
    {
      NodesOfMembers(p.document.bindings, twin);
      NodesOfMembers(q.document.bindings, twin);
      var b := Binding(NodesOf(p.document.bindings, twin)[0], twin);
      var c := Binding(NodesOf(q.document.bindings, twin)[0], twin);
      assert b in p.document.bindings && c in q.document.bindings;
      assert !SameKey(p, q) ==> PairOk(pins, p, q);
    }
  }

  /** Nobody of the owner's tenants, respectively nobody at all, binds the Twin. */
  ghost predicate NoTenantBinds(owned: Plants, twin: string) {
    forall p, n :: p in owned && !IsPersonal(p.scope) ==> Binding(n, twin) !in p.document.bindings
  }

  ghost predicate NobodyBinds(owned: Plants, twin: string) {
    forall p, n :: p in owned ==> Binding(n, twin) !in p.document.bindings
  }

  /** What a well-formed catalog makes of one owner's plants. */
  ghost predicate Fit(owned: Plants, twin: string, origin: Origin) {
    && KeysDiffer(owned)
    && !Ambiguous(owned, twin)
    && OneKey(owned, NamingTenant(twin))
    && ((forall p :: p in owned ==> !NamingTenant(twin)(p)) ==> OneKey(owned, Naming(twin)))
    && OneKey(owned, OriginOnly(twin, origin))
  }

  lemma NotNaming(owned: Plants, twin: string)
    ensures NoTenantBinds(owned, twin) ==> forall p :: p in owned ==> !NamingTenant(twin)(p)
    ensures NobodyBinds(owned, twin) ==> forall p :: p in owned ==> !Naming(twin)(p)
  {
    hide NodesOf, IsPersonal;
    forall p | p in owned && NodesOf(p.document.bindings, twin) != []
      ensures Binding(NodesOf(p.document.bindings, twin)[0], twin) in p.document.bindings
    {
      NodesOfMembers(p.document.bindings, twin);
      assert NodesOf(p.document.bindings, twin)[0] in NodesOf(p.document.bindings, twin);
    }
  }

  /** A tenant plant that binds the Twin, or the personal one when no tenant plant does, is the only current one. */
  lemma CurrentBound(owned: Plants, twin: string, origin: Origin, p: Stored, n: string)
    requires Fit(owned, twin, origin) && p in owned && Binding(n, twin) in p.document.bindings
    requires IsPersonal(p.scope) ==> NoTenantBinds(owned, twin)
    ensures Current(owned, twin, origin) == [Membership(p.plant, TenantOf(p.scope), Some(n))]
  {
    hide NodesOf, IsPersonal, Select, OneKey, Matches, WithTenant, Origins;
    NodesOfMembers(p.document.bindings, twin);
    var nodes := NodesOf(p.document.bindings, twin);
    assert n in nodes && |nodes| <= 1;
    assert nodes == [n];
    MatchesSelect(owned, twin);
    SelectOne(owned, NamingTenant(twin));
    if IsPersonal(p.scope) {
      NotNaming(owned, twin);
      SelectOne(owned, Naming(twin));
      assert Select(owned, Naming(twin)) == [p];
    } else {
      assert Select(owned, NamingTenant(twin)) == [p];
    }
  }

  /** When nobody binds the Twin, only the plant recorded as its origin is current. */
  lemma CurrentOrigin(owned: Plants, twin: string, origin: Origin)
    requires Fit(owned, twin, origin) && NobodyBinds(owned, twin)
    ensures forall p :: p in owned && IsOrigin(p, origin) ==>
              Current(owned, twin, origin) == [Membership(p.plant, TenantOf(p.scope), None)]
    ensures (forall p :: p in owned ==> !IsOrigin(p, origin)) ==> Current(owned, twin, origin) == []
  {
    hide NodesOf, IsPersonal, Select, OneKey, Matches, WithTenant, Origins, IsOrigin;
    NotNaming(owned, twin);
    MatchesSelect(owned, twin);
    OriginsSelect(owned, twin, origin);
    SelectOne(owned, NamingTenant(twin));
    SelectOne(owned, Naming(twin));
    SelectOne(owned, OriginOnly(twin, origin));
  }

  /**
   In every reachable catalog the lookup of one's own Twin never reports a conflict: it answers with the tenant plant
   that binds the Twin, else with the personal plant that does, else with the plant recorded as its origin, else with none.
   */
  lemma LocateAnswers(pins: Pins, writes: seq<Write>, accounting: Accounting, twin: string, fields: TwinFields)
    requires PinsOk(pins) && fields.ownerDid == accounting.ownerDid && fields.subscription == accounting.subscription
    ensures var plants := Run(pins, writes);
            var owned := Gather(plants, Scopes(pins, accounting.ownerDid));
            var r := Locate(plants, pins, accounting, twin, fields);
            && r.Ok?
            && (forall p, n :: p in owned && Binding(n, twin) in p.document.bindings && (IsPersonal(p.scope) ==> NoTenantBinds(owned, twin))
                  ==> r.value == Some(Membership(p.plant, TenantOf(p.scope), Some(n))))
            && (NobodyBinds(owned, twin) ==>
                  && (forall p :: p in owned && IsOrigin(p, OriginOf(fields))
                        ==> r.value == Some(Membership(p.plant, TenantOf(p.scope), None)))
                  && ((forall p :: p in owned ==> !IsOrigin(p, OriginOf(fields))) ==> r.value == None))
  {
    hide Run, CatalogOk, PinsOk, Gather, Scopes, IsOrigin, Current, Ambiguous, OneKey, IsPersonal, Fit, NoTenantBinds, NobodyBinds;
    var plants := Run(pins, writes);
    var origin := OriginOf(fields);
    var owned := Gather(plants, Scopes(pins, accounting.ownerDid));
    EveryRunOk(pins, writes);
    OwnedFit(pins, plants, accounting.ownerDid, twin, origin);
    forall p, n | p in owned && Binding(n, twin) in p.document.bindings && (IsPersonal(p.scope) ==> NoTenantBinds(owned, twin))
      ensures Current(owned, twin, origin) == [Membership(p.plant, TenantOf(p.scope), Some(n))]
    {
      CurrentBound(owned, twin, origin, p, n);
    }
    if NobodyBinds(owned, twin) {
      CurrentOrigin(owned, twin, origin);
    }
    CurrentShort(owned, twin, origin);
  }

  /** There is never more than one current plant. */
  lemma CurrentShort(owned: Plants, twin: string, origin: Origin)
    requires Fit(owned, twin, origin)
    ensures |Current(owned, twin, origin)| <= 1 && !Ambiguous(owned, twin)
  {
    hide NodesOf, IsPersonal, Select, OneKey, Matches, WithTenant, Origins, IsOrigin;
    MatchesSelect(owned, twin);
    OriginsSelect(owned, twin, origin);
    SelectShort(owned, NamingTenant(twin));
    SelectShort(owned, OriginOnly(twin, origin));
    if forall p :: p in owned ==> !NamingTenant(twin)(p) {
      SelectShort(owned, Naming(twin));
    } else {
      SelectOne(owned, NamingTenant(twin));
    }
  }

  lemma SelectShort(plants: Plants, keep: Stored -> bool)
    requires KeysDiffer(plants) && OneKey(plants, keep)
    ensures |Select(plants, keep)| <= 1
  {
    hide Select, OneKey;
    SelectOne(plants, keep);
    if p :| p in plants && keep(p) {
      assert Select(plants, keep) == [p];
    }
  }

  /** The owner's plants belong to the owner and leave no lookup ambiguous. */
  lemma OwnedFit(pins: Pins, plants: Plants, owner: string, twin: string, origin: Origin)
    requires PinsOk(pins) && CatalogOk(pins, plants)
    ensures var owned := Gather(plants, Scopes(pins, owner));
            Fit(owned, twin, origin) && forall p :: p in owned ==> OwnedBy(p.document, owner)
  {
    hide PersonalPlant, LocalNode, Gather, Scopes, PinsOk, NodesOf, KeysDiffer, DistinctNodes, UniqueTwins, OneKey;
    OwnedDistinct(plants, pins, owner);
    OwnedMembers(plants, pins, owner);
    FoundOnce(pins, plants, owner, twin, origin);
    assert "personal:" <= PersonalScope(owner);
    forall p | p in Gather(plants, Scopes(pins, owner))
      ensures OwnedBy(p.document, owner) && |NodesOf(p.document.bindings, twin)| <= 1
    {
      assert PlantOk(pins, p);
      NamedOnce(pins, plants, p, owner, twin);
    }
  }
}
