/**
 Which plant a Twin belongs to: the binding check that runs under the catalog lock, the lookup of a Twin's
 current plant, and the rule that keeps the lookup unambiguous in every reachable catalog.
 */
module PlantBindings {
  import opened Wrappers

  datatype Node = Node(id: string, isDocument: bool, children: seq<Node>)

  /** One entry of a document's twinIds object: a tree node and the Twin bound to it. */
  datatype Binding = Binding(node: string, twin: string)

  /** An empty ownerDid stands for a document that names no owner. */
  datatype Document = Document(ownerDid: string, tree: Option<Node>, bindings: seq<Binding>)

  datatype Stored = Stored(scope: string, plant: string, document: Document)

  /** The stored plants in catalog order, and the supervisor pinned to each tenant scope. */
  type Plants = seq<Stored>
  type Pins = seq<(string, string)>

  /** Origin recorded in a Twin's immutable metadata. */
  datatype Origin = Origin(tenant: Option<string>, plant: Option<string>)

  /** What the chain says about a Twin; its origin is None when the metadata cannot be parsed. */
  datatype TwinFields = TwinFields(ownerDid: string, subscription: string, origin: Option<Origin>)

  datatype Accounting = Accounting(ownerDid: string, subscription: string)

  datatype BindingError = Conflict | OwnerMismatch | AlreadyAssigned | PlantOwnerMismatch

  /* ---- Identifiers ---- */

  predicate HexDigit(c: char) {
    '0' <= c <= '9' || 'a' <= c <= 'f' || 'A' <= c <= 'F'
  }

  /** The case-insensitive pattern of a Twin id. */
  predicate ValidTwinId(id: string) {
    |id| == 66 && id[0] == '0' && (id[1] == 'x' || id[1] == 'X') && forall i :: 2 <= i < 66 ==> HexDigit(id[i])
  }

  predicate IsPersonal(scope: string) {
    "personal:" <= scope
  }

  function PersonalScope(owner: string): string {
    "personal:" + owner
  }

  /** The one personal plant of an owner; the hash is kept as what it hashes. */
  function PersonalPlant(owner: string): string {
    "personal-" + owner
  }

  function LocalNode(twin: string): string {
    "twin-" + if "0x" <= twin then twin[2..] else twin
  }

  /* ---- Reading the owner's plants ---- */

  function InScope(plants: Plants, scope: string): Plants {
    if plants == [] then []
    else (if plants[0].scope == scope then [plants[0]] else []) + InScope(plants[1..], scope)
  }

  function PinnedScopes(pins: Pins, owner: string): seq<string> {
    if pins == [] then []
    else (if pins[0].1 == owner then [pins[0].0] else []) + PinnedScopes(pins[1..], owner)
  }

  function Scopes(pins: Pins, owner: string): seq<string> {
    PinnedScopes(pins, owner) + [PersonalScope(owner)]
  }

  /** All plants of the scopes, in order. */
  function Gather(plants: Plants, scopes: seq<string>): Plants {
    if scopes == [] then [] else Gather(plants, scopes[..|scopes| - 1]) + InScope(plants, scopes[|scopes| - 1])
  }

  predicate OwnedBy(document: Document, owner: string) {
    document.ownerDid == "" || document.ownerDid == owner
  }

  method OwnerPlants(plants: Plants, pins: Pins, owner: string) returns (r: Result<Plants, BindingError>)
    ensures r == if forall p :: p in Gather(plants, Scopes(pins, owner)) ==> OwnedBy(p.document, owner)
                 then Ok(Gather(plants, Scopes(pins, owner))) else Err(PlantOwnerMismatch)
  {
    hide Scopes, InScope, OwnedBy;
    var scopes := Scopes(pins, owner);
    var result: Plants := [];
    for i := 0 to |scopes|
      invariant result == Gather(plants, scopes[..i])
      invariant forall p :: p in result ==> OwnedBy(p.document, owner)
    {
      var listed := InScope(plants, scopes[i]);
      assert scopes[..i + 1][..i] == scopes[..i];
      for j := 0 to |listed|
        invariant result == Gather(plants, scopes[..i]) + listed[..j]
        invariant forall p :: p in result ==> OwnedBy(p.document, owner)
      {
        if !OwnedBy(listed[j].document, owner) {
          GatherHas(plants, scopes, i, listed[j]);
          return Err(PlantOwnerMismatch);
        }
        result := result + [listed[j]];
      }
      assert listed[..|listed|] == listed;
    }
    assert scopes[..|scopes|] == scopes;
    r := Ok(result);
  }

  lemma {:induction false} GatherHas(plants: Plants, scopes: seq<string>, i: nat, p: Stored)
    requires i < |scopes| && p in InScope(plants, scopes[i])
    ensures p in Gather(plants, scopes)
  {
    if i < |scopes| - 1 {
      GatherHas(plants, scopes[..|scopes| - 1], i, p);
    }
  }

  /* ---- The binding check ---- */

  function NodeIds(n: Node): set<string>
    decreases n, 1
  {
    if n.isDocument then {} else {n.id} + ChildIds(n.children)
  }

  function ChildIds(children: seq<Node>): set<string>
    decreases children, 0
  {
    if children == [] then {} else NodeIds(children[0]) + ChildIds(children[1..])
  }

  function TreeIds(document: Document): set<string> {
    if document.tree.Some? then NodeIds(document.tree.value) else {}
  }

  function Lookup(bindings: seq<Binding>, node: string): Option<string> {
    if bindings == [] then None
    else if bindings[0].node == node then Some(bindings[0].twin)
    else Lookup(bindings[1..], node)
  }

  predicate Binds(document: Document, twin: string) {
    exists b :: b in document.bindings && b.twin == twin
  }

  function FindPlant(plants: Plants, scope: string, plant: string): Option<Stored> {
    if plants == [] then None
    else if plants[0].scope == scope && plants[0].plant == plant then Some(plants[0])
    else FindPlant(plants[1..], scope, plant)
  }

  /** Some other non-personal plant already binds the Twin. */
  predicate TakenElsewhere(owned: Plants, tenant: string, plant: string, twin: string) {
    exists p :: p in owned && !IsPersonal(p.scope) && !(p.plant == plant && p.scope == tenant) && Binds(p.document, twin)
  }

  predicate Industrial(origin: Origin) {
    origin.tenant.Some? && origin.tenant.value != ""
  }

  /** What the check asks of a binding that was not there before. */
  function NewBindingError(owned: Plants, tenant: string, owner: string, plant: string, twin: string, fields: TwinFields): Option<BindingError> {
    if fields.ownerDid != owner then Some(OwnerMismatch)
    else if fields.origin.None? then Some(Conflict)
    else if Industrial(fields.origin.value) && fields.origin.value != Origin(Some(tenant), Some(plant)) then Some(AlreadyAssigned)
    else if TakenElsewhere(owned, tenant, plant, twin) then Some(AlreadyAssigned)
    else None
  }

  /** The first error among the bindings from position `from` on, the ones before being already seen. */
  function FirstError(owned: Plants, tenant: string, owner: string, plant: string, document: Document,
                      twins: string -> TwinFields, from: nat): Option<BindingError>
    requires from <= |document.bindings|
    decreases |document.bindings| - from
  {
    if from == |document.bindings| then None
    else
      var b := document.bindings[from];
      var previous := FindPlant(owned, tenant, plant);
      var earlier := if previous.Some? then previous.value.document.bindings else [];
      if !ValidTwinId(b.twin) || b.node !in TreeIds(document) || exists i :: 0 <= i < from && document.bindings[i].twin == b.twin
      then Some(Conflict)
      else
        var error := if Lookup(earlier, b.node) == Some(b.twin) then None
                     else NewBindingError(owned, tenant, owner, plant, b.twin, twins(b.twin));
        if error.Some? then error
        else FirstError(owned, tenant, owner, plant, document, twins, from + 1)
  }

  function Check(plants: Plants, pins: Pins, tenant: string, owner: string, plant: string, document: Document,
                 twins: string -> TwinFields): Option<BindingError> {
    var owned := Gather(plants, Scopes(pins, owner));
    if exists p :: p in owned && !OwnedBy(p.document, owner) then Some(PlantOwnerMismatch)
    else FirstError(owned, tenant, owner, plant, document, twins, 0)
  }

  method ValidatePlantBindings(plants: Plants, pins: Pins, tenant: string, owner: string, plant: string, document: Document,
                               twins: string -> TwinFields) returns (error: Option<BindingError>)
    ensures error == Check(plants, pins, tenant, owner, plant, document, twins)
  {
    hide Gather, Scopes, OwnedBy, ValidTwinId, TreeIds, Lookup, FindPlant, IsPersonal, Industrial;
    var owned := OwnerPlants(plants, pins, owner);
    if owned.Err? {
      return Some(owned.error);
    }
    var previous := FindPlant(owned.value, tenant, plant);
    var earlier := if previous.Some? then previous.value.document.bindings else [];
    var seen: set<string> := {};
    var nodes := TreeIds(document);
    for i := 0 to |document.bindings|
      invariant forall t :: t in seen <==> exists k :: 0 <= k < i && document.bindings[k].twin == t
      invariant FirstError(owned.value, tenant, owner, plant, document, twins, 0)
                == FirstError(owned.value, tenant, owner, plant, document, twins, i)
    {
      var b := document.bindings[i];
      if !ValidTwinId(b.twin) || b.node !in nodes || b.twin in seen {
        return Some(Conflict);
      }
      seen := seen + {b.twin};
      if Lookup(earlier, b.node) != Some(b.twin) {
        var fields := twins(b.twin);
        if fields.ownerDid != owner {
          return Some(OwnerMismatch);
        }
        if fields.origin.None? {
          return Some(Conflict);
        }
        if Industrial(fields.origin.value)
           && (fields.origin.value.tenant != Some(tenant) || fields.origin.value.plant != Some(plant)) {
          return Some(AlreadyAssigned);
        }
        for j := 0 to |owned.value|
          invariant !TakenElsewhere(owned.value[..j], tenant, plant, b.twin)
        {
          var p := owned.value[j];
          assert owned.value[..j + 1] == owned.value[..j] + [p];
          if !IsPersonal(p.scope) && !(p.plant == plant && p.scope == tenant) {
            if exists c :: c in p.document.bindings && c.twin == b.twin {
              assert p in owned.value;
              return Some(AlreadyAssigned);
            }
          }
        }
        assert owned.value[..|owned.value|] == owned.value;
      }
    }
    error := None;
  }

  /* ---- Where a Twin currently lives ---- */

  /** A plant that holds the Twin; personal plants have no tenant. Origins carry no bound node. */
  datatype Membership = Membership(plant: string, tenant: Option<string>, node: Option<string>)

  function TenantOf(scope: string): Option<string> {
    if IsPersonal(scope) then None else Some(scope)
  }

  function NodesOf(bindings: seq<Binding>, twin: string): seq<string> {
    if bindings == [] then []
    else (if bindings[0].twin == twin then [bindings[0].node] else []) + NodesOf(bindings[1..], twin)
  }

  predicate IsOrigin(p: Stored, origin: Origin) {
    origin.plant == Some(p.plant) && origin.tenant == TenantOf(p.scope)
  }

  /** The plants that bind the Twin, each with the first node that names it. */
  function Matches(owned: Plants, twin: string): seq<Membership> {
    if owned == [] then []
    else
      var p := owned[|owned| - 1];
      var nodes := NodesOf(p.document.bindings, twin);
      Matches(owned[..|owned| - 1], twin)
      + if nodes != [] then [Membership(p.plant, TenantOf(p.scope), Some(nodes[0]))] else []
  }

  /** The plants that do not bind the Twin but are named by its immutable metadata. */
  function Origins(owned: Plants, twin: string, origin: Origin): seq<Membership> {
    if owned == [] then []
    else
      var p := owned[|owned| - 1];
      Origins(owned[..|owned| - 1], twin, origin)
      + if NodesOf(p.document.bindings, twin) == [] && IsOrigin(p, origin)
        then [Membership(p.plant, TenantOf(p.scope), None)] else []
  }

  function WithTenant(matches: seq<Membership>): seq<Membership> {
    if matches == [] then []
    else
      var last := matches[|matches| - 1];
      WithTenant(matches[..|matches| - 1]) + if last.tenant.Some? then [last] else []
  }

  predicate Ambiguous(owned: Plants, twin: string) {
    exists p :: p in owned && |NodesOf(p.document.bindings, twin)| > 1
  }

  function OriginOf(fields: TwinFields): Origin {
    if fields.origin.Some? then fields.origin.value else Origin(None, None)
  }

  /** Operational bindings supersede the personal container, and any binding supersedes the recorded origin. */
  function Current(owned: Plants, twin: string, origin: Origin): seq<Membership> {
    var matches := Matches(owned, twin);
    if WithTenant(matches) != [] then WithTenant(matches)
    else if matches != [] then matches
    else Origins(owned, twin, origin)
  }

  function Locate(plants: Plants, pins: Pins, accounting: Accounting, twin: string, fields: TwinFields)
    : Result<Option<Membership>, BindingError>
  {
    var owned := Gather(plants, Scopes(pins, accounting.ownerDid));
    if fields.ownerDid != accounting.ownerDid || fields.subscription != accounting.subscription then Err(OwnerMismatch)
    else if exists p :: p in owned && !OwnedBy(p.document, accounting.ownerDid) then Err(PlantOwnerMismatch)
    else if Ambiguous(owned, twin) then Err(Conflict)
    else
      var current := Current(owned, twin, OriginOf(fields));
      if |current| > 1 then Err(Conflict) else Ok(if current == [] then None else Some(current[0]))
  }

  method LocateTwinPlant(plants: Plants, pins: Pins, accounting: Accounting, twin: string, fields: TwinFields)
    returns (r: Result<Option<Membership>, BindingError>)
    ensures r == Locate(plants, pins, accounting, twin, fields)
  {
    hide Gather, Scopes, NodesOf, IsOrigin, TenantOf, WithTenant, OwnedBy, OriginOf, IsPersonal;
    if fields.ownerDid != accounting.ownerDid || fields.subscription != accounting.subscription {
      return Err(OwnerMismatch);
    }
    var origin := OriginOf(fields);
    var owned := OwnerPlants(plants, pins, accounting.ownerDid);
    if owned.Err? {
      return Err(owned.error);
    }
    var matches: seq<Membership> := [];
    var origins: seq<Membership> := [];
    for i := 0 to |owned.value|
      invariant matches == Matches(owned.value[..i], twin)
      invariant origins == Origins(owned.value[..i], twin, origin)
      invariant !Ambiguous(owned.value[..i], twin)
    {
      var p := owned.value[i];
      assert owned.value[..i + 1][..i] == owned.value[..i];
      var nodes := NodesOf(p.document.bindings, twin);
      if |nodes| > 1 {
        assert p in owned.value;
        return Err(Conflict);
      }
      if nodes != [] {
        matches := matches + [Membership(p.plant, TenantOf(p.scope), Some(nodes[0]))];
      } else if IsOrigin(p, origin) {
        origins := origins + [Membership(p.plant, TenantOf(p.scope), None)];
      }
    }
    assert owned.value[..|owned.value|] == owned.value;
    var operational := WithTenant(matches);
    var current := if operational != [] then operational else if matches != [] then matches else origins;
    if |current| > 1 {
      return Err(Conflict);
    }
    r := Ok(if current == [] then None else Some(current[0]));
  }
}
