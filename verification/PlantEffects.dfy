/** What plant writes, lookups and migrations do, said without the functions that compute them. */
module PlantEffects {
  import opened Wrappers
  import opened Text
  import opened PlantBindings
  import opened PlantMembership

  /* ---- Whose plants ---- */

  /** The scope is the owner's personal one, or pinned to it. */
  ghost predicate ScopeOf(pins: Pins, scope: string, owner: string) {
    scope == "personal:" + owner || (scope, owner) in pins
  }

  lemma {:induction false} PinnedExactly(pins: Pins, owner: string)
    ensures forall s :: s in PinnedScopes(pins, owner) <==> (s, owner) in pins
  {
    if pins != [] {
      PinnedExactly(pins[1..], owner);
      assert pins == [pins[0]] + pins[1..];
    }
  }

  lemma OwnedExactly(plants: Plants, pins: Pins, owner: string, p: Stored)
    ensures p in Gather(plants, Scopes(pins, owner)) <==> p in plants && ScopeOf(pins, p.scope, owner)
  {
    PinnedExactly(pins, owner);
    GatherMembers(plants, Scopes(pins, owner));
  }

  /* ---- Which bindings are refused ---- */

  /** A Twin id is 64 hexadecimal digits behind 0x, in any letter case. */
  lemma TwinIdExactly(id: string)
    ensures ValidTwinId(id) <==> exists d :: Hex64Digits(d) && Lower(id) == "0x" + d
  {
    if ValidTwinId(id) {
      var d := Lower(id)[2..];
      assert forall i :: 0 <= i < 64 ==> d[i] == LowerChar(id[i + 2]);
      assert Lower(id)[0] == '0' && Lower(id)[1] == 'x';
      assert Lower(id) == "0x" + d;
    }
    if d :| Hex64Digits(d) && Lower(id) == "0x" + d {
      assert |id| == |Lower(id)| == 66;
      assert LowerChar(id[0]) == Lower(id)[0] == '0' && LowerChar(id[1]) == Lower(id)[1] == 'x';
      forall i | 2 <= i < 66
        ensures HexDigit(id[i])
      {
        assert LowerChar(id[i]) == Lower(id)[i] == d[i - 2];
      }
    }
  }

  /** The node at the end of the path of child positions, when no document is on the way to it or at its end. */
  ghost function At(n: Node, path: seq<nat>): Option<Node>
    decreases path
  {
    if n.isDocument then None
    else if path == [] then Some(n)
    else if path[0] >= |n.children| then None
    else At(n.children[path[0]], path[1..])
  }

  ghost predicate Reaches(n: Node, path: seq<nat>, id: string) {
    At(n, path).Some? && At(n, path).value.id == id
  }

  /** The nodes that may carry a Twin are those that can be reached from the root without passing a document. */
  lemma {:induction false} NodesExactly(n: Node, id: string)
    ensures id in NodeIds(n) <==> exists path :: Reaches(n, path, id)
    decreases n, 1
  {
    ChildrenExactly(n.children, id);
    if id in NodeIds(n) {
      if id == n.id {
        assert Reaches(n, [], id);
      } else {
        var c: nat, path :| c < |n.children| && Reaches(n.children[c], path, id);
        assert ([c] + path)[1..] == path;
        assert Reaches(n, [c] + path, id);
      }
    }
    if path :| Reaches(n, path, id) {
      if path != [] {
        assert Reaches(n.children[path[0]], path[1..], id);
      }
    }
  }

  lemma {:induction false} ChildrenExactly(children: seq<Node>, id: string)
    ensures id in ChildIds(children) <==> exists c: nat, path :: c < |children| && Reaches(children[c], path, id)
    decreases children, 0
  {
    if children != [] {
      NodesExactly(children[0], id);
      ChildrenExactly(children[1..], id);
      if c: nat, path :| c < |children| && Reaches(children[c], path, id) {
        assert c > 0 ==> children[1..][c - 1] == children[c];
      }
      if c: nat, path :| c < |children[1..]| && Reaches(children[1..][c], path, id) {
        assert Reaches(children[c + 1], path, id);
      }
    }
  }

  /** The binding is malformed: it names no Twin, no node of the tree, or a Twin that an earlier binding names. */
  ghost predicate Malformed(document: Document, i: nat)
    requires i < |document.bindings|
  {
    var b := document.bindings[i];
    || !(exists d :: Hex64Digits(d) && Lower(b.twin) == "0x" + d)
    || document.tree.None? || !(exists path :: Reaches(document.tree.value, path, b.node))
    || exists k :: 0 <= k < i && document.bindings[k].twin == b.twin
  }

  /** The stored plant already bound the node to the Twin. */
  ghost predicate Unchanged(owned: Plants, tenant: string, plant: string, b: Binding) {
    exists p :: p in owned && p.scope == tenant && p.plant == plant && Lookup(p.document.bindings, b.node) == Some(b.twin)
  }

  /** The Twin came from another plant, or lives in another one of the owner's tenants. */
  ghost predicate Elsewhere(owned: Plants, tenant: string, plant: string, twin: string, origin: Origin) {
    || (origin.tenant !in {None, Some("")} && !(origin.tenant == Some(tenant) && origin.plant == Some(plant)))
    || exists p, n :: p in owned && !("personal:" <= p.scope) && (p.scope != tenant || p.plant != plant) && Binding(n, twin) in p.document.bindings
  }

  /** Why the binding in position i is refused. */
  ghost predicate RefusedFor(owned: Plants, tenant: string, owner: string, plant: string, document: Document,
                             twins: string -> TwinFields, i: nat, error: BindingError)
    requires i < |document.bindings|
  {
    var b := document.bindings[i];
    var fields := twins(b.twin);
    if Malformed(document, i) then error == Conflict
    else
      && !Unchanged(owned, tenant, plant, b)
      && match error
         case OwnerMismatch => fields.ownerDid != owner
         case Conflict => fields.ownerDid == owner && fields.origin == None
         case AlreadyAssigned =>
           fields.ownerDid == owner && fields.origin.Some? && Elsewhere(owned, tenant, plant, b.twin, fields.origin.value)
         case PlantOwnerMismatch => false
  }

  lemma MalformedExactly(document: Document, i: nat)
    requires i < |document.bindings|
    ensures var b := document.bindings[i];
            Malformed(document, i) <==>
            !ValidTwinId(b.twin) || b.node !in TreeIds(document) || exists k :: 0 <= k < i && document.bindings[k].twin == b.twin
  {
    hide Reaches, ValidTwinId, NodeIds, Hex64Digits;
    TwinIdExactly(document.bindings[i].twin);
    if document.tree.Some? {
      NodesExactly(document.tree.value, document.bindings[i].node);
    }
  }

  lemma UnchangedExactly(owned: Plants, tenant: string, plant: string, b: Binding)
    requires KeysDiffer(owned)
    ensures var previous := FindPlant(owned, tenant, plant);
            var earlier := if previous.Some? then previous.value.document.bindings else [];
            Unchanged(owned, tenant, plant, b) <==> Lookup(earlier, b.node) == Some(b.twin)
  {
    Found(owned, tenant, plant);
    forall p, q | p in owned && q in owned && SameKey(p, q)
      ensures p == q
    {
      var i :| 0 <= i < |owned| && owned[i] == p;
      var j :| 0 <= j < |owned| && owned[j] == q;
    }
  }

  lemma ElsewhereExactly(owned: Plants, tenant: string, plant: string, twin: string, origin: Origin)
    ensures Elsewhere(owned, tenant, plant, twin, origin) <==>
            (Industrial(origin) && origin != Origin(Some(tenant), Some(plant))) || TakenElsewhere(owned, tenant, plant, twin)
  {
    forall p | p in owned
      ensures Binds(p.document, twin) <==> exists n :: Binding(n, twin) in p.document.bindings
    {
      if b :| b in p.document.bindings && b.twin == twin {
        assert Binding(b.node, twin) in p.document.bindings;
      }
    }
  }

  /** One binding's error is the one the reason names, and a binding without a reason passes. */
  lemma OneBinding(owned: Plants, tenant: string, owner: string, plant: string, document: Document,
                   twins: string -> TwinFields, i: nat, error: BindingError)
    requires KeysDiffer(owned) && i < |document.bindings|
    ensures var b := document.bindings[i];
            RefusedFor(owned, tenant, owner, plant, document, twins, i, error) <==>
            if Malformed(document, i) then error == Conflict
            else !Unchanged(owned, tenant, plant, b) && NewBindingError(owned, tenant, owner, plant, b.twin, twins(b.twin)) == Some(error)
  {
    hide Malformed, Unchanged, Elsewhere, TakenElsewhere, Industrial;
    var b := document.bindings[i];
    if twins(b.twin).origin.Some? {
      ElsewhereExactly(owned, tenant, plant, b.twin, twins(b.twin).origin.value);
    }
  }

  ghost predicate Refused(owned: Plants, tenant: string, owner: string, plant: string, document: Document, twins: string -> TwinFields, i: nat)
    requires i < |document.bindings|
  {
    exists error :: RefusedFor(owned, tenant, owner, plant, document, twins, i, error)
  }

  /** The binding in position i is the first refused one from a position on, and this is why. */
  ghost predicate FirstRefused(owned: Plants, tenant: string, owner: string, plant: string, document: Document,
                               twins: string -> TwinFields, from: nat, i: nat, error: BindingError)
    requires from <= i < |document.bindings|
  {
    && RefusedFor(owned, tenant, owner, plant, document, twins, i, error)
    && forall k :: from <= k < i ==> !Refused(owned, tenant, owner, plant, document, twins, k)
  }

  ghost predicate FailsWith(owned: Plants, tenant: string, owner: string, plant: string, document: Document,
                            twins: string -> TwinFields, from: nat, error: BindingError)
  {
    exists i :: from <= i < |document.bindings| && FirstRefused(owned, tenant, owner, plant, document, twins, from, i, error)
  }

  lemma {:induction false} FirstErrorExactly(owned: Plants, tenant: string, owner: string, plant: string, document: Document,
                                             twins: string -> TwinFields, from: nat, error: BindingError)
    requires KeysDiffer(owned) && from <= |document.bindings|
    ensures FirstError(owned, tenant, owner, plant, document, twins, from) == Some(error) <==>
            FailsWith(owned, tenant, owner, plant, document, twins, from, error)
    decreases |document.bindings| - from
  {
    hide RefusedFor, Malformed, Unchanged, NewBindingError, ValidTwinId, TreeIds, Lookup, FindPlant, KeysDiffer;
    if from < |document.bindings| {
      var b := document.bindings[from];
      forall e
        ensures RefusedFor(owned, tenant, owner, plant, document, twins, from, e) <==>
                if Malformed(document, from) then e == Conflict
                else !Unchanged(owned, tenant, plant, b)
                     && NewBindingError(owned, tenant, owner, plant, b.twin, twins(b.twin)) == Some(e)
      {
        OneBinding(owned, tenant, owner, plant, document, twins, from, e);
      }
      MalformedExactly(document, from);
      UnchangedExactly(owned, tenant, plant, b);
      FirstErrorExactly(owned, tenant, owner, plant, document, twins, from + 1, error);
      if Refused(owned, tenant, owner, plant, document, twins, from) {
        assert FirstError(owned, tenant, owner, plant, document, twins, from).Some?;
        assert RefusedFor(owned, tenant, owner, plant, document, twins, from, error) ==>
            FirstRefused(owned, tenant, owner, plant, document, twins, from, from, error);
      } else {
        FirstLater(owned, tenant, owner, plant, document, twins, from, error);
      }
    }
  }

  lemma FirstLater(owned: Plants, tenant: string, owner: string, plant: string, document: Document,
                   twins: string -> TwinFields, from: nat, error: BindingError)
    requires from < |document.bindings| && !Refused(owned, tenant, owner, plant, document, twins, from)
    ensures FailsWith(owned, tenant, owner, plant, document, twins, from, error) <==>
            FailsWith(owned, tenant, owner, plant, document, twins, from + 1, error)
  {
    hide RefusedFor;
    if i :| from <= i < |document.bindings| && FirstRefused(owned, tenant, owner, plant, document, twins, from, i, error) {
      assert i != from;
      assert FirstRefused(owned, tenant, owner, plant, document, twins, from + 1, i, error);
    }
    var next := from + 1;
    if i :| next <= i < |document.bindings| && FirstRefused(owned, tenant, owner, plant, document, twins, next, i, error) {
      assert FirstRefused(owned, tenant, owner, plant, document, twins, from, i, error);
    }
  }

  /** The check fails because one of the owner's plants names somebody else, and otherwise as its first refused binding does. */
  lemma CheckErrorsExactly(plants: Plants, pins: Pins, tenant: string, owner: string, plant: string, document: Document,
                           twins: string -> TwinFields, error: BindingError)
    requires PinsOk(pins) && KeysDiffer(plants)
    ensures var owned := Gather(plants, Scopes(pins, owner));
            var foreign := exists p :: p in plants && ScopeOf(pins, p.scope, owner) && p.document.ownerDid !in {"", owner};
            Check(plants, pins, tenant, owner, plant, document, twins) == Some(error) <==>
            if foreign then error == PlantOwnerMismatch
            else FailsWith(owned, tenant, owner, plant, document, twins, 0, error)
  {
    hide FailsWith, FirstError, Scopes, Gather, KeysDiffer, ScopeOf;
    OwnedDistinct(plants, pins, owner);
    forall p
      ensures p in Gather(plants, Scopes(pins, owner)) <==> p in plants && ScopeOf(pins, p.scope, owner)
    {
      OwnedExactly(plants, pins, owner, p);
    }
    FirstErrorExactly(Gather(plants, Scopes(pins, owner)), tenant, owner, plant, document, twins, 0, error);
  }

  /* ---- What writes change ---- */

  /** The catalog is the one before with this plant put in, and nothing else changed. */
  ghost predicate Replaced(before: Plants, after: Plants, p: Stored) {
    forall q :: q in after <==> q == p || (q in before && !(q.scope == p.scope && q.plant == p.plant))
  }

  lemma PutReplaces(plants: Plants, scope: string, plant: string, document: Document)
    ensures Replaced(plants, Put(plants, scope, plant, document), Stored(scope, plant, document))
  {
    WithoutMembers(plants, scope, plant);
  }

  /** The supervisor pinned to the scope. */
  ghost predicate Supervises(pins: Pins, owner: string, scope: string) {
    (scope, owner) in pins
  }

  lemma {:induction false} PinExactly(pins: Pins, scope: string, owner: string)
    requires PinsOk(pins)
    ensures PinOf(pins, scope) == Some(owner) <==> Supervises(pins, owner, scope)
  {
    if pins != [] {
      var rest := pins[1..];
      assert pins == [pins[0]] + rest;
      assert PinsOk(rest) by {
        assert forall i :: 0 <= i < |rest| ==> rest[i] == pins[i + 1];
      }
      PinExactly(rest, scope, owner);
      if (scope, owner) in rest {
        var i :| 0 <= i < |rest| && rest[i] == (scope, owner);
        assert pins[i + 1].0 == scope;
      }
    }
  }

  /** A supervisor's document is stored in its name when the check passes, and otherwise nothing changes. */
  lemma TenantPutExactly(pins: Pins, plants: Plants, tenant: string, owner: string, plant: string, document: Document, twins: string -> TwinFields)
    requires PinsOk(pins) && Supervises(pins, owner, tenant) && DistinctNodes(document)
    ensures var after := Step(pins, plants, TenantPut(tenant, plant, document, twins));
            if document.ownerDid in {"", owner} && Check(plants, pins, tenant, owner, plant, document, twins).None?
            then Replaced(plants, after, Stored(tenant, plant, Document(owner, document.tree, document.bindings)))
            else after == plants
  {
    hide Check, Put, Replaced, PinsOk;
    PinExactly(pins, tenant, owner);
    PutReplaces(plants, tenant, plant, Document(owner, document.tree, document.bindings));
  }

  /** The first Twin of an owner creates its personal plant: a root without children, and nothing bound. */
  lemma OpenPersonalExactly(pins: Pins, plants: Plants, owner: string)
    ensures var after := Step(pins, plants, OpenPersonal(owner));
            if exists p :: p in plants && p.scope == "personal:" + owner && p.plant == "personal-" + owner then after == plants
            else Replaced(plants, after, Stored("personal:" + owner, "personal-" + owner,
                                                Document(owner, Some(Node("personal-" + owner, false, [])), [])))
  {
    Found(plants, "personal:" + owner, "personal-" + owner);
    PutReplaces(plants, "personal:" + owner, "personal-" + owner, EmptyPersonal(owner));
  }

  /** Another subsystem writes what it likes under a scope that is neither pinned nor personal, and nowhere else. */
  lemma OtherPutExactly(pins: Pins, plants: Plants, scope: string, plant: string, document: Document)
    requires PinsOk(pins) && DistinctNodes(document)
    ensures var after := Step(pins, plants, OtherPut(scope, plant, document));
            if !("personal:" <= scope) && forall owner :: !Supervises(pins, owner, scope)
            then Replaced(plants, after, Stored(scope, plant, document)) else after == plants
  {
    hide Put, Replaced, PinsOk, Supervises;
    forall owner
      ensures PinOf(pins, scope) == Some(owner) <==> Supervises(pins, owner, scope)
    {
      PinExactly(pins, scope, owner);
    }
    PutReplaces(plants, scope, plant, document);
  }

  /** The document with one node, and what it is bound to, set: every other child of the root and binding stays. */
  ghost predicate TwinSet(before: Document, after: Document, node: string, twin: string) {
    && after.ownerDid == before.ownerDid
    && (forall b :: b in after.bindings <==> b == Binding(node, twin) || (b in before.bindings && b.node != node))
    && (before.tree.None? <==> after.tree.None?)
    && (before.tree.Some? ==>
          && after.tree.value.id == before.tree.value.id && after.tree.value.isDocument == before.tree.value.isDocument
          && forall c :: c in after.tree.value.children <==>
                         c == Node(node, false, []) || (c in before.tree.value.children && c.id != node))
  }

  lemma {:induction false} ChildrenKept(children: seq<Node>, id: string)
    ensures forall c :: c in WithoutChild(children, id) <==> c in children && c.id != id
  {
    if children != [] {
      ChildrenKept(children[1..], id);
      assert children == [children[0]] + children[1..];
    }
  }

  lemma AddTwinExactly(document: Document, twin: string)
    ensures TwinSet(document, AddTwin(document, twin), LocalNode(twin), twin)
  {
    WithoutNodeMembers(document.bindings, LocalNode(twin));
    if document.tree.Some? {
      ChildrenKept(document.tree.value.children, LocalNode(twin));
    }
  }

  /** The node of a migrated Twin is named after it, without the notation of its digits. */
  ghost function NodeNamed(twin: string): string {
    "twin-" + if |twin| >= 2 && twin[0] == '0' && twin[1] == 'x' then twin[2..] else twin
  }

  lemma NodeNamedExactly(twin: string)
    ensures NodeNamed(twin) == LocalNode(twin)
  {}

  /** A migration sets the Twin in the owner's personal plant, which it creates when there is none yet. */
  lemma MigrateExactly(pins: Pins, writes: seq<Write>, owner: string, twin: string)
    requires PinsOk(pins)
    ensures var plants := Run(pins, writes);
            var after := Step(pins, plants, Migrate(owner, twin));
            exists before, next ::
              && (Stored("personal:" + owner, "personal-" + owner, before) in plants
                  || (before == Document(owner, Some(Node("personal-" + owner, false, [])), [])
                      && forall p :: p in plants ==> p.scope != "personal:" + owner || p.plant != "personal-" + owner))
              && TwinSet(before, next, NodeNamed(twin), twin)
              && Replaced(plants, after, Stored("personal:" + owner, "personal-" + owner, next))
  {
    hide Run, TwinSet, Replaced, CatalogOk, AddTwin, PinsOk;
    var plants := Run(pins, writes);
    var scope, plant := "personal:" + owner, "personal-" + owner;
    EveryRunOk(pins, writes);
    Found(plants, scope, plant);
    var found := FindPlant(plants, scope, plant);
    var before := if found.Some? then found.value.document else EmptyPersonal(owner);
    if found.Some? {
      PersonalOwner(pins, plants, owner, found.value);
      assert found.value == Stored(scope, plant, before);
    }
    AddTwinExactly(before, twin);
    NodeNamedExactly(twin);
    var next := AddTwin(before, twin);
    PutReplaces(plants, scope, plant, next);
    assert TwinSet(before, next, NodeNamed(twin), twin);
  }

  lemma PersonalOwner(pins: Pins, plants: Plants, owner: string, p: Stored)
    requires CatalogOk(pins, plants) && p in plants && p.scope == "personal:" + owner
    ensures p.document.ownerDid == owner && p.plant == "personal-" + owner
  {
    hide KeysDiffer, PairOk, DistinctNodes;
    assert PlantOk(pins, p);
    assert p.scope[|"personal:"|..] == owner;
  }

  /* ---- Lookups ---- */

  ghost predicate Names(p: Stored, twin: string) {
    exists n :: Binding(n, twin) in p.document.bindings
  }

  ghost predicate Personal(p: Stored) {
    |p.scope| >= 9 && p.scope[..9] == "personal:"
  }

  /** The Twin's immutable metadata records this plant. */
  ghost predicate Recorded(p: Stored, fields: TwinFields) {
    match fields.origin
    case None => false
    case Some(origin) => origin.plant == Some(p.plant) && if Personal(p) then origin.tenant == None else origin.tenant == Some(p.scope)
  }

  /** The plant is a candidate: a tenant's that names the Twin, else a personal one that does, else a recorded one. */
  ghost predicate Candidate(owned: Plants, p: Stored, twin: string, fields: TwinFields) {
    && p in owned
    && if exists q :: q in owned && Names(q, twin) && !Personal(q) then Names(p, twin) && !Personal(p)
       else if exists q :: q in owned && Names(q, twin) then Names(p, twin)
       else Recorded(p, fields)
  }

  /** What the lookup says of a candidate. */
  ghost predicate Describes(m: Membership, p: Stored, twin: string) {
    && m.plant == p.plant && m.tenant == (if Personal(p) then None else Some(p.scope))
    && if Names(p, twin) then m.node.Some? && Binding(m.node.value, twin) in p.document.bindings else m.node == None
  }

  ghost predicate NamedTwice(p: Stored, twin: string) {
    exists i, j :: 0 <= i < j < |p.document.bindings| && p.document.bindings[i].twin == twin == p.document.bindings[j].twin
  }

  lemma NamesExactly(p: Stored, twin: string)
    ensures Names(p, twin) <==> NodesOf(p.document.bindings, twin) != []
    ensures Names(p, twin) ==> Binding(NodesOf(p.document.bindings, twin)[0], twin) in p.document.bindings
    ensures Personal(p) <==> IsPersonal(p.scope)
    ensures NamedTwice(p, twin) <==> |NodesOf(p.document.bindings, twin)| > 1
  {
    NodesOfMembers(p.document.bindings, twin);
    if NodesOf(p.document.bindings, twin) != [] {
      assert NodesOf(p.document.bindings, twin)[0] in NodesOf(p.document.bindings, twin);
    }
    if !NamedTwice(p, twin) {
      assert !Twice(p.document.bindings, twin);
      NodesOfOnce(p.document.bindings, twin);
    } else {
      var i, j :| 0 <= i < j < |p.document.bindings| && p.document.bindings[i].twin == twin == p.document.bindings[j].twin;
      NodesOfTwice(p.document.bindings, twin, i, j);
    }
  }

  lemma {:induction false} NodesOfTwice(bindings: seq<Binding>, twin: string, i: nat, j: nat)
    requires i < j < |bindings| && bindings[i].twin == bindings[j].twin == twin
    ensures |NodesOf(bindings, twin)| > 1
  {
    if i > 0 {
      NodesOfTwice(bindings[1..], twin, i - 1, j - 1);
    } else {
      NodesOfMembers(bindings[1..], twin);
      assert bindings[1..][j - 1] == Binding(bindings[j].node, twin);
      assert bindings[j].node in NodesOf(bindings[1..], twin);
    }
  }

  lemma {:induction false} SelectMembers(plants: Plants, keep: Stored -> bool)
    ensures forall p :: p in Select(plants, keep) <==> p in plants && keep(p)
    ensures Select(plants, keep) != [] <==> exists p :: p in plants && keep(p)
  {
    if plants != [] {
      var last := |plants| - 1;
      SelectMembers(plants[..last], keep);
      assert plants == plants[..last] + [plants[last]];
      var s := Select(plants, keep);
      if s != [] {
        assert s[0] in s;
      }
    }
  }

  lemma {:induction false} SelectDiffers(plants: Plants, keep: Stored -> bool)
    requires KeysDiffer(plants)
    ensures KeysDiffer(Select(plants, keep))
  {
    hide SameKey;
    if plants != [] {
      var last := |plants| - 1;
      SelectDiffers(plants[..last], keep);
      var before := Select(plants[..last], keep);
      SelectMembers(plants[..last], keep);
      forall i | 0 <= i < |before|
        ensures !SameKey(before[i], plants[last])
      {
        assert before[i] in before;
      }
    }
  }

  /** Which of the three selections the lookup falls back to. */
  ghost function Keep(owned: Plants, twin: string, origin: Origin): Stored -> bool {
    if Select(owned, NamingTenant(twin)) != [] then NamingTenant(twin)
    else if Select(owned, Naming(twin)) != [] then Naming(twin)
    else OriginOnly(twin, origin)
  }

  lemma KeepExactly(owned: Plants, p: Stored, twin: string, fields: TwinFields)
    ensures p in Select(owned, Keep(owned, twin, OriginOf(fields))) <==> Candidate(owned, p, twin, fields)
  {
    hide NodesOf, IsPersonal, Select, Names, Personal, NamedTwice;
    var origin := OriginOf(fields);
    forall q
      ensures Names(q, twin) <==> NodesOf(q.document.bindings, twin) != []
      ensures Personal(q) <==> IsPersonal(q.scope)
    {
      NamesExactly(q, twin);
    }
    SelectMembers(owned, NamingTenant(twin));
    SelectMembers(owned, Naming(twin));
    SelectMembers(owned, OriginOnly(twin, origin));
    assert (exists q :: q in owned && NamingTenant(twin)(q)) <==> exists q :: q in owned && Names(q, twin) && !Personal(q);
    assert (exists q :: q in owned && Naming(twin)(q)) <==> exists q :: q in owned && Names(q, twin);
    assert Recorded(p, fields) <==> IsOrigin(p, origin);
  }

  lemma OneDescribed(p: Stored, twin: string)
    ensures Naming(twin)(p) ==> Describes(Membership(p.plant, TenantOf(p.scope), NodeOf(twin)(p)), p, twin)
    ensures !Naming(twin)(p) ==> Describes(Membership(p.plant, TenantOf(p.scope), None), p, twin)
  {
    hide NodesOf, NamedTwice, IsPersonal, Personal, Names;
    NamesExactly(p, twin);
  }

  /** The plants the lookup ends up with are the candidates, each described. */
  lemma CurrentExactly(owned: Plants, twin: string, fields: TwinFields)
    ensures var current := Current(owned, twin, OriginOf(fields));
            var chosen := Select(owned, Keep(owned, twin, OriginOf(fields)));
            |current| == |chosen| && forall i :: 0 <= i < |chosen| ==> Describes(current[i], chosen[i], twin)
  {
    hide NodesOf, IsPersonal, Select, Matches, WithTenant, Origins, IsOrigin, Describes, TenantOf;
    var origin := OriginOf(fields);
    MatchesSelect(owned, twin);
    OriginsSelect(owned, twin, origin);
    SelectMembers(owned, NamingTenant(twin));
    SelectMembers(owned, Naming(twin));
    SelectMembers(owned, OriginOnly(twin, origin));
    var chosen := Select(owned, Keep(owned, twin, origin));
    forall i | 0 <= i < |chosen|
      ensures Describes(Current(owned, twin, origin)[i], chosen[i], twin)
    {
      assert chosen[i] in chosen;
      OneDescribed(chosen[i], twin);
    }
  }

  /**
   The lookup of a Twin fails because the Twin is somebody else's, because a plant among the owner's is, or because a plant
   names the Twin twice or two plants are candidates; else it answers with the one candidate, or with none.
   */
  lemma LocateExactly(plants: Plants, pins: Pins, accounting: Accounting, twin: string, fields: TwinFields)
    requires PinsOk(pins) && KeysDiffer(plants)
    ensures var owned := Gather(plants, Scopes(pins, accounting.ownerDid));
            var r := Locate(plants, pins, accounting, twin, fields);
            if fields.ownerDid != accounting.ownerDid || fields.subscription != accounting.subscription then r == Err(OwnerMismatch)
            else if exists p :: p in owned && p.document.ownerDid !in {"", accounting.ownerDid} then r == Err(PlantOwnerMismatch)
            else if (exists p :: p in owned && NamedTwice(p, twin))
                 || (exists p, q :: p != q && Candidate(owned, p, twin, fields) && Candidate(owned, q, twin, fields)) then r == Err(Conflict)
            else if exists p :: Candidate(owned, p, twin, fields)
                 then r.Ok? && r.value.Some? && exists p :: Candidate(owned, p, twin, fields) && Describes(r.value.value, p, twin)
            else r == Ok(None)
  {
    hide Gather, Scopes, NodesOf, Current, Candidate, Describes, NamedTwice, Select, Keep, KeysDiffer;
    var owned := Gather(plants, Scopes(pins, accounting.ownerDid));
    var chosen := Select(owned, Keep(owned, twin, OriginOf(fields)));
    OwnedDistinct(plants, pins, accounting.ownerDid);
    forall p
      ensures NamedTwice(p, twin) <==> |NodesOf(p.document.bindings, twin)| > 1
      ensures p in chosen <==> Candidate(owned, p, twin, fields)
    {
      NamesExactly(p, twin);
      KeepExactly(owned, p, twin, fields);
    }
    CurrentExactly(owned, twin, fields);
    SelectMembers(owned, Keep(owned, twin, OriginOf(fields)));
    SelectDiffers(owned, Keep(owned, twin, OriginOf(fields)));
    ShortIffOne(chosen);
    if |chosen| > 0 {
      assert chosen[0] in chosen;
    }
  }

  lemma ShortIffOne(chosen: Plants)
    requires KeysDiffer(chosen)
    ensures |chosen| > 1 <==> exists p, q :: p != q && p in chosen && q in chosen
  {
    if |chosen| > 1 {
      assert !SameKey(chosen[0], chosen[1]);
      assert chosen[0] in chosen && chosen[1] in chosen;
    }
  }

  /* ---- Migration ---- */

  /** A Twin that lives in a plant stays there; any other goes to its owner's personal plant. */
  datatype Migration = Preserve(current: Membership) | ToPersonal(plant: string, node: string)

  datatype MigrationError = NotLocated(error: BindingError) | ReconciliationRequired

  predicate Given(v: Option<string>) {
    v.Some? && v.value != ""
  }

  /** `twinscope` says whether the Twin's namespace is that of industrial Twins. */
  function Plan(plants: Plants, pins: Pins, accounting: Accounting, twin: string, fields: TwinFields, twinscope: bool)
    : Result<Migration, MigrationError>
  {
    match Locate(plants, pins, accounting, twin, fields)
    case Err(e) => Err(NotLocated(e))
    case Ok(Some(current)) => Ok(Preserve(current))
    case Ok(None) =>
      if Given(OriginOf(fields).plant) || Given(OriginOf(fields).tenant) || twinscope then Err(ReconciliationRequired)
      else Ok(ToPersonal(PersonalPlant(accounting.ownerDid), LocalNode(twin)))
  }

  /** Nothing is known of the Twin that would tie it to an industrial plant. */
  ghost predicate Unclaimed(fields: TwinFields, twinscope: bool) {
    && !twinscope
    && match fields.origin
       case None => true
       case Some(origin) => origin.tenant in {None, Some("")} && origin.plant in {None, Some("")}
  }

  /** A migration fails as the lookup does, preserves what the lookup finds, and else moves exactly the Twins nothing is claimed of. */
  lemma PlanExactly(plants: Plants, pins: Pins, accounting: Accounting, twin: string, fields: TwinFields, twinscope: bool)
    ensures var plan, located := Plan(plants, pins, accounting, twin, fields, twinscope), Locate(plants, pins, accounting, twin, fields);
            && (forall e :: plan == Err(NotLocated(e)) <==> located == Err(e))
            && (forall m :: plan == Ok(Preserve(m)) <==> located == Ok(Some(m)))
            && (plan == Err(ReconciliationRequired) <==> located == Ok(None) && !Unclaimed(fields, twinscope))
            && (plan == Ok(ToPersonal("personal-" + accounting.ownerDid, NodeNamed(twin))) <==>
                  located == Ok(None) && Unclaimed(fields, twinscope))
  {
    hide Locate;
    NodeNamedExactly(twin);
  }

  /** A migration that was applied is found by the lookup, and migrating again preserves it. */
  lemma MigratedIsFound(pins: Pins, writes: seq<Write>, accounting: Accounting, twin: string, fields: TwinFields, twinscope: bool)
    requires PinsOk(pins)
    requires Plan(Run(pins, writes), pins, accounting, twin, fields, twinscope).Ok?
    requires Plan(Run(pins, writes), pins, accounting, twin, fields, twinscope).value.ToPersonal?
    ensures var owner := accounting.ownerDid;
            var plan := Plan(Run(pins, writes), pins, accounting, twin, fields, twinscope).value;
            var after := Run(pins, writes + [Migrate(owner, twin)]);
            var found := Membership("personal-" + owner, None, Some(plan.node));
            && plan.plant == "personal-" + owner && Unclaimed(fields, twinscope)
            && Locate(after, pins, accounting, twin, fields) == Ok(Some(found))
            && Plan(after, pins, accounting, twin, fields, twinscope) == Ok(Preserve(found))
  {
    hide Run, Locate, Gather, Scopes, CatalogOk, LocalNode, NoTenantBinds, NobodyBinds, PinsOk;
    var owner := accounting.ownerDid;
    var more := writes + [Migrate(owner, twin)];
    var after := Run(pins, more);
    LocatedIsOwned(Run(pins, writes), pins, accounting, twin, fields);
    LocateAnswers(pins, writes, accounting, twin, fields);
    LocateAnswers(pins, more, accounting, twin, fields);
    MigratedThere(pins, writes, accounting, twin, fields);
    var p :| p in Gather(after, Scopes(pins, owner)) && p.scope == "personal:" + owner && p.plant == "personal-" + owner
             && Binding(LocalNode(twin), twin) in p.document.bindings;
    assert IsPersonal(p.scope) by {
      assert "personal:" <= p.scope;
    }
  }

  lemma LocatedIsOwned(plants: Plants, pins: Pins, accounting: Accounting, twin: string, fields: TwinFields)
    requires Locate(plants, pins, accounting, twin, fields).Ok?
    ensures fields.ownerDid == accounting.ownerDid && fields.subscription == accounting.subscription
  {}

  lemma RunMore(pins: Pins, writes: seq<Write>, w: Write)
    ensures Run(pins, writes + [w]) == Step(pins, Run(pins, writes), w)
  {
    assert (writes + [w])[..|writes|] == writes;
  }

  /** After the write, the personal plant names the Twin, and no tenant plant of the owner does. */
  lemma MigratedThere(pins: Pins, writes: seq<Write>, accounting: Accounting, twin: string, fields: TwinFields)
    requires PinsOk(pins) && Locate(Run(pins, writes), pins, accounting, twin, fields) == Ok(None)
    ensures var owned := Gather(Run(pins, writes + [Migrate(accounting.ownerDid, twin)]), Scopes(pins, accounting.ownerDid));
            && NoTenantBinds(owned, twin)
            && exists p :: p in owned && p.scope == "personal:" + accounting.ownerDid && p.plant == "personal-" + accounting.ownerDid
                           && Binding(LocalNode(twin), twin) in p.document.bindings
  {
    hide Run, Locate, Gather, Scopes, CatalogOk, LocalNode, NoTenantBinds, PinsOk, IsPersonal, AddTwin, TwinSet, NodeNamed, Step, ScopeOf;
    var owner := accounting.ownerDid;
    var plants := Run(pins, writes);
    var more := writes + [Migrate(owner, twin)];
    var after := Step(pins, plants, Migrate(owner, twin));
    RunMore(pins, writes, Migrate(owner, twin));
    MigrateExactly(pins, writes, owner, twin);
    NodeNamedExactly(twin);
    var before, next :| TwinSet(before, next, NodeNamed(twin), twin)
                        && Replaced(plants, after, Stored("personal:" + owner, "personal-" + owner, next));
    var put := Stored("personal:" + owner, "personal-" + owner, next);
    SetIsThere(plants, after, put, before, NodeNamed(twin), twin);
    OwnedExactly(after, pins, owner, put);
    PersonalIsOwn(pins, owner);
    StillNoTenant(pins, writes, after, put, accounting, twin, fields);
  }

  lemma SetIsThere(plants: Plants, after: Plants, put: Stored, before: Document, node: string, twin: string)
    requires Replaced(plants, after, put) && TwinSet(before, put.document, node, twin)
    ensures put in after && Binding(node, twin) in put.document.bindings
  {}

  lemma PersonalIsOwn(pins: Pins, owner: string)
    ensures ScopeOf(pins, "personal:" + owner, owner)
  {}

  lemma StillNoTenant(pins: Pins, writes: seq<Write>, after: Plants, put: Stored, accounting: Accounting, twin: string, fields: TwinFields)
    requires PinsOk(pins) && Locate(Run(pins, writes), pins, accounting, twin, fields) == Ok(None)
    requires put.scope == "personal:" + accounting.ownerDid && Replaced(Run(pins, writes), after, put)
    ensures NoTenantBinds(Gather(after, Scopes(pins, accounting.ownerDid)), twin)
  {
    hide Run, Locate, Gather, Scopes, LocalNode, NobodyBinds, PinsOk, IsPersonal, ScopeOf;
    var plants := Run(pins, writes);
    var owner := accounting.ownerDid;
    LocatedIsOwned(plants, pins, accounting, twin, fields);
    LocateAnswers(pins, writes, accounting, twin, fields);
    assert IsPersonal(put.scope) by {
      IsPersonalScope(owner);
    }
    forall p, n | p in Gather(after, Scopes(pins, owner)) && !IsPersonal(p.scope)
      ensures Binding(n, twin) !in p.document.bindings
    {
      OwnedExactly(after, pins, owner, p);
      OwnedExactly(plants, pins, owner, p);
    }
  }

  lemma IsPersonalScope(owner: string)
    ensures IsPersonal("personal:" + owner)
  {
    assert "personal:" <= "personal:" + owner;
  }
}
