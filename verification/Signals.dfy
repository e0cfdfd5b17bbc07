/**
 Finding the scalar signals of a device payload, naming each by a JSON pointer (RFC 6901), and reading the chosen
 signals back from later payloads.
 */
module Signals {
  import opened JsonData
  import opened Text
  import opened Wrappers

  const MAX_DEPTH: nat := 8
  const MAX_ROWS: nat := 100

  type Path = seq<string>

  /* ---- Pointers ---- */

  function EscapeChar(c: char): string {
    if c == '~' then "~0" else if c == '/' then "~1" else [c]
  }

  function Escape(token: string): string {
    if token == [] then [] else EscapeChar(token[0]) + Escape(token[1..])
  }

  /** A slash in front of every escaped token. */
  function Pointer(path: Path): string {
    if path == [] then [] else "/" + Escape(path[0]) + Pointer(path[1..])
  }

  /** The program joins the tokens with slashes behind one leading slash, so the empty path becomes a slash too. */
  function Source(path: Path): string {
    if path == [] then "/" else Pointer(path)
  }

  function Unescape(token: string): Option<string> {
    if token == [] then Some([])
    else if token[0] != '~' then
      var rest := Unescape(token[1..]);
      if rest.None? then None else Some([token[0]] + rest.value)
    else if |token| >= 2 && token[1] in {'0', '1'} then
      var rest := Unescape(token[2..]);
      if rest.None? then None else Some([if token[1] == '0' then '~' else '/'] + rest.value)
    else None
  }

  /** The part before the first slash. */
  function Head(s: string): (h: string)
    ensures |h| <= |s| && (|h| < |s| ==> s[|h|] == '/')
  {
    if s == [] || s[0] == '/' then [] else [s[0]] + Head(s[1..])
  }

  /** Evaluates a pointer's text to its reference tokens, as sections 3 and 4 of RFC 6901 define them. */
  function Parse(s: string): Option<Path>
    decreases |s|
  {
    if s == [] then Some([])
    else if s[0] != '/' then None
    else
      var head := Head(s[1..]);
      var token := Unescape(head);
      var rest := Parse(s[1 + |head|..]);
      if token.None? || rest.None? then None else Some([token.value] + rest.value)
  }

  lemma {:induction false} EscapeHasNoSlash(token: string)
    ensures '/' !in Escape(token)
  {
    if token != [] {
      EscapeHasNoSlash(token[1..]);
    }
  }

  lemma {:induction false} UnescapeEscape(token: string)
    ensures Unescape(Escape(token)) == Some(token)
  {
    if token != [] {
      var e := Escape(token);
      UnescapeEscape(token[1..]);
      assert e == EscapeChar(token[0]) + Escape(token[1..]);
      assert e[|EscapeChar(token[0])|..] == Escape(token[1..]);
      assert token == [token[0]] + token[1..];
    }
  }

  lemma {:induction false} HeadOf(a: string, b: string)
    requires '/' !in a && (b == [] || b[0] == '/')
    ensures Head(a + b) == a
  {
    if a == [] {
      assert a + b == b;
    } else {
      assert (a + b)[1..] == a[1..] + b;
      HeadOf(a[1..], b);
    }
  }

  lemma {:induction false} ParsePointer(path: Path)
    ensures Parse(Pointer(path)) == Some(path)
  {
    if path != [] {
      var first := Escape(path[0]);
      var rest := Pointer(path[1..]);
      var s := Pointer(path);
      assert s == "/" + first + rest;
      assert s[1..] == first + rest;
      EscapeHasNoSlash(path[0]);
      HeadOf(first, rest);
      UnescapeEscape(path[0]);
      assert s[1 + |first|..] == rest;
      ParsePointer(path[1..]);
      assert path == [path[0]] + path[1..];
    }
  }

  /** A source leads back to its path exactly when the path is not empty: a scalar payload is named like the key "". */
  lemma SourceRoundTrip(path: Path)
    ensures Parse(Source(path)) == Some(path) <==> path != []
    ensures path == [] ==> Source(path) == Source([""])
  {
    ParsePointer(path);
    assert Pointer([""]) == "/" + Escape("") + Pointer([]);
    ParsePointer([""]);
  }

  /* ---- Leaves of a payload ---- */

  const FORBIDDEN := {"__proto__", "constructor", "prototype"}

  datatype Leaf = Leaf(path: Path, name: Option<string>, unit: string, value: Json)

  predicate TypedScalar(v: Json) {
    v.Num? || v.Str? || v.Bool?
  }

  /** An object that carries a scalar under "value" is one signal. */
  predicate ValueObject(v: Json) {
    v.Obj? && Field(v.fields, "value").Some? && TypedScalar(Field(v.fields, "value").value)
  }

  function Last(path: Path): Option<string> {
    if path == [] then None else Some(path[|path| - 1])
  }

  function Kept(path: Path, name: Option<string>, unit: string, value: Json): seq<Leaf> {
    if Scalar(value) then [Leaf(path, name, unit, value)] else []
  }

  function UnitOf(fields: Fields): string {
    var unit := Field(fields, "unit");
    if unit.Some? && unit.value.Str? then unit.value.s else ""
  }

  /** All signals below a value, in document order, however many there are. */
  function Leaves(value: Json, path: Path, depth: nat): seq<Leaf>
    decreases value, 1
  {
    if depth > MAX_DEPTH then []
    else if ValueObject(value) then
      Kept(path + ["value"], Last(path), UnitOf(value.fields), Field(value.fields, "value").value)
    else if value.Obj? then ChildLeaves(value, |value.fields|, path, depth)
    else if TypedScalar(value) then Kept(path, Last(path), "", value)
    else []
  }

  /** The signals below the first n entries of an object. */
  function ChildLeaves(record: Json, n: nat, path: Path, depth: nat): seq<Leaf>
    requires record.Obj? && n <= |record.fields|
    decreases record, 0, n
  {
    if n == 0 then []
    else
      var entry := record.fields[n - 1];
      ChildLeaves(record, n - 1, path, depth)
      + if entry.0 in FORBIDDEN then [] else Leaves(entry.1, path + [entry.0], depth + 1)
  }

  function First(leaves: seq<Leaf>): seq<Leaf> {
    if |leaves| > MAX_ROWS then leaves[..MAX_ROWS] else leaves
  }

  /* ---- The search as the program runs it ---- */

  class Discovery {
    var found: seq<Leaf>

    constructor ()
      ensures found == []
    {
      found := [];
    }

    method Add(path: Path, name: Option<string>, unit: string, value: Json)
      requires TypedScalar(value)
      modifies this
      ensures found == old(found) + Kept(path, name, unit, value)
    {
      if value.Num? && value.n.NonFinite? {
        return;
      }
      found := found + [Leaf(path, name, unit, value)];
    }

    /** However deep the recursion is left early, what has been found are the first leaves. */
    method Visit(value: Json, path: Path, depth: nat)
      requires |found| <= MAX_ROWS
      modifies this
      ensures found == First(old(found) + Leaves(value, path, depth))
      decreases value, 1
    {
      hide UnitOf, Last, ChildLeaves;
      if depth > MAX_DEPTH || |found| >= MAX_ROWS {
        FirstOfMore(found, Leaves(value, path, depth));
        return;
      }
      if value.Obj? {
        if ValueObject(value) {
          Add(path + ["value"], Last(path), UnitOf(value.fields), Field(value.fields, "value").value);
          return;
        }
        VisitEntries(value, path, depth);
      } else if TypedScalar(value) {
        Add(path, Last(path), "", value);
      } else {
        assert found + [] == found;
      }
    }

    /** The loop over the entries of an object that is not a value object. */
    method VisitEntries(value: Json, path: Path, depth: nat)
      requires value.Obj? && |found| <= MAX_ROWS
      modifies this
      ensures found == First(old(found) + ChildLeaves(value, |value.fields|, path, depth))
      decreases value, 0
    {
      hide Leaves, First;
      ghost var before := found;
      assert before + [] == before;
      FirstKeeps(before);
      for i := 0 to |value.fields|
        invariant |found| <= MAX_ROWS
        invariant found == First(before + ChildLeaves(value, i, path, depth))
      {
        var entry := value.fields[i];
        ghost var so := before + ChildLeaves(value, i, path, depth);
        if entry.0 !in FORBIDDEN {
          ghost var more := Leaves(entry.1, path + [entry.0], depth + 1);
          FirstTwice(so, more);
          assert so + more == before + ChildLeaves(value, i + 1, path, depth);
          Visit(entry.1, path + [entry.0], depth + 1);
          FirstKeeps(so + more);
        } else {
          assert ChildLeaves(value, i + 1, path, depth) == ChildLeaves(value, i, path, depth);
        }
      }
    }
  }

  lemma FirstKeeps(leaves: seq<Leaf>)
    ensures |First(leaves)| <= MAX_ROWS && (|leaves| <= MAX_ROWS ==> First(leaves) == leaves)
  {}

  lemma FirstOfMore(found: seq<Leaf>, more: seq<Leaf>)
    requires |found| == MAX_ROWS || more == []
    requires |found| <= MAX_ROWS
    ensures First(found + more) == found
  {}

  lemma FirstTwice(a: seq<Leaf>, b: seq<Leaf>)
    ensures First(First(a) + b) == First(a + b)
  {}

  /** The rows the program returns: at most 100, the first in document order. */
  method DiscoverSignals(payload: Json) returns (leaves: seq<Leaf>)
    ensures leaves == Discovered(payload)
    ensures |leaves| <= MAX_ROWS
  {
    var search := new Discovery();
    search.Visit(payload, [], 0);
    leaves := search.found;
    assert [] + Leaves(payload, [], 0) == Leaves(payload, [], 0);
  }

  function Discovered(payload: Json): seq<Leaf> {
    First(Leaves(payload, [], 0))
  }

  /* ---- Where a leaf sits ---- */

  /** The value a path leads to. */
  function At(payload: Json, path: Path): Option<Json>
    decreases |path|
  {
    if path == [] then Some(payload)
    else if !payload.Obj? || Field(payload.fields, path[0]).None? then None
    else At(Field(payload.fields, path[0]).value, path[1..])
  }

  /** Following one path and then another is following both: nothing is read behind a key that is not there. */
  lemma {:induction false} AtComposes(payload: Json, a: Path, b: Path)
    ensures At(payload, []) == Some(payload)
    ensures At(payload, a + b) == match At(payload, a) case None => None case Some(v) => At(v, b)
    decreases |a|
  {
    if a == [] {
      assert a + b == b;
    } else if payload.Obj? && Field(payload.fields, a[0]).Some? {
      assert (a + b)[1..] == a[1..] + b;
      AtComposes(Field(payload.fields, a[0]).value, a[1..], b);
    }
  }

  predicate DistinctKeys(fields: Fields) {
    forall i, j :: 0 <= i < j < |fields| ==> fields[i].0 != fields[j].0
  }

  /** Objects do not repeat a key, at any depth. */
  predicate WellFormed(v: Json)
    decreases v
  {
    v.Obj? ==> DistinctKeys(v.fields) && forall i :: 0 <= i < |v.fields| ==> WellFormed(v.fields[i].1)
  }

  /** The leaf's path extends the given one and leads from the value to the leaf's value. */
  predicate LeadsTo(value: Json, path: Path, leaf: Leaf) {
    && |path| <= |leaf.path| && leaf.path[..|path|] == path
    && At(value, leaf.path[|path|..]) == Some(leaf.value)
    && Scalar(leaf.value)
  }

  lemma {:induction false} FieldAt(fields: Fields, i: nat)
    requires DistinctKeys(fields) && i < |fields|
    ensures Field(fields, fields[i].0) == Some(fields[i].1)
  {
    if i > 0 {
      var rest := fields[1..];
      assert forall k :: 0 <= k < |rest| ==> rest[k] == fields[k + 1];
      FieldAt(rest, i - 1);
    }
  }

  lemma {:induction false} LeavesLead(value: Json, path: Path, depth: nat)
    requires WellFormed(value)
    ensures forall i :: 0 <= i < |Leaves(value, path, depth)| ==> LeadsTo(value, path, Leaves(value, path, depth)[i])
    decreases value, 1
  {
    if depth <= MAX_DEPTH && value.Obj? && !ValueObject(value) {
      ChildrenLead(value, |value.fields|, path, depth);
    } else if depth <= MAX_DEPTH && ValueObject(value) {
      assert (path + ["value"])[|path|..] == ["value"];
      assert ["value"][1..] == [];
    }
  }

  /** The leaf lies below one of the first n entries. */
  predicate UnderChild(record: Json, n: nat, path: Path, leaf: Leaf)
    requires record.Obj? && n <= |record.fields|
  {
    LeadsTo(record, path, leaf) && |leaf.path| > |path| && exists j :: 0 <= j < n && record.fields[j].0 == leaf.path[|path|]
  }

  lemma {:induction false} ChildrenLead(record: Json, n: nat, path: Path, depth: nat)
    requires record.Obj? && n <= |record.fields| && WellFormed(record)
    ensures forall i :: 0 <= i < |ChildLeaves(record, n, path, depth)| ==>
              UnderChild(record, n, path, ChildLeaves(record, n, path, depth)[i])
    decreases record, 0, n
  {
    hide LeadsTo;
    if n > 0 {
      ChildrenLead(record, n - 1, path, depth);
      var (key, child) := record.fields[n - 1];
      var below := path + [key];
      LeavesLead(child, below, depth + 1);
      FieldAt(record.fields, n - 1);
      var more := Leaves(child, below, depth + 1);
      forall i | 0 <= i < |more|
        ensures UnderChild(record, n, path, more[i])
      {
        LeadsFromParent(record, n - 1, path, more[i]);
      }
      var before := ChildLeaves(record, n - 1, path, depth);
      forall i | 0 <= i < |before|
        ensures UnderChild(record, n, path, before[i])
      {
        assert UnderChild(record, n - 1, path, before[i]);
      }
    }
  }

  lemma LeadsFromParent(record: Json, n: nat, path: Path, leaf: Leaf)
    requires record.Obj? && n < |record.fields| && Field(record.fields, record.fields[n].0) == Some(record.fields[n].1)
    requires LeadsTo(record.fields[n].1, path + [record.fields[n].0], leaf)
    ensures LeadsTo(record, path, leaf) && |leaf.path| > |path| && leaf.path[|path|] == record.fields[n].0
  {}

  predicate DistinctPaths(leaves: seq<Leaf>) {
    forall i, j :: 0 <= i < j < |leaves| ==> leaves[i].path != leaves[j].path
  }

  lemma {:induction false} LeavesDiffer(value: Json, path: Path, depth: nat)
    requires WellFormed(value)
    ensures DistinctPaths(Leaves(value, path, depth))
    decreases value, 1
  {
    if depth <= MAX_DEPTH && value.Obj? && !ValueObject(value) {
      ChildrenDiffer(value, |value.fields|, path, depth);
    }
  }

  lemma {:induction false} ChildrenDiffer(record: Json, n: nat, path: Path, depth: nat)
    requires record.Obj? && n <= |record.fields| && WellFormed(record)
    ensures DistinctPaths(ChildLeaves(record, n, path, depth))
    decreases record, 0, n
  {
    if n > 0 {
      ChildrenDiffer(record, n - 1, path, depth);
      ChildrenLead(record, n - 1, path, depth);
      var (key, child) := record.fields[n - 1];
      var below := path + [key];
      LeavesDiffer(child, below, depth + 1);
      LeavesLead(child, below, depth + 1);
      var before := ChildLeaves(record, n - 1, path, depth);
      var more := Leaves(child, below, depth + 1);
      forall i, j | 0 <= i < |before| && 0 <= j < |more|
        ensures before[i].path != more[j].path
      {
        assert UnderChild(record, n - 1, path, before[i]) && LeadsTo(child, below, more[j]);
        var k :| 0 <= k < n - 1 && record.fields[k].0 == before[i].path[|path|];
        assert more[j].path[..|below|] == below;
        assert more[j].path[|path|] == key != record.fields[k].0;
      }
    }
  }

  /* ---- Which leaves are found ---- */

  /** Every object passed on the way down is one that is searched, and no key on the way is a forbidden one. */
  ghost predicate Leads(value: Json, rel: Path) {
    forall i :: 0 <= i < |rel| ==>
      && rel[i] !in FORBIDDEN
      && At(value, rel[..i]).Some? && At(value, rel[..i]).value.Obj? && !ValueObject(At(value, rel[..i]).value)
  }

  function NameOf(rel: Path, above: Option<string>): Option<string> {
    if rel == [] then above else Some(rel[|rel| - 1])
  }

  /** A scalar that stands for itself, at most eight levels down. */
  ghost predicate PlainSignal(value: Json, rel: Path, depth: nat, above: Option<string>, leaf: Leaf) {
    && Leads(value, rel) && depth + |rel| <= 8
    && At(value, rel) == Some(leaf.value) && Scalar(leaf.value)
    && leaf.unit == "" && leaf.name == NameOf(rel, above)
  }

  /** The scalar "value" of an object at most eight levels down; its name and unit are those of the object. */
  ghost predicate ValueSignal(value: Json, rel: Path, depth: nat, above: Option<string>, leaf: Leaf) {
    rel != [] && rel[|rel| - 1] == "value" &&
    var parent := rel[..|rel| - 1];
    && Leads(value, parent) && depth + |parent| <= 8
    && At(value, parent).Some? && ValueObject(At(value, parent).value)
    && At(value, rel) == Some(leaf.value) && Scalar(leaf.value)
    && leaf.name == NameOf(parent, above)
    && (match Field(At(value, parent).value.fields, "unit") case Some(Str(s)) => leaf.unit == s case _ => leaf.unit == "")
  }

  ghost predicate IsSignal(value: Json, base: Path, depth: nat, leaf: Leaf) {
    && |base| <= |leaf.path| && leaf.path[..|base|] == base
    && var rel := leaf.path[|base|..];
       PlainSignal(value, rel, depth, Last(base), leaf) || ValueSignal(value, rel, depth, Last(base), leaf)
  }

  /** One step down: what leads on from an object leads on from its child. */
  lemma LeadsDown(value: Json, rel: Path)
    requires rel != [] && value.Obj? && Field(value.fields, rel[0]).Some?
    ensures Leads(value, rel) <==> rel[0] !in FORBIDDEN && !ValueObject(value) && Leads(Field(value.fields, rel[0]).value, rel[1..])
  {
    var child := Field(value.fields, rel[0]).value;
    forall i | 0 < i < |rel| ensures At(value, rel[..i]) == At(child, rel[1..][..i - 1]) {
      assert rel[..i][1..] == rel[1..][..i - 1];
    }
    assert rel[..0] == [] && At(value, []) == Some(value);
    if Leads(value, rel) {
      forall i | 0 <= i < |rel| - 1
        ensures rel[1..][i] !in FORBIDDEN
        ensures At(child, rel[1..][..i]).Some? && At(child, rel[1..][..i]).value.Obj? && !ValueObject(At(child, rel[1..][..i]).value)
      {
        assert rel[1..][i] == rel[i + 1];
        assert At(value, rel[..i + 1]) == At(child, rel[1..][..i]);
      }
    }
    if rel[0] !in FORBIDDEN && !ValueObject(value) && Leads(child, rel[1..]) {
      forall i | 0 <= i < |rel|
        ensures rel[i] !in FORBIDDEN
        ensures At(value, rel[..i]).Some? && At(value, rel[..i]).value.Obj? && !ValueObject(At(value, rel[..i]).value)
      {
        if i > 0 {
          assert rel[1..][i - 1] == rel[i];
          assert At(value, rel[..i]) == At(child, rel[1..][..i - 1]);
        }
      }
    }
  }

  lemma SignalDown(value: Json, base: Path, depth: nat, leaf: Leaf, key: string, child: Json)
    requires value.Obj? && !ValueObject(value) && Field(value.fields, key) == Some(child)
    requires |leaf.path| > |base| && leaf.path[..|base|] == base && leaf.path[|base|] == key
    ensures IsSignal(value, base, depth, leaf) <==> key !in FORBIDDEN && IsSignal(child, base + [key], depth + 1, leaf)
  {
    var rel := leaf.path[|base|..];
    var below := base + [key];
    assert leaf.path[..|below|] == below;
    assert leaf.path[|below|..] == rel[1..];
    assert rel[0] == key && At(value, rel) == At(child, rel[1..]);
    assert NameOf(rel, Last(base)) == NameOf(rel[1..], Last(below));
    LeadsDown(value, rel);
    var parent := rel[..|rel| - 1];
    if parent != [] {
      assert parent[0] == key && parent[1..] == rel[1..][..|rel| - 2];
      assert At(value, parent) == At(child, parent[1..]);
      assert NameOf(parent, Last(base)) == NameOf(parent[1..], Last(below));
      LeadsDown(value, parent);
    }
    hide Leads, At, Field, ValueObject;
    assert PlainSignal(value, rel, depth, Last(base), leaf) <==> key !in FORBIDDEN && PlainSignal(child, rel[1..], depth + 1, Last(below), leaf);
    assert ValueSignal(value, rel, depth, Last(base), leaf) <==> key !in FORBIDDEN && ValueSignal(child, rel[1..], depth + 1, Last(below), leaf);
  }

  /** A leaf below an object lies below one of its entries, and below no other. */
  ghost predicate UnderEntry(record: Json, n: nat, base: Path, depth: nat, leaf: Leaf)
    requires record.Obj? && n <= |record.fields|
  {
    exists j :: 0 <= j < n && record.fields[j].0 !in FORBIDDEN && IsSignal(record.fields[j].1, base + [record.fields[j].0], depth + 1, leaf)
  }

  lemma {:induction false} ChildLeavesExactly(record: Json, n: nat, base: Path, depth: nat, leaf: Leaf)
    requires record.Obj? && n <= |record.fields| && WellFormed(record)
    ensures leaf in ChildLeaves(record, n, base, depth) <==> UnderEntry(record, n, base, depth, leaf)
    decreases record, 0, n
  {
    hide IsSignal;
    if n > 0 {
      ChildLeavesExactly(record, n - 1, base, depth, leaf);
      var entry := record.fields[n - 1];
      LeavesExactly(entry.1, base + [entry.0], depth + 1, leaf);
    }
  }

  lemma AtKey(record: Json, base: Path, depth: nat, leaf: Leaf)
    requires record.Obj? && !ValueObject(record) && IsSignal(record, base, depth, leaf)
    ensures |leaf.path| > |base| && Field(record.fields, leaf.path[|base|]).Some?
  {
    var rel := leaf.path[|base|..];
    assert rel == [] ==> At(record, rel) == Some(record);
    assert |rel| == 1 ==> rel[..0] == [] && At(record, []) == Some(record);
  }

  lemma {:induction false} FieldPosition(fields: Fields, key: string) returns (j: nat)
    requires Field(fields, key).Some?
    ensures j < |fields| && fields[j] == (key, Field(fields, key).value)
  {
    if fields[0].0 == key {
      j := 0;
    } else {
      var k := FieldPosition(fields[1..], key);
      j := k + 1;
    }
  }

  lemma ObjectExactly(record: Json, base: Path, depth: nat, leaf: Leaf)
    requires record.Obj? && !ValueObject(record) && WellFormed(record)
    ensures IsSignal(record, base, depth, leaf) <==> UnderEntry(record, |record.fields|, base, depth, leaf)
  {
    hide ValueObject;
    if IsSignal(record, base, depth, leaf) {
      AtKey(record, base, depth, leaf);
      var key := leaf.path[|base|];
      var j := FieldPosition(record.fields, key);
      SignalDown(record, base, depth, leaf, key, record.fields[j].1);
    }
    if UnderEntry(record, |record.fields|, base, depth, leaf) {
      var j :| 0 <= j < |record.fields| && record.fields[j].0 !in FORBIDDEN
               && IsSignal(record.fields[j].1, base + [record.fields[j].0], depth + 1, leaf);
      var below := base + [record.fields[j].0];
      FieldAt(record.fields, j);
      assert leaf.path[..|below|] == below;
      assert leaf.path[..|base|] == base && leaf.path[|base|] == record.fields[j].0;
      SignalDown(record, base, depth, leaf, record.fields[j].0, record.fields[j].1);
    }
  }

  /** The leaves of a value are exactly the scalars that its paths lead to. */
  lemma {:induction false} LeavesExactly(value: Json, base: Path, depth: nat, leaf: Leaf)
    requires WellFormed(value)
    ensures leaf in Leaves(value, base, depth) <==> IsSignal(value, base, depth, leaf)
    decreases value, 1
  {
    if depth > 8 {
    } else if ValueObject(value) {
      ValueObjectExactly(value, base, depth, leaf);
    } else if value.Obj? {
      hide IsSignal, ValueObject;
      ChildLeavesExactly(value, |value.fields|, base, depth, leaf);
      ObjectExactly(value, base, depth, leaf);
    } else {
      NoObjectExactly(value, base, depth, leaf);
    }
  }

  lemma ValueObjectExactly(value: Json, base: Path, depth: nat, leaf: Leaf)
    requires ValueObject(value) && depth <= 8
    ensures leaf in Leaves(value, base, depth) <==> IsSignal(value, base, depth, leaf)
  {
    var rel := if |base| <= |leaf.path| then leaf.path[|base|..] else [];
    assert rel != [] ==> rel[..0] == [] && (|rel| > 1 ==> rel[..|rel| - 1][..0] == []);
    assert At(value, []) == Some(value);
    if leaf in Leaves(value, base, depth) {
      assert leaf.path[..|base|] == base && rel == ["value"] && rel[..0] == [];
      assert At(value, rel) == Some(leaf.value);
      assert NameOf([], Last(base)) == Last(base);
    }
    if IsSignal(value, base, depth, leaf) {
      assert !PlainSignal(value, rel, depth, Last(base), leaf);
      assert rel[..|rel| - 1] == [];
      assert rel == ["value"];
      assert leaf.path == base + ["value"];
      assert At(value, rel) == Field(value.fields, "value");
    }
  }

  lemma NoObjectExactly(value: Json, base: Path, depth: nat, leaf: Leaf)
    requires !value.Obj? && depth <= 8
    ensures leaf in Leaves(value, base, depth) <==> IsSignal(value, base, depth, leaf)
  {
    var rel := if |base| <= |leaf.path| then leaf.path[|base|..] else [];
    assert rel != [] ==> rel[..0] == [] && (|rel| > 1 ==> rel[..|rel| - 1][..0] == []);
    assert At(value, []) == Some(value);
    assert rel != [] ==> !Leads(value, rel);
    if IsSignal(value, base, depth, leaf) {
      assert rel == [] && leaf.path == base;
    }
  }

  /**
   The search finds exactly the scalars that stand for themselves or are the "value" of an object, at most eight levels
   down and not behind a forbidden key; beyond a hundred it keeps a part of them.
   */
  lemma DiscoveredExactly(payload: Json, leaf: Leaf)
    requires WellFormed(payload)
    ensures leaf in Discovered(payload) ==> IsSignal(payload, [], 0, leaf)
    ensures IsSignal(payload, [], 0, leaf) && leaf !in Discovered(payload) ==> |Discovered(payload)| == 100
  {
    hide IsSignal, Leaves;
    LeavesExactly(payload, [], 0, leaf);
  }

  /** In document order: where the two paths part, the first one takes an earlier entry. */
  ghost predicate Before(value: Json, p: Path, q: Path)
    decreases |p|
  {
    && value.Obj? && p != [] && q != []
    && if p[0] == q[0] then Field(value.fields, p[0]).Some? && Before(Field(value.fields, p[0]).value, p[1..], q[1..])
       else exists i, j :: 0 <= i < j < |value.fields| && value.fields[i].0 == p[0] && value.fields[j].0 == q[0]
  }

  ghost predicate Ordered(value: Json, base: Path, leaves: seq<Leaf>) {
    && (forall i :: 0 <= i < |leaves| ==> |base| <= |leaves[i].path|)
    && forall i, j :: 0 <= i < j < |leaves| ==> Before(value, leaves[i].path[|base|..], leaves[j].path[|base|..])
  }

  lemma {:induction false} LeavesOrdered(value: Json, base: Path, depth: nat)
    requires WellFormed(value)
    ensures Ordered(value, base, Leaves(value, base, depth))
    decreases value, 1
  {
    hide Before;
    if depth <= MAX_DEPTH && value.Obj? && !ValueObject(value) {
      ChildrenOrdered(value, |value.fields|, base, depth);
    }
  }

  lemma {:induction false} ChildrenOrdered(record: Json, n: nat, base: Path, depth: nat)
    requires record.Obj? && n <= |record.fields| && WellFormed(record)
    ensures Ordered(record, base, ChildLeaves(record, n, base, depth))
    decreases record, 0, n
  {
    hide LeadsTo;
    if n > 0 {
      ChildrenOrdered(record, n - 1, base, depth);
      ChildrenLead(record, n - 1, base, depth);
      var (key, child) := record.fields[n - 1];
      var below := base + [key];
      LeavesOrdered(child, below, depth + 1);
      LeavesLead(child, below, depth + 1);
      FieldAt(record.fields, n - 1);
      var before := ChildLeaves(record, n - 1, base, depth);
      var more := Leaves(child, below, depth + 1);
      forall i, j | 0 <= i < j < |more|
        ensures Before(record, more[i].path[|base|..], more[j].path[|base|..])
      {
        BeforeUp(record, n - 1, base, more[i], more[j]);
      }
      forall i, j | 0 <= i < |before| && 0 <= j < |more|
        ensures Before(record, before[i].path[|base|..], more[j].path[|base|..])
      {
        assert UnderChild(record, n - 1, base, before[i]) && LeadsTo(child, below, more[j]);
        BeforeAcross(record, n - 1, base, before[i], more[j]);
      }
      forall i | 0 <= i < |more|
        ensures |base| <= |more[i].path|
      {
        LeadsFromParent(record, n - 1, base, more[i]);
      }
    }
  }

  lemma BeforeUp(record: Json, n: nat, base: Path, x: Leaf, y: Leaf)
    requires record.Obj? && n < |record.fields| && Field(record.fields, record.fields[n].0) == Some(record.fields[n].1)
    requires LeadsTo(record.fields[n].1, base + [record.fields[n].0], x) && LeadsTo(record.fields[n].1, base + [record.fields[n].0], y)
    requires Before(record.fields[n].1, x.path[|base| + 1..], y.path[|base| + 1..])
    ensures Before(record, x.path[|base|..], y.path[|base|..])
  {
    var key := record.fields[n].0;
    assert x.path[..|base| + 1][|base|] == key && y.path[..|base| + 1][|base|] == key;
    assert x.path[|base|..][1..] == x.path[|base| + 1..] && y.path[|base|..][1..] == y.path[|base| + 1..];
  }

  lemma BeforeAcross(record: Json, n: nat, base: Path, x: Leaf, y: Leaf)
    requires record.Obj? && n < |record.fields| && DistinctKeys(record.fields)
    requires UnderChild(record, n, base, x) && LeadsTo(record.fields[n].1, base + [record.fields[n].0], y)
    ensures |base| < |y.path| && Before(record, x.path[|base|..], y.path[|base|..])
  {
    var k :| 0 <= k < n && record.fields[k].0 == x.path[|base|];
    assert y.path[..|base| + 1][|base|] == record.fields[n].0;
  }

  /** The rows are in document order. */
  lemma DiscoveredInOrder(payload: Json, i: nat, j: nat)
    requires WellFormed(payload) && i < j < |Discovered(payload)|
    ensures Before(payload, Discovered(payload)[i].path, Discovered(payload)[j].path)
  {
    hide Before;
    LeavesOrdered(payload, [], 0);
    var leaves := Leaves(payload, [], 0);
    assert leaves[i].path[0..] == leaves[i].path && leaves[j].path[0..] == leaves[j].path;
  }

  /* ---- Rows ---- */

  datatype Kind = Number | Text | Flag

  function KindOf(v: Json): Kind
    requires TypedScalar(v)
  {
    if v.Num? then Number else if v.Str? then Text else Flag
  }

  datatype Row = Row(source: string, kind: Kind, value: Json)

  function RowOf(leaf: Leaf): Row
    requires Scalar(leaf.value)
  {
    Row(Source(leaf.path), KindOf(leaf.value), leaf.value)
  }

  ghost predicate AllScalar(leaves: seq<Leaf>) {
    forall i :: 0 <= i < |leaves| ==> Scalar(leaves[i].value)
  }

  lemma LeavesAreScalar(payload: Json)
    requires WellFormed(payload)
    ensures AllScalar(Discovered(payload))
  {
    LeavesLead(payload, [], 0);
  }

  /** The row that a map from source to row ends up with. */
  function Lookup(leaves: seq<Leaf>, source: string): Option<Leaf> {
    if leaves == [] then None
    else if Source(leaves[|leaves| - 1].path) == source then Some(leaves[|leaves| - 1])
    else Lookup(leaves[..|leaves| - 1], source)
  }

  predicate DistinctSources(leaves: seq<Leaf>) {
    forall i, j :: 0 <= i < j < |leaves| ==> Source(leaves[i].path) != Source(leaves[j].path)
  }

  lemma SourcesTellPaths(a: Path, b: Path)
    requires Source(a) == Source(b) && a != [] && b != []
    ensures a == b
  {
    SourceRoundTrip(a);
    SourceRoundTrip(b);
  }

  /** Every row of a payload has a source of its own. */
  lemma SourcesDiffer(payload: Json)
    requires WellFormed(payload)
    ensures DistinctSources(Discovered(payload))
  {
    LeavesDiffer(payload, [], 0);
    LeavesLead(payload, [], 0);
    var leaves := Leaves(payload, [], 0);
    if payload.Obj? {
      ObjectPathsNotEmpty(payload);
      forall i, j | 0 <= i < j < |leaves|
        ensures Source(leaves[i].path) != Source(leaves[j].path)
      {
        assert leaves[i].path != leaves[j].path;
        if Source(leaves[i].path) == Source(leaves[j].path) {
          SourcesTellPaths(leaves[i].path, leaves[j].path);
        }
      }
    } else {
      assert |leaves| <= 1;
    }
  }

  lemma ObjectPathsNotEmpty(payload: Json)
    requires WellFormed(payload) && payload.Obj?
    ensures forall i :: 0 <= i < |Leaves(payload, [], 0)| ==> Leaves(payload, [], 0)[i].path != []
  {
    if !ValueObject(payload) {
      ChildrenLead(payload, |payload.fields|, [], 0);
      assert forall i :: 0 <= i < |Leaves(payload, [], 0)| ==> UnderChild(payload, |payload.fields|, [], Leaves(payload, [], 0)[i]);
    }
  }

  lemma {:induction false} LookupFinds(leaves: seq<Leaf>, source: string)
    ensures match Lookup(leaves, source)
            case Some(leaf) => leaf in leaves && Source(leaf.path) == source
            case None => forall i :: 0 <= i < |leaves| ==> Source(leaves[i].path) != source
  {
    hide Source;
    if leaves != [] {
      LookupFinds(leaves[..|leaves| - 1], source);
    }
  }

  /** Looking a row up by its source finds that row and no other. */
  lemma NoRowLost(payload: Json, i: nat)
    requires WellFormed(payload) && i < |Discovered(payload)|
    ensures Lookup(Discovered(payload), Source(Discovered(payload)[i].path)) == Some(Discovered(payload)[i])
  {
    hide Source, Discovered;
    var leaves := Discovered(payload);
    SourcesDiffer(payload);
    LookupFinds(leaves, Source(leaves[i].path));
    var found := Lookup(leaves, Source(leaves[i].path));
    if found.Some? {
      var j :| 0 <= j < |leaves| && leaves[j] == found.value;
      OneSource(leaves, i, j);
    }
  }

  lemma OneSource(leaves: seq<Leaf>, i: nat, j: nat)
    requires DistinctSources(leaves) && i < |leaves| && j < |leaves| && Source(leaves[i].path) == Source(leaves[j].path)
    ensures i == j
  {}

  /** Where a source points in a payload: at the payload itself when that is a scalar, else where RFC 6901 says. */
  function Pointed(payload: Json, source: string): Option<Json> {
    if !payload.Obj? then (if source == "/" then Some(payload) else None)
    else if Parse(source).None? then None
    else At(payload, Parse(source).value)
  }

  /** Whatever payload a source is looked up in, the row found holds the value the source points at. */
  lemma LookupReadsPointed(payload: Json, source: string)
    requires WellFormed(payload) && Lookup(Discovered(payload), source).Some?
    ensures Pointed(payload, source) == Some(Lookup(Discovered(payload), source).value.value)
  {
    hide Source, Parse, Leaves;
    var leaves := Discovered(payload);
    LookupFinds(leaves, source);
    var leaf := Lookup(leaves, source).value;
    LeavesLead(payload, [], 0);
    var i :| 0 <= i < |leaves| && leaves[i] == leaf;
    assert leaf == Leaves(payload, [], 0)[i];
    assert leaf.path[0..] == leaf.path;
    if payload.Obj? {
      ObjectPathsNotEmpty(payload);
      SourceRoundTrip(leaf.path);
    } else {
      ScalarHasOneLeaf(payload);
    }
  }

  lemma ScalarHasOneLeaf(payload: Json)
    requires !payload.Obj?
    ensures forall i :: 0 <= i < |Leaves(payload, [], 0)| ==>
              Leaves(payload, [], 0)[i].path == [] && Leaves(payload, [], 0)[i].value == payload
    ensures Source([]) == "/"
  {}

  /* ---- Choosing signals and reading them back ---- */

  datatype RawSignal = RawSignal(source: string, key: string, name: Option<string>, unit: Option<string>)

  datatype Signal = Signal(key: string, source: string, name: string, unit: string, kind: Kind)

  datatype SignalError = SignalsRequired | SignalInvalid

  predicate SignalKey(k: string) {
    PlainKey(k) && k !in FORBIDDEN
  }

  predicate Blank(c: char) {
    c == ' ' || c == '\t' || c == '\n' || c == '\r'
  }

  function TrimStart(s: string): string {
    if s != [] && Blank(s[0]) then TrimStart(s[1..]) else s
  }

  function TrimEnd(s: string): string {
    if s != [] && Blank(s[|s| - 1]) then TrimEnd(s[..|s| - 1]) else s
  }

  function Trim(s: string): string {
    TrimEnd(TrimStart(s))
  }

  predicate Acceptable(raw: RawSignal, candidates: seq<Leaf>) {
    && Lookup(candidates, raw.source).Some?
    && SignalKey(raw.key)
    && raw.name.Some? && Trim(raw.name.value) != "" && |raw.name.value| <= 128
    && raw.unit.Some? && |raw.unit.value| <= 32
  }

  lemma AcceptableFinds(raw: RawSignal, candidates: seq<Leaf>)
    requires Acceptable(raw, candidates)
    ensures Lookup(candidates, raw.source).Some? && raw.name.Some? && raw.unit.Some?
  {}

  /** The signal a chosen row becomes. */
  predicate Chosen(signal: Signal, raw: RawSignal, candidates: seq<Leaf>) {
    && Acceptable(raw, candidates)
    && var found := Lookup(candidates, raw.source).value;
       && TypedScalar(found.value)
       && signal == Signal(raw.key, Source(found.path), Trim(raw.name.value), raw.unit.value, KindOf(found.value))
  }

  /** Accepts exactly the lists of 1 to 100 good choices with distinct keys. */
  method ClassifySignals(input: seq<RawSignal>, payload: Json) returns (r: Result<seq<Signal>, SignalError>)
    requires WellFormed(payload)
    ensures input == [] || |input| > 100 ==> r == Err(SignalsRequired)
    ensures 0 < |input| <= 100 ==>
              (r.Ok? <==> && (forall raw :: raw in input ==> GoodChoice(raw, payload))
                          && forall i, j :: 0 <= i < j < |input| ==> input[i].key != input[j].key)
    ensures 0 < |input| <= 100 && r.Err? ==> r.error == SignalInvalid
    ensures r.Ok? ==> |r.value| == |input| && forall i :: 0 <= i < |input| ==> Chosen(r.value[i], input[i], Discovered(payload))
  {
    hide Discovered, Lookup, Source, SignalKey, Trim, GoodChoice, Acceptable;
    if input == [] || |input| > 100 {
      return Err(SignalsRequired);
    }
    var candidates := DiscoverSignals(payload);
    LeavesAreScalar(payload);
    var keys: set<string> := {};
    var signals: seq<Signal> := [];
    for i := 0 to |input|
      invariant keys == set k | 0 <= k < i :: input[k].key
      invariant forall k :: 0 <= k < i ==> GoodChoice(input[k], payload)
      invariant forall k, j :: 0 <= k < j < i ==> input[k].key != input[j].key
      invariant |signals| == i
      invariant forall k :: 0 <= k < i ==> Chosen(signals[k], input[k], candidates)
    {
      var raw := input[i];
      assert raw in input;
      AcceptableExactly(raw, payload);
      if !Acceptable(raw, candidates) {
        return Err(SignalInvalid);
      }
      if raw.key in keys {
        return Err(SignalInvalid);
      }
      keys := keys + {raw.key};
      AcceptableFinds(raw, candidates);
      var found := Lookup(candidates, raw.source).value;
      LookupFinds(candidates, raw.source);
      signals := signals + [Signal(raw.key, Source(found.path), Trim(raw.name.value), raw.unit.value, KindOf(found.value))];
    }
    r := Ok(signals);
  }

  datatype Measurement = Measurement(key: string, value: Json, unit: string, name: string)

  /** What one signal measures in a later payload: its row's value, if the row is still there with the same type. */
  function Measured(payload: Json, s: Signal): seq<Measurement> {
    var current := Lookup(Discovered(payload), s.source);
    if current.Some? && TypedScalar(current.value.value) && KindOf(current.value.value) == s.kind
    then [Measurement(s.key, current.value.value, s.unit, s.name)] else []
  }

  /** The measurements of a later payload, in the order of the signals. */
  function Measurements(payload: Json, signals: seq<Signal>): seq<Measurement> {
    if signals == [] then [] else Measured(payload, signals[0]) + Measurements(payload, signals[1..])
  }

  /** Read back from the payload they were chosen in, all signals are there, each with the value its row had. */
  lemma {:induction false} ReadsBackAll(payload: Json, input: seq<RawSignal>, signals: seq<Signal>)
    requires WellFormed(payload) && |input| == |signals|
    requires forall i :: 0 <= i < |input| ==> Chosen(signals[i], input[i], Discovered(payload))
    ensures |Measurements(payload, signals)| == |signals|
    ensures forall i :: 0 <= i < |signals| ==>
              && Lookup(Discovered(payload), input[i].source).Some?
              && var found := Lookup(Discovered(payload), input[i].source).value;
                 Measurements(payload, signals)[i] == Measurement(input[i].key, found.value, signals[i].unit, signals[i].name)
  {
    hide Discovered, Lookup, Source, Acceptable;
    if signals != [] {
      forall i | 0 <= i < |signals| - 1
        ensures Chosen(signals[1..][i], input[1..][i], Discovered(payload))
      {
        assert Chosen(signals[i + 1], input[i + 1], Discovered(payload));
      }
      ReadsBackAll(payload, input[1..], signals[1..]);
      ChosenAgain(payload, input[0], signals[0]);
      assert Chosen(signals[0], input[0], Discovered(payload));
      ChosenExists(signals[0], input[0], Discovered(payload));
      assert forall i :: 1 <= i < |signals| ==> signals[i] == signals[1..][i - 1] && input[i] == input[1..][i - 1];
    }
  }

  lemma ChosenExists(signal: Signal, raw: RawSignal, candidates: seq<Leaf>)
    requires Chosen(signal, raw, candidates)
    ensures Lookup(candidates, raw.source).Some?
  {}

  lemma ChosenAgain(payload: Json, raw: RawSignal, signal: Signal)
    requires Chosen(signal, raw, Discovered(payload))
    ensures Lookup(Discovered(payload), signal.source) == Lookup(Discovered(payload), raw.source)
  {
    hide Discovered, Source, SignalKey, Trim;
    LookupFinds(Discovered(payload), raw.source);
  }

  /* ---- What choosing and reading come to ---- */

  ghost predicate AllBlank(s: string) {
    forall i :: 0 <= i < |s| ==> s[i] in " \t\r\n"
  }

  /** The text without the blanks around it. */
  ghost predicate Within(s: string, t: string) {
    && (exists a, b :: s == a + t + b && AllBlank(a) && AllBlank(b))
    && (t != "" ==> t[0] !in " \t\r\n" && t[|t| - 1] !in " \t\r\n")
  }

  lemma {:induction false} TrimStartExactly(s: string) returns (a: string)
    ensures s == a + TrimStart(s) && AllBlank(a)
    ensures TrimStart(s) != "" ==> !Blank(TrimStart(s)[0])
  {
    a := "";
    if s != [] && Blank(s[0]) {
      var rest := TrimStartExactly(s[1..]);
      a := [s[0]] + rest;
      assert s == [s[0]] + s[1..];
    }
  }

  lemma {:induction false} TrimEndExactly(s: string) returns (b: string)
    ensures s == TrimEnd(s) + b && AllBlank(b)
    ensures TrimEnd(s) != "" ==> !Blank(TrimEnd(s)[|TrimEnd(s)| - 1])
  {
    b := "";
    if s != [] && Blank(s[|s| - 1]) {
      var rest := TrimEndExactly(s[..|s| - 1]);
      b := rest + [s[|s| - 1]];
      assert s == s[..|s| - 1] + [s[|s| - 1]];
    }
  }

  lemma TrimExactly(s: string)
    ensures Within(s, Trim(s))
    ensures Trim(s) == "" <==> AllBlank(s)
  {
    var a := TrimStartExactly(s);
    var b := TrimEndExactly(TrimStart(s));
    assert s == a + Trim(s) + b;
    if Trim(s) != "" {
      assert TrimStart(s)[0] == Trim(s)[0];
      assert s[|a|] == Trim(s)[0];
    }
  }

  /** The choice names a row of the payload, a plain key that no object inherits, a name with something in it, and a unit. */
  ghost predicate GoodChoice(raw: RawSignal, payload: Json) {
    && (exists leaf :: leaf in Discovered(payload) && Source(leaf.path) == raw.source)
    && PlainKey(raw.key) && raw.key !in ["__proto__", "constructor", "prototype"]
    && (match raw.name case None => false case Some(name) => |name| <= 128 && !AllBlank(name))
    && (match raw.unit case None => false case Some(unit) => |unit| <= 32)
  }

  lemma LookupExactly(payload: Json, source: string, leaf: Leaf)
    requires WellFormed(payload)
    ensures Lookup(Discovered(payload), source) == Some(leaf) <==> leaf in Discovered(payload) && Source(leaf.path) == source
  {
    hide Discovered, Source, Lookup, DistinctSources;
    LookupFinds(Discovered(payload), source);
    if leaf in Discovered(payload) && Source(leaf.path) == source {
      var i :| 0 <= i < |Discovered(payload)| && Discovered(payload)[i] == leaf;
      NoRowLost(payload, i);
    }
  }

  lemma AcceptableExactly(raw: RawSignal, payload: Json)
    requires WellFormed(payload)
    ensures Acceptable(raw, Discovered(payload)) <==> GoodChoice(raw, payload)
  {
    hide Discovered, Lookup, Source, PlainKey, Trim, AllBlank;
    if raw.name.Some? {
      TrimExactly(raw.name.value);
    }
    forall leaf
      ensures Lookup(Discovered(payload), raw.source) == Some(leaf) <==> leaf in Discovered(payload) && Source(leaf.path) == raw.source
    {
      LookupExactly(payload, raw.source, leaf);
    }
  }

  /** Two values are of one type: numbers, texts, or Booleans. */
  ghost predicate SameType(v: Json, kind: Kind) {
    match v
    case Num(_) => kind == Number
    case Str(_) => kind == Kind.Text
    case Bool(_) => kind == Flag
    case _ => false
  }

  /** The signal a good choice becomes: the row's source and type, and the name without the blanks around it. */
  lemma ChosenExactly(signal: Signal, raw: RawSignal, payload: Json)
    requires WellFormed(payload) && Chosen(signal, raw, Discovered(payload))
    ensures GoodChoice(raw, payload)
    ensures exists leaf :: leaf in Discovered(payload) && Source(leaf.path) == raw.source == signal.source && SameType(leaf.value, signal.kind)
    ensures signal.key == raw.key && Some(signal.unit) == raw.unit && Within(raw.name.value, signal.name)
  {
    hide Discovered, Lookup, Source, Within, GoodChoice, SignalKey;
    AcceptableExactly(raw, payload);
    LookupExactly(payload, raw.source, Lookup(Discovered(payload), raw.source).value);
    TrimExactly(raw.name.value);
  }

  /** What a signal measures in a payload: the value of the row with its source, if that still has the signal's type. */
  ghost predicate MeasuredAs(payload: Json, s: Signal, m: Measurement) {
    && (exists leaf :: leaf in Discovered(payload) && Source(leaf.path) == s.source && SameType(leaf.value, s.kind) && m.value == leaf.value)
    && m.key == s.key && m.unit == s.unit && m.name == s.name
  }

  /** The current row of a signal measures it exactly when it has the signal's type. */
  lemma OneMeasured(payload: Json, s: Signal, m: Measurement)
    requires WellFormed(payload)
    ensures m in Measured(payload, s) <==> MeasuredAs(payload, s, m)
    ensures |Measured(payload, s)| <= 1
  {
    hide Discovered, Lookup, Source;
    forall leaf
      ensures Lookup(Discovered(payload), s.source) == Some(leaf) <==> leaf in Discovered(payload) && Source(leaf.path) == s.source
    {
      LookupExactly(payload, s.source, leaf);
    }
  }

  lemma {:induction false} MeasurementsSplit(payload: Json, a: seq<Signal>, b: seq<Signal>)
    ensures Measurements(payload, a + b) == Measurements(payload, a) + Measurements(payload, b)
  {
    hide Measured;
    if a == [] {
      assert a + b == b;
    } else {
      assert (a + b)[1..] == a[1..] + b;
      MeasurementsSplit(payload, a[1..], b);
    }
  }

  /** In the order of the signals, each contributes what it measures in a later payload, and nothing when it measures nothing. */
  lemma MeasurementsExactly(payload: Json, before: seq<Signal>, s: Signal, after: seq<Signal>) returns (here: seq<Measurement>)
    requires WellFormed(payload)
    ensures Measurements(payload, before + [s] + after) == Measurements(payload, before) + here + Measurements(payload, after)
    ensures |here| <= 1 && forall m :: m in here <==> MeasuredAs(payload, s, m)
  {
    hide Measured, MeasuredAs;
    here := Measured(payload, s);
    MeasurementsSplit(payload, before + [s], after);
    MeasurementsSplit(payload, before, [s]);
    assert Measurements(payload, [s][1..]) == [];
    assert Measurements(payload, [s]) == here + [];
    forall m
      ensures m in here <==> MeasuredAs(payload, s, m)
    {
      OneMeasured(payload, s, m);
    }
    OneMeasured(payload, s, Measurement(s.key, Null, s.unit, s.name));
  }
}
