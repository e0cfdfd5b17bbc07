/** What filtering twice keeps, and what an accepted selection is sure to export. */
module FilterLaws {
  import opened JsonData
  import opened Text
  import opened Wrappers
  import opened AccessPolicy
  import opened PayloadFilter

  predicate HasKey(fields: Fields, key: string) {
    exists i :: 0 <= i < |fields| && fields[i].0 == key
  }

  /** All keys of the fields are among the given names. */
  predicate KeysIn(fields: Fields, names: iset<string>) {
    forall i :: 0 <= i < |fields| ==> fields[i].0 in names
  }

  lemma {:induction false} FieldConcat(a: Fields, b: Fields, key: string)
    ensures Field(a + b, key) == if Field(a, key).Some? then Field(a, key) else Field(b, key)
  {
    if a == [] {
      assert a + b == b;
    } else {
      assert (a + b)[1..] == a[1..] + b;
      FieldConcat(a[1..], b, key);
    }
  }

  lemma {:induction false} FieldAbsent(fields: Fields, key: string, names: iset<string>)
    requires KeysIn(fields, names) && key !in names
    ensures Field(fields, key) == None
  {
    if fields != [] {
      FieldAbsent(fields[1..], key, names);
    }
  }

  lemma {:induction false} PickKeys(fields: Fields, keys: seq<string>, keep: Json -> bool, names: iset<string>)
    requires forall i :: 0 <= i < |keys| ==> keys[i] in names
    ensures KeysIn(Pick(fields, keys, keep), names)
  {
    if keys != [] {
      PickKeys(fields, keys[..|keys| - 1], keep, names);
    }
  }

  predicate DistinctKeys(keys: seq<string>) {
    forall i, j :: 0 <= i < j < |keys| ==> keys[i] != keys[j]
  }

  /** A picked field is found again exactly when it was kept. */
  lemma {:induction false} FieldPick(fields: Fields, keys: seq<string>, keep: Json -> bool, i: nat)
    requires DistinctKeys(keys) && i < |keys|
    ensures var v := Field(fields, keys[i]);
            Field(Pick(fields, keys, keep), keys[i]) == if v.Some? && keep(v.value) then v else None
  {
    var last := |keys| - 1;
    var before := Pick(fields, keys[..last], keep);
    var v := Field(fields, keys[last]);
    var added := if v.Some? && keep(v.value) then [(keys[last], v.value)] else [];
    FieldConcat(before, added, keys[i]);
    if i < last {
      FieldPick(fields, keys[..last], keep, i);
      assert keys[..last][i] == keys[i];
    } else {
      var names := iset k | k in keys[..last];
      PickKeys(fields, keys[..last], keep, names);
      FieldAbsent(before, keys[last], names);
    }
  }

  /** Picking again from fields that agree on the kept names picks the same. */
  lemma {:induction false} PickAgain(fields: Fields, out: Fields, keys: seq<string>, keep: Json -> bool)
    requires forall i :: 0 <= i < |keys| ==>
                           var v := Field(fields, keys[i]);
                           Field(out, keys[i]) == if v.Some? && keep(v.value) then v else None
    ensures Pick(out, keys, keep) == Pick(fields, keys, keep)
  {
    if keys != [] {
      var last := |keys| - 1;
      forall i | 0 <= i < last
        ensures keys[..last][i] == keys[i]
      {}
      PickAgain(fields, out, keys[..last], keep);
      assert Field(out, keys[last]) == if Field(fields, keys[last]).Some? && keep(Field(fields, keys[last]).value) then Field(fields, keys[last]) else None;
    }
  }

  /* ---- The cells ---- */

  lemma DescribedAgain(fields: Fields, v: Json)
    ensures Described([("value", v)] + Described(fields)) == Described(fields)
  {
    var d := Described(fields);
    hide Take128, PlainKey;
    TextOf(fields, v, "unit");
    TextOf(fields, v, "label");
    TextOf(fields, v, "semanticKey");
    assert forall s :: Take128(Take128(s)) == Take128(s) by { TakeTwice(); }
    var unit := OptionalText(fields, "unit");
    var caption := OptionalText(fields, "label");
    var semantic := OptionalText(fields, "semanticKey");
    var again := [("value", v)] + d;
    assert OptionalText(again, "unit") == unit;
    assert OptionalText(again, "label") == if caption.Some? then Some(Take128(caption.value)) else None;
    assert OptionalText(again, "semanticKey") == if semantic.Some? && PlainKey(semantic.value) then semantic else None;
  }

  lemma TakeTwice()
    ensures forall s :: Take128(Take128(s)) == Take128(s)
  {}

  /** The three described fields sit at known positions. */
  lemma TextOf(fields: Fields, v: Json, key: string)
    requires key in {"unit", "label", "semanticKey"}
    ensures var d := Described(fields);
            var text := OptionalText(fields, key);
            OptionalText([("value", v)] + d, key) ==
            if text.None? then None
            else if key == "label" then Some(Take128(text.value))
            else if key == "semanticKey" && !PlainKey(text.value) then None
            else text
  {
    hide Take128, PlainKey;
    var unit := OptionalText(fields, "unit");
    var caption := OptionalText(fields, "label");
    var semantic := OptionalText(fields, "semanticKey");
    var first := if unit.Some? then [("unit", Str(unit.value))] else [];
    var second := if caption.Some? then [("label", Str(Take128(caption.value)))] else [];
    var third := if semantic.Some? && PlainKey(semantic.value) then [("semanticKey", Str(semantic.value))] else [];
    FieldConcat([("value", v)], first + second + third, key);
    FieldConcat(first + second, third, key);
    FieldConcat(first, second, key);
  }

  /** A rebuilt measurement is rebuilt as itself. */
  lemma CellAgain(v: Json)
    requires Cell(v).Some?
    ensures Cell(Cell(v).value) == Cell(v)
  {
    hide Described;
    if !Scalar(v) {
      var inner := Field(v.fields, "value").value;
      DescribedAgain(v.fields, inner);
      FieldConcat([("value", inner)], Described(v.fields), "value");
    }
  }

  lemma {:induction false} MeasuredAgain(entries: Fields, a: iset<string>, b: iset<string>)
    ensures Measured(Measured(entries, a), b) == Measured(entries, a * b)
  {
    hide MeasurementOpen, Cell;
    if entries != [] {
      var rest := entries[..|entries| - 1];
      var (k, v) := entries[|entries| - 1];
      MeasuredAgain(rest, a, b);
      if MeasurementOpen(k) && k in a && Cell(v).Some? {
        var out := Measured(entries, a);
        assert out[..|out| - 1] == Measured(rest, a);
        CellAgain(v);
      } else {
        assert Measured(entries, a) == Measured(rest, a);
      }
    }
  }

  /* ---- Flat telemetry ---- */

  lemma {:induction false} FlatConcat(x: Fields, y: Fields, a: iset<string>)
    ensures Flat(x + y, a) == Flat(x, a) + Flat(y, a)
  {
    hide FlatOpen, Scalar;
    if y == [] {
      assert x + y == x;
    } else {
      assert (x + y)[..|x + y| - 1] == x + y[..|y| - 1];
      FlatConcat(x, y[..|y| - 1], a);
    }
  }

  lemma {:induction false} FlatAgain(entries: Fields, a: iset<string>, b: iset<string>)
    ensures Flat(Flat(entries, a), b) == Flat(entries, a * b)
    ensures KeysIn(Flat(entries, a), iset k | FlatOpen(k))
  {
    hide FlatOpen, Scalar;
    if entries != [] {
      var rest := entries[..|entries| - 1];
      FlatAgain(rest, a, b);
      var (k, v) := entries[|entries| - 1];
      var added: Fields := if FlatOpen(k) && Scalar(v) && k in a then [(k, v)] else [];
      assert Flat(entries, a) == Flat(rest, a) + added;
      FlatConcat(Flat(rest, a), added, b);
      if added != [] {
        assert added[..0] == [];
        assert Flat(added, b) == if k in b then added else [];
      }
    }
  }

  lemma {:induction false} FlatNone(entries: Fields, names: iset<string>, a: iset<string>)
    requires KeysIn(entries, names) && forall k :: k in names ==> !FlatOpen(k)
    ensures Flat(entries, a) == []
  {
    hide FlatOpen;
    if entries != [] {
      FlatNone(entries[..|entries| - 1], names, a);
    }
  }

  /* ---- Places ---- */

  lemma CoordinatesDiffer()
    ensures DistinctKeys(COORDINATES)
    ensures forall i :: 0 <= i < |COORDINATES| ==> COORDINATES[i] != "type" && COORDINATES[i] != "coordinates" && COORDINATES[i] != "crs"
  {}

  lemma CleanAgain(p: Fields)
    ensures Clean(Clean(p)) == Clean(p)
  {
    hide PointCoordinates;
    var picked := Pick(p, COORDINATES, FiniteNumber);
    var point := Clean(p)[|picked|..];
    var pointNames := iset{"type", "coordinates", "crs"};
    var coordinateNames := iset k | k in COORDINATES;
    CoordinatesDiffer();
    assert Clean(p) == picked + point;
    assert KeysIn(point, pointNames);
    forall i | 0 <= i < |COORDINATES|
      ensures var v := Field(p, COORDINATES[i]);
              Field(Clean(p), COORDINATES[i]) == if v.Some? && FiniteNumber(v.value) then v else None
    {
      FieldPick(p, COORDINATES, FiniteNumber, i);
      FieldConcat(picked, point, COORDINATES[i]);
      FieldAbsent(point, COORDINATES[i], pointNames);
    }
    PickAgain(p, Clean(p), COORDINATES, FiniteNumber);
    PickKeys(p, COORDINATES, FiniteNumber, coordinateNames);
    PointAgain(p, picked, point, coordinateNames);
  }

  lemma PointAgain(p: Fields, picked: Fields, point: Fields, names: iset<string>)
    requires KeysIn(picked, names) && "type" !in names && "coordinates" !in names
    requires point == if Field(p, "type") == Some(Str("Point")) && PointCoordinates(Field(p, "coordinates"))
                      then [("type", Str("Point")), ("coordinates", Field(p, "coordinates").value), ("crs", Str("EPSG:4326"))]
                      else []
    ensures var c := picked + point;
            point == if Field(c, "type") == Some(Str("Point")) && PointCoordinates(Field(c, "coordinates"))
                     then [("type", Str("Point")), ("coordinates", Field(c, "coordinates").value), ("crs", Str("EPSG:4326"))]
                     else []
  {
    FieldAbsent(picked, "type", names);
    FieldAbsent(picked, "coordinates", names);
    FieldConcat(picked, point, "type");
    FieldConcat(picked, point, "coordinates");
  }

  /** What a place becomes, as a field of the output. */
  function PlaceField(v: Option<Json>): Option<Json> {
    var p := Place(v);
    if p.Some? then Some(Obj(p.value)) else None
  }

  lemma PlaceAgain(v: Option<Json>)
    ensures PlaceField(PlaceField(v)) == PlaceField(v)
  {
    hide Clean;
    if v.Some? && v.value.Obj? {
      CleanAgain(v.value.fields);
    }
    if v.Some? && v.value.Arr? {
      assert Clean([]) == [] by { CleanNothing(); }
    }
  }

  lemma CleanNothing()
    ensures Clean([]) == []
  {
    PickNothing(COORDINATES, FiniteNumber);
  }

  lemma {:induction false} PickNothing(keys: seq<string>, keep: Json -> bool)
    ensures Pick([], keys, keep) == []
  {
    if keys != [] {
      PickNothing(keys[..|keys| - 1], keep);
    }
  }

  lemma {:induction false} PlacesKeys(fields: Fields, keys: seq<string>, names: iset<string>)
    requires forall i :: 0 <= i < |keys| ==> keys[i] in names
    ensures KeysIn(Places(fields, keys), names)
  {
    hide Place;
    if keys != [] {
      PlacesKeys(fields, keys[..|keys| - 1], names);
    }
  }

  lemma {:induction false} FieldPlaces(fields: Fields, keys: seq<string>, i: nat)
    requires DistinctKeys(keys) && i < |keys|
    ensures Field(Places(fields, keys), keys[i]) == PlaceField(Field(fields, keys[i]))
  {
    hide Place;
    var last := |keys| - 1;
    var before := Places(fields, keys[..last]);
    var p := Place(Field(fields, keys[last]));
    var added := if p.Some? then [(keys[last], Obj(p.value))] else [];
    FieldConcat(before, added, keys[i]);
    if i < last {
      FieldPlaces(fields, keys[..last], i);
      assert keys[..last][i] == keys[i];
    } else {
      var names := iset k | k in keys[..last];
      PlacesKeys(fields, keys[..last], names);
      FieldAbsent(before, keys[last], names);
    }
  }

  lemma {:induction false} PlacesAgain(fields: Fields, out: Fields, keys: seq<string>)
    requires forall i :: 0 <= i < |keys| ==> Field(out, keys[i]) == PlaceField(Field(fields, keys[i]))
    ensures Places(out, keys) == Places(fields, keys)
  {
    hide Place;
    if keys != [] {
      var last := |keys| - 1;
      forall i | 0 <= i < last
        ensures keys[..last][i] == keys[i]
      {}
      PlacesAgain(fields, out, keys[..last]);
      assert Field(out, keys[last]) == PlaceField(Field(fields, keys[last]));
      PlaceAgain(Field(fields, keys[last]));
    }
  }

  /* ---- The whole payload ---- */

  ghost function BaseNames(): iset<string> {
    iset{"schema", "assetId", "machineName", "sequence", "observedAt"}
  }

  ghost function PlaceNames(): iset<string> {
    iset{"position", "location", "gps"}
  }

  ghost function BodyNames(): iset<string> {
    (iset k | FlatOpen(k)) + iset{"measurements"}
  }

  lemma BaseDiffer()
    ensures DistinctKeys(BASE) && forall i :: 0 <= i < |BASE| ==> BASE[i] in BaseNames()
  {}

  lemma PlacesDiffer()
    ensures DistinctKeys(PLACES) && forall i :: 0 <= i < |PLACES| ==> PLACES[i] in PlaceNames()
  {}

  /** Names of other parts of the payload are never flat measurements. */
  lemma FlatApart(k: string)
    requires FlatOpen(k)
    ensures k !in BaseNames() && k !in PlaceNames()
    ensures k !in iset{"simulation", "measurements", "encrypted", "ciphertext", "cipherText"}
  {}

  /** Each part of the rebuilt payload uses its own names. */
  lemma PartKeys(fields: Fields, a: iset<string>, located: bool)
    ensures KeysIn(Pick(fields, BASE, StringOrNumber), BaseNames())
    ensures KeysIn(Simulation(fields), iset{"simulation"})
    ensures KeysIn(Body(fields, a), BodyNames())
    ensures KeysIn(Tail(fields, located), PlaceNames())
  {
    hide FlatOpen, BaseNames, PlaceNames, Pick, Places, Measured;
    BaseDiffer();
    PlacesDiffer();
    PickKeys(fields, BASE, StringOrNumber, BaseNames());
    PlacesKeys(fields, PLACES, PlaceNames());
    FlatAgain(fields, a, a);
  }

  /** A field of the rebuilt payload is a field of the first part that has it. */
  lemma FieldOfParts(fields: Fields, a: iset<string>, located: bool, key: string)
    ensures var base := Field(Pick(fields, BASE, StringOrNumber), key);
            var simulation := Field(Simulation(fields), key);
            var body := Field(Body(fields, a), key);
            Field(Rebuilt(fields, a, located), key) ==
            if base.Some? then base else if simulation.Some? then simulation else if body.Some? then body
            else Field(Tail(fields, located), key)
  {
    hide Pick, Simulation, Body, Tail, Field;
    var base := Pick(fields, BASE, StringOrNumber);
    FieldConcat(base + Simulation(fields) + Body(fields, a), Tail(fields, located), key);
    FieldConcat(base + Simulation(fields), Body(fields, a), key);
    FieldConcat(base, Simulation(fields), key);
  }

  /** The output has a name outside all parts nowhere, and a name of one part only there. */
  lemma FieldOutside(fields: Fields, a: iset<string>, located: bool, key: string)
    ensures key !in BaseNames() ==> Field(Pick(fields, BASE, StringOrNumber), key) == None
    ensures key != "simulation" ==> Field(Simulation(fields), key) == None
    ensures key !in BodyNames() ==> Field(Body(fields, a), key) == None
    ensures key !in PlaceNames() ==> Field(Tail(fields, located), key) == None
  {
    hide Pick, Simulation, Body, Tail, Field, KeysIn, BaseNames, PlaceNames, BodyNames;
    PartKeys(fields, a, located);
    if key !in BaseNames() {
      FieldAbsent(Pick(fields, BASE, StringOrNumber), key, BaseNames());
    }
    if key != "simulation" {
      FieldAbsent(Simulation(fields), key, iset{"simulation"});
    }
    if key !in BodyNames() {
      FieldAbsent(Body(fields, a), key, BodyNames());
    }
    if key !in PlaceNames() {
      FieldAbsent(Tail(fields, located), key, PlaceNames());
    }
  }

  lemma NamesApart()
    ensures "simulation" !in BaseNames() && "simulation" !in BodyNames() && "simulation" !in PlaceNames()
    ensures "measurements" !in BaseNames() && "measurements" !in PlaceNames()
    ensures forall k :: k in BaseNames() ==> k !in BodyNames() && k !in PlaceNames() && k != "simulation"
    ensures forall k :: k in PlaceNames() ==> k !in BodyNames() && k !in BaseNames() && k != "simulation"
    ensures forall k :: k in iset{"encrypted", "ciphertext", "cipherText"} ==>
              k !in BaseNames() && k !in BodyNames() && k !in PlaceNames() && k != "simulation"
  {
    hide FlatOpen;
    forall k | FlatOpen(k)
      ensures k !in BaseNames() && k !in PlaceNames()
      ensures k !in iset{"simulation", "measurements", "encrypted", "ciphertext", "cipherText"}
    {
      FlatApart(k);
    }
  }

  /** A base field leaves the filter exactly when it is a string or a number, and unchanged. */
  lemma BaseFieldsExactly(fields: Fields, a: iset<string>, located: bool, i: nat)
    requires i < |BASE|
    ensures var v := Field(fields, BASE[i]);
            Field(Rebuilt(fields, a, located), BASE[i]) == if v.Some? && StringOrNumber(v.value) then v else None
  {
    hide Body, Tail, Pick, Field, KeysIn, BaseNames, PlaceNames, BodyNames, StringOrNumber, Rebuilt;
    BaseDiffer();
    NamesApart();
    FieldOfParts(fields, a, located, BASE[i]);
    FieldOutside(fields, a, located, BASE[i]);
    FieldPick(fields, BASE, StringOrNumber, i);
  }

  /** A place leaves the filter exactly when location is granted and it is an object, and then cleaned. */
  lemma PlaceFieldsExactly(fields: Fields, a: iset<string>, located: bool, i: nat)
    requires i < |PLACES|
    ensures Field(Rebuilt(fields, a, located), PLACES[i]) == if located then PlaceField(Field(fields, PLACES[i])) else None
  {
    hide Body, Pick, KeysIn, BaseNames, PlaceNames, BodyNames, Places, Rebuilt, PlaceField, Simulation;
    PlacesDiffer();
    NamesApart();
    FieldOfParts(fields, a, located, PLACES[i]);
    FieldOutside(fields, a, located, PLACES[i]);
    FieldPlaces(fields, PLACES, i);
  }

  lemma {:induction false} FlatExactly(entries: Fields, allowed: iset<string>, k: string, v: Json)
    ensures (k, v) in Flat(entries, allowed) <==> (k, v) in entries && FlatOpen(k) && Scalar(v) && k in allowed
  {
    hide FlatOpen, Scalar;
    if entries != [] {
      var rest := entries[..|entries| - 1];
      var last := entries[|entries| - 1];
      FlatExactly(rest, allowed, k, v);
      assert forall e :: e in entries <==> e in rest || e == last;
      assert Flat(entries, allowed) == Flat(rest, allowed) + if FlatOpen(last.0) && Scalar(last.1) && last.0 in allowed then [last] else [];
    }
  }

  lemma {:induction false} FieldIn(fields: Fields, key: string)
    requires Field(fields, key).Some?
    ensures (key, Field(fields, key).value) in fields
  {
    if fields[0].0 != key {
      FieldIn(fields[1..], key);
    }
  }

  /** Nothing else leaves the filter: no other key of the payload, and no measurement that is not allowed. */
  lemma NothingElseLeaves(fields: Fields, a: iset<string>, located: bool, key: string)
    requires Field(Rebuilt(fields, a, located), key).Some?
    ensures || key in BaseNames() || key == "simulation" || (key == "measurements" && MeasurementsOf(fields).Some?)
            || (located && key in PlaceNames())
            || (MeasurementsOf(fields).None? && FlatOpen(key) && key in a && Field(Rebuilt(fields, a, located), key) == Field(Body(fields, a), key))
  {
    hide Pick, Simulation, Places, Measured, Flat, Rebuilt, KeysIn, BaseNames, PlaceNames, FlatOpen;
    FieldOfParts(fields, a, located, key);
    FieldOutside(fields, a, located, key);
    if Field(Body(fields, a), key).Some? && MeasurementsOf(fields).None? {
      FieldIn(Flat(fields, a), key);
      FlatExactly(fields, a, key, Field(Flat(fields, a), key).value);
    }
  }

  lemma HeadAgain(fields: Fields, a: iset<string>, located: bool)
    ensures Head(Rebuilt(fields, a, located)) == Head(fields)
  {
    hide Body, Tail, Pick, Field, BaseNames, PlaceNames, BodyNames, StringOrNumber, Rebuilt;
    var out := Rebuilt(fields, a, located);
    forall i | 0 <= i < |BASE|
      ensures var v := Field(fields, BASE[i]);
              Field(out, BASE[i]) == if v.Some? && StringOrNumber(v.value) then v else None
    {
      BaseFieldsExactly(fields, a, located, i);
    }
    PickAgain(fields, out, BASE, StringOrNumber);
    NamesApart();
    FieldOfParts(fields, a, located, "simulation");
    FieldOutside(fields, a, located, "simulation");
    SimulationAgain(fields, out);
  }

  lemma SimulationAgain(fields: Fields, out: Fields)
    requires Field(out, "simulation") == Field(Simulation(fields), "simulation")
    ensures Simulation(out) == Simulation(fields)
  {}

  lemma TailAgain(fields: Fields, a: iset<string>, located: bool)
    ensures Tail(Rebuilt(fields, a, located), located) == Tail(fields, located)
  {
    hide Places, Rebuilt, PlaceField, Field;
    if located {
      var out := Rebuilt(fields, a, located);
      forall i | 0 <= i < |PLACES|
        ensures Field(out, PLACES[i]) == PlaceField(Field(fields, PLACES[i]))
      {
        PlaceFieldsExactly(fields, a, located, i);
      }
      PlacesAgain(fields, out, PLACES);
    }
  }

  /** The output has measurements exactly when the payload has, and they are the copied ones. */
  lemma MeasurementsAgain(fields: Fields, a: iset<string>, located: bool)
    ensures MeasurementsOf(Rebuilt(fields, a, located)) ==
            if MeasurementsOf(fields).Some? then Some(Measured(MeasurementsOf(fields).value, a)) else None
  {
    hide Pick, KeysIn, BaseNames, PlaceNames, BodyNames, Tail, Simulation, Rebuilt, Measured, Flat;
    NamesApart();
    FieldOfParts(fields, a, located, "measurements");
    FieldOutside(fields, a, located, "measurements");
    if MeasurementsOf(fields).None? {
      FlatAgain(fields, a, a);
      FieldAbsent(Flat(fields, a), "measurements", iset k | FlatOpen(k));
    }
  }

  lemma FlatOfRebuilt(fields: Fields, a: iset<string>, located: bool, b: iset<string>)
    requires MeasurementsOf(fields).None?
    ensures Flat(Rebuilt(fields, a, located), b) == Flat(fields, a * b)
  {
    hide Pick, KeysIn, BaseNames, PlaceNames, BodyNames, Tail, Simulation, Flat, FlatOpen;
    var base := Pick(fields, BASE, StringOrNumber);
    var flat := Flat(fields, a);
    FlatConcat(base + Simulation(fields) + flat, Tail(fields, located), b);
    FlatConcat(base + Simulation(fields), flat, b);
    FlatConcat(base, Simulation(fields), b);
    FlatAgain(fields, a, b);
    PartKeys(fields, a, located);
    forall k | FlatOpen(k)
      ensures k !in BaseNames() && k !in PlaceNames() && k != "simulation"
    {
      FlatApart(k);
    }
    FlatNone(base, BaseNames(), b);
    FlatNone(Simulation(fields), iset{"simulation"}, b);
    FlatNone(Tail(fields, located), PlaceNames(), b);
  }

  /** Rebuilding twice keeps the intersection of both selections, and nothing else changes. */
  lemma RebuiltAgain(fields: Fields, a: iset<string>, b: iset<string>, located: bool)
    ensures Rebuilt(Rebuilt(fields, a, located), b, located) == Rebuilt(fields, a * b, located)
  {
    hide Head, Tail, Measured, Flat;
    HeadAgain(fields, a, located);
    TailAgain(fields, a, located);
    MeasurementsAgain(fields, a, located);
    if MeasurementsOf(fields).Some? {
      MeasuredAgain(MeasurementsOf(fields).value, a, b);
    } else {
      FlatOfRebuilt(fields, a, located, b);
    }
  }

  lemma NeverEncrypted(fields: Fields, a: iset<string>, located: bool)
    ensures !Encrypted(Rebuilt(fields, a, located))
  {
    hide Pick, KeysIn, BaseNames, PlaceNames, BodyNames, Tail, Simulation, Rebuilt, Body, Field;
    NamesApart();
    forall k | k in iset{"encrypted", "ciphertext", "cipherText"}
      ensures Field(Rebuilt(fields, a, located), k) == None
    {
      FieldOfParts(fields, a, located, k);
      FieldOutside(fields, a, located, k);
    }
  }

  /* ---- Main results ---- */

  /** Filtering what was filtered under the same rights changes nothing. */
  lemma Idempotent(payload: Json, rights: Rights, scope: bv8, observedAt: int)
    requires Filtered(payload, rights, scope, observedAt).Ok?
    ensures var once := Filtered(payload, rights, scope, observedAt); Filtered(once.value, rights, scope, observedAt) == once
  {
    hide Rebuilt, Encrypted, InHistory, MeasurementAllowed, Authorized;
    if !PassesRaw(rights, scope) && payload.Obj? {
      var a := Authorized(rights, scope, observedAt);
      assert a * a == a;
      RebuiltAgain(payload.fields, a, a, rights.scopes & LOCATION != 0);
      NeverEncrypted(payload.fields, a, rights.scopes & LOCATION != 0);
    }
  }

  /** The rights of the second pass of an export: the same scopes, the selected measurements, no time bound. */
  function Narrowed(rights: Rights, selection: seq<string>): Rights {
    rights.(legacy := false, owner := false, publicScopes := 0,
            reader := Some(Reader("", rights.scopes, 0, 0, 0, 0, false, selection)))
  }

  ghost function Selected(selection: seq<string>): iset<string> {
    iset k | k in selection
  }

  /** The value an export keeps of one sample: filtered by the rights, then narrowed to the selection. */
  ghost function Exported(payload: Json, rights: Rights, scope: bv8, observedAt: int, selection: Option<seq<string>>): Result<Json, Denied> {
    var first := Filtered(payload, rights, scope, observedAt);
    if first.Err? || selection.None? then first
    else Filtered(first.value, Narrowed(rights, selection.value), scope, observedAt)
  }

  lemma NarrowedAuthorizes(rights: Rights, selection: seq<string>, scope: bv8, observedAt: nat)
    requires scope in {1, 2, 4} && rights.scopes & scope != 0
    ensures Authorized(Narrowed(rights, selection), scope, observedAt) == Selected(selection)
  {}

  /** Two passes give exactly one filter over the keys that are both authorized and selected, errors included. */
  lemma TwoPassesAreOne(payload: Json, rights: Rights, scope: bv8, observedAt: nat, selection: seq<string>)
    requires !rights.legacy && scope in {HISTORY, EXPORT}
    ensures Exported(payload, rights, scope, observedAt, Some(selection))
            == FilteredTo(payload, rights, scope, observedAt, Authorized(rights, scope, observedAt) * Selected(selection))
  {
    hide Rebuilt, Encrypted, MeasurementAllowed, Authorized, Selected;
    if Gate(payload, rights, scope, observedAt).None? {
      NarrowedAuthorizes(rights, selection, scope, observedAt);
      if payload.Obj? {
        var a := Authorized(rights, scope, observedAt);
        RebuiltAgain(payload.fields, a, Selected(selection), rights.scopes & LOCATION != 0);
        NeverEncrypted(payload.fields, a, rights.scopes & LOCATION != 0);
      }
    }
  }

  ghost predicate Supplies(entries: Fields, k: string, c: Json) {
    exists v :: (k, v) in entries && Cell(v) == Some(c)
  }

  /** A measurement leaves the filter exactly when it came in, is open, is allowed, and has a value that survives. */
  lemma {:induction false} MeasuredExactly(entries: Fields, allowed: iset<string>, k: string, c: Json)
    ensures (k, c) in Measured(entries, allowed)
            <==> MeasurementOpen(k) && k in allowed && Supplies(entries, k, c)
  {
    hide MeasurementOpen, Cell;
    if entries != [] {
      var rest := entries[..|entries| - 1];
      var last := entries[|entries| - 1];
      MeasuredExactly(rest, allowed, k, c);
      assert forall e :: e in entries <==> e in rest || e == last;
      assert Supplies(entries, k, c) <==> Supplies(rest, k, c) || (last.0 == k && Cell(last.1) == Some(c)) by {
        if last.0 == k && Cell(last.1) == Some(c) {
          assert (k, last.1) in entries;
        }
      }
    }
  }

  /* ---- Samples outside the authorized interval ---- */

  /** No sample within the selection, whatever its payload, is refused for its time. */
  ghost predicate NeverOutside(s: Selection, rights: Rights, scope: bv8) {
    forall payload, observedAt: nat :: s.fromTimestamp <= observedAt <= s.toTimestamp
                                       ==> Exported(payload, rights, scope, observedAt, s.measurements) != Err(OutsideInterval)
  }

  lemma EmptyPayloadOutside(rights: Rights, scope: bv8, observedAt: nat, selection: Option<seq<string>>)
    requires rights.scopes & scope != 0 && scope in {HISTORY, EXPORT} && !rights.legacy
    requires !rights.owner && rights.reader.Some? && !InHistory(rights.reader.value, observedAt)
    ensures Exported(Obj([]), rights, scope, observedAt, selection) == Err(OutsideInterval)
  {
    assert Field([], "encrypted") == None && Field([], "ciphertext") == None && Field([], "cipherText") == None;
  }

  /** The interval check is exact: non-legacy rights pass it if and only if no sample is refused for its time. */
  lemma NeverOutsideExactly(s: Selection, rights: Rights, scope: bv8)
    requires scope in {HISTORY, EXPORT} && rights.scopes & scope != 0 && s.fromTimestamp <= s.toTimestamp
    ensures NeverOutside(s, rights, scope) <==> rights.legacy || IntervalAccepted(s, rights)
  {
    hide Encrypted, Rebuilt;
    if !rights.legacy && !IntervalAccepted(s, rights) {
      var moment := if InHistory(rights.reader.value, s.fromTimestamp) then s.toTimestamp else s.fromTimestamp;
      EmptyPayloadOutside(rights, scope, moment, s.measurements);
    }
  }

  /** What create or history accepted is never refused for its time, even when the same policy is read again later. */
  lemma AcceptedNeverOutside(p: Policy, normalizedAt: nat, did: string, asked: nat, now: nat, s: Selection, scope: bv8)
    requires PolicyAccepted(p, normalizedAt) && Grants(p, did, asked, scope) && Grants(p, did, now, scope)
    requires s.fromTimestamp <= s.toTimestamp && IntervalAccepted(s, PolicyRights(p, did, asked))
    ensures NeverOutside(s, PolicyRights(p, did, now), scope)
  {
    hide PolicyAccepted, NeverOutside;
    SameReader(p, normalizedAt, did, asked, now, scope);
    NeverOutsideExactly(s, PolicyRights(p, did, now), scope);
  }

  /**
   Of a selection that create or history accepted, each sample leaves with exactly its selected measurements: while the
   policy stays the same, authorization takes none of them away and refuses no sample for its time.
   */
  lemma AcceptedExportsSelection(p: Policy, normalizedAt: nat, did: string, asked: nat, now: nat, s: Selection, scope: bv8,
                                 payload: Json, observedAt: nat)
    requires PolicyAccepted(p, normalizedAt) && Grants(p, did, asked, scope) && Grants(p, did, now, scope)
    requires Requestable(s, asked) && s.measurements.Some?
    requires IntervalAccepted(s, PolicyRights(p, did, asked)) && MeasurementsAccepted(s, PolicyRights(p, did, asked))
    requires s.fromTimestamp <= observedAt <= s.toTimestamp
    ensures var exported := Exported(payload, PolicyRights(p, did, now), scope, observedAt, s.measurements);
            && exported == FilteredTo(payload, PolicyRights(p, did, now), scope, observedAt, Selected(s.measurements.value))
            && exported != Err(OutsideInterval)
  {
    hide PolicyAccepted, Requestable, IntervalAccepted, MeasurementsAccepted, Exported, FilteredTo, MeasurementAllowed;
    var rights := PolicyRights(p, did, now);
    AcceptedStaysAuthorized(p, normalizedAt, did, asked, now, s, scope);
    var selected := s.measurements.value;
    assert forall k :: k in selected ==> MeasurementAllowed(rights, scope, k, observedAt);
    assert Authorized(rights, scope, observedAt) * Selected(selected) == Selected(selected);
    TwoPassesAreOne(payload, rights, scope, observedAt, selected);
    assert s.fromTimestamp <= s.toTimestamp;
    AcceptedNeverOutside(p, normalizedAt, did, asked, now, s, scope);
  }

  /** The bounds of the history that rights open; 0 stands for "no bound". */
  function HistoryFrom(rights: Rights): nat {
    if rights.owner || rights.reader.None? then 0 else rights.reader.value.historyFrom
  }

  function HistoryTo(rights: Rights): nat {
    if rights.owner || rights.reader.None? then 0 else rights.reader.value.historyTo
  }

  /** Of the past that the first reading opened until `asked`, the second one closes nothing. */
  predicate StillOpen(first: Rights, second: Rights, asked: nat) {
    HistoryFrom(first) <= asked ==>
      && HistoryFrom(second) <= HistoryFrom(first)
      && (HistoryTo(second) == 0 || HistoryTo(second) > asked || (HistoryTo(first) != 0 && HistoryTo(first) <= HistoryTo(second)))
  }

  /** Everything a request made at `asked` could be accepted for by the first rights is safe under the second ones. */
  ghost predicate AllSafe(first: Rights, second: Rights, asked: nat, scope: bv8) {
    forall s :: Requestable(s, asked) && IntervalAccepted(s, first) ==> NeverOutside(s, second, scope)
  }

  /**
   When the preparation reads another policy than create did, no accepted selection meets a refusal for time exactly
   when the second policy still opens all of the past that the first one opened.
   */
  lemma MovedPolicyExactly(p: Policy, q: Policy, pNormalized: nat, qNormalized: nat, did: string, asked: nat, now: nat, scope: bv8)
    requires PolicyAccepted(p, pNormalized) && Grants(p, did, asked, scope)
    requires PolicyAccepted(q, qNormalized) && Grants(q, did, now, scope)
    ensures AllSafe(PolicyRights(p, did, asked), PolicyRights(q, did, now), asked, scope)
            <==> StillOpen(PolicyRights(p, did, asked), PolicyRights(q, did, now), asked)
  {
    hide NeverOutside, MeasurementKey, Distinct;
    var first, second := PolicyRights(p, did, asked), PolicyRights(q, did, now);
    if StillOpen(first, second, asked) {
      forall s | Requestable(s, asked) && IntervalAccepted(s, first)
        ensures NeverOutside(s, second, scope)
      {
        NeverOutsideExactly(s, second, scope);
      }
    } else {
      var start := HistoryFrom(first);
      var moment := if HistoryFrom(second) > start || HistoryTo(second) < start then start else HistoryTo(second);
      var s := Selection(moment, moment, None);
      NeverOutsideExactly(s, second, scope);
      assert Requestable(s, asked) && IntervalAccepted(s, first);
    }
  }

  /** A grant narrowed between create and the preparation: the accepted selection is refused at one of its samples. */
  lemma NarrowedGrantRefuses() returns (p: Policy, q: Policy, s: Selection)
    ensures PolicyAccepted(p, 0) && PolicyAccepted(q, 0) && Grants(p, "d", 99, EXPORT) && Grants(q, "d", 99, EXPORT)
    ensures Requestable(s, 99) && IntervalAccepted(s, PolicyRights(p, "d", 99)) && MeasurementsAccepted(s, PolicyRights(p, "d", 99))
    ensures Exported(Obj([]), PolicyRights(q, "d", 99), EXPORT, 10, s.measurements) == Err(OutsideInterval)
  {
    var wide := Reader("d", 6, 0, 0, 0, 0, true, []);
    var narrow := wide.(historyFrom := 50);
    p, q, s := Policy(Restricted, 0, [wide], "o"), Policy(Restricted, 0, [narrow], "o"), Selection(0, 20, None);
    assert Lower("d") == "d";
    assert PolicyRights(q, "d", 99).reader == Some(narrow);
    EmptyPayloadOutside(PolicyRights(q, "d", 99), EXPORT, 10, None);
  }
}
