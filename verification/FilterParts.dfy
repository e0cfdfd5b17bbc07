/** The payload filter read from outside: which payloads it refuses and why, and what each part of its output holds. */
module FilterParts {
  import opened JsonData
  import opened Text
  import opened Wrappers
  import opened AccessPolicy
  import opened PayloadFilter
  import opened FilterLaws

  /* ---- Refusals ---- */

  /** The scope is granted, and not in the way that hands out a legacy Twin's history unfiltered. */
  ghost predicate Strict(rights: Rights, scope: bv8) {
    rights.scopes & scope != 0 && !(rights.legacy && scope in {HISTORY, EXPORT})
  }

  /** What counts as no value at all. */
  ghost predicate Blank(v: Option<Json>) {
    v in {None, Some(Null), Some(Bool(false)), Some(Str("")), Some(Num(Finite(0.0)))}
  }

  ghost predicate MarkedEncrypted(payload: Json) {
    && payload.Obj?
    && (Field(payload.fields, "encrypted") == Some(Bool(true))
        || !(Blank(Field(payload.fields, "ciphertext")) && Blank(Field(payload.fields, "cipherText"))))
  }

  /** The moment is closed to the reader whose entry gives these rights. */
  ghost predicate ClosedAt(rights: Rights, observedAt: int) {
    && !rights.owner && rights.reader.Some?
    && (observedAt < rights.reader.value.historyFrom || 0 < rights.reader.value.historyTo <= observedAt)
  }

  lemma BlankExactly(v: Option<Json>)
    ensures Truthy(v) <==> !Blank(v)
  {}

  lemma EncryptedExactly(payload: Json)
    requires payload.Obj?
    ensures Encrypted(payload.fields) <==> MarkedEncrypted(payload)
  {
    hide Field, Truthy, Blank;
    BlankExactly(Field(payload.fields, "ciphertext"));
    BlankExactly(Field(payload.fields, "cipherText"));
  }

  lemma OnlyObjectsMarked(payload: Json)
    requires !payload.Obj?
    ensures !MarkedEncrypted(payload)
  {}

  /** Each refusal has its one reason, and everything else is answered. */
  lemma RefusedExactly(payload: Json, rights: Rights, scope: bv8, observedAt: int)
    ensures var r := Filtered(payload, rights, scope, observedAt);
            && (r == Err(ScopeDenied) <==> rights.scopes & scope == 0)
            && (r == Err(EncryptedPayload) <==> Strict(rights, scope) && MarkedEncrypted(payload))
            && (r == Err(UnsupportedSchema) <==> Strict(rights, scope) && payload != Null && !payload.Obj?)
            && (r == Err(OutsideInterval) <==>
                  Strict(rights, scope) && payload.Obj? && !MarkedEncrypted(payload) && scope != REALTIME && ClosedAt(rights, observedAt))
            && (rights.scopes & scope != 0 && !Strict(rights, scope) ==> r == Ok(payload))
            && (Strict(rights, scope) && payload == Null ==> r == Ok(Null))
  {
    hide Rebuilt, Authorized, MarkedEncrypted, Encrypted;
    if payload.Obj? {
      EncryptedExactly(payload);
    } else {
      OnlyObjectsMarked(payload);
    }
  }

  /* ---- Measurements ---- */

  /** The same character, or one letter in two cases. */
  ghost predicate SameChar(a: char, b: char) {
    a == b || ('A' <= a <= 'Z' && b as int == a as int + 32) || ('A' <= b <= 'Z' && a as int == b as int + 32)
  }

  /** Equal but for the case of letters. */
  ghost predicate SameName(a: string, b: string) {
    |a| == |b| && forall i :: 0 <= i < |a| ==> SameChar(a[i], b[i])
  }

  /** The names of places and movements, which are never measurements. */
  const MOVEMENTS := [
    "lat", "latitude", "lon", "lng", "longitude", "altitude", "heading", "headingDegrees", "speed", "speedKph", "accuracy",
    "accuracyMeters", "position", "location", "gps", "coordinates"]

  lemma SameLower(a: string, b: string)
    ensures SameName(a, b) <==> Lower(a) == Lower(b)
  {
    if Lower(a) == Lower(b) {
      assert |a| == |Lower(a)| == |b|;
      forall i | 0 <= i < |a|
        ensures SameChar(a[i], b[i])
      {
        assert Lower(a)[i] == Lower(b)[i];
      }
    }
  }

  /** A key may be a measurement's exactly when it is plain, inherited by no object, and in no letter case a movement's name. */
  lemma OpenExactly(k: string)
    ensures MeasurementOpen(k) <==>
            && PlainKey(k) && k !in ["constructor", "prototype"] && forall i :: 0 <= i < |MOVEMENTS| ==> !SameName(k, MOVEMENTS[i])
  {
    hide SameName, PlainKey;
    forall i | 0 <= i < |MOVEMENTS|
      ensures SameName(k, MOVEMENTS[i]) <==> Lower(k) == Lower(MOVEMENTS[i])
    {
      SameLower(k, MOVEMENTS[i]);
    }
    hide LOCATION_NAMES, MOVEMENTS, LOWERED;
    LoweredNames(Lower(k));
    forall i | 0 <= i < |MOVEMENTS|
      ensures Lower(MOVEMENTS[i]) == LOWERED[i]
    {
      LowerOne(i);
    }
  }

  const LOWERED := [
    "lat", "latitude", "lon", "lng", "longitude", "altitude", "heading", "headingdegrees", "speed", "speedkph", "accuracy",
    "accuracymeters", "position", "location", "gps", "coordinates"]

  lemma LowerOne(i: nat)
    requires i < |MOVEMENTS|
    ensures Lower(MOVEMENTS[i]) == LOWERED[i]
  {
    assert MOVEMENTS[7] == "headingDegrees" && MOVEMENTS[9] == "speedKph" && MOVEMENTS[11] == "accuracyMeters";
    assert i !in {7, 9, 11} ==> MOVEMENTS[i] == LOWERED[i];
  }

  lemma LoweredNames(s: string)
    ensures s in LOCATION_NAMES <==> s in LOWERED
  {}

  /* ---- Cells ---- */

  /** A value of its own: neither empty, nor a collection, nor a number that does not fit. */
  ghost predicate Simple(v: Json) {
    !(v.Null? || v.Arr? || v.Obj? || v == Num(NonFinite))
  }

  /** What a measurement's object keeps of one field: its simple value, and of its description the texts. */
  ghost predicate KeptOfCell(fields: Fields, key: string, w: Json) {
    exists v :: Field(fields, key) == Some(v) && KeptAs(key, v, w)
  }

  ghost predicate KeptAs(key: string, v: Json, w: Json) {
    || (key == "value" && w == v && Simple(v))
    || (key == "unit" && w == v && v.Str?)
    || (key == "label" && w.Str? && v.Str? && w.s <= v.s && |w.s| == (if |v.s| <= 128 then |v.s| else 128))
    || (key == "semanticKey" && w == v && v.Str? && PlainKey(v.s))
  }

  /** A measurement leaves as itself when it is simple, and as an object of its kept fields when its value is. */
  lemma CellExactly(v: Json, key: string, w: Json)
    ensures Cell(v).Some? <==> Simple(v) || (v.Obj? && exists x :: KeptOfCell(v.fields, "value", x))
    ensures Simple(v) ==> Cell(v) == Some(v)
    ensures Cell(v).Some? && !Simple(v) ==>
              Cell(v).value.Obj? && (Field(Cell(v).value.fields, key) == Some(w) <==> KeptOfCell(v.fields, key, w))
  {
    hide PlainKey;
    if v.Obj? {
      var x := Field(v.fields, "value");
      assert (exists y :: KeptOfCell(v.fields, "value", y)) <==> x.Some? && Simple(x.value) by {
        if x.Some? && Simple(x.value) {
          assert KeptAs("value", x.value, x.value) && KeptOfCell(v.fields, "value", x.value);
        }
      }
      if x.Some? && Simple(x.value) {
        CellFields(v.fields, x.value, key, w);
      }
    }
  }

  lemma CellFields(fields: Fields, x: Json, key: string, w: Json)
    requires Field(fields, "value") == Some(x) && Simple(x)
    ensures Field([("value", x)] + Described(fields), key) == Some(w) <==> KeptOfCell(fields, key, w)
  {
    hide PlainKey, Described, KeptAs;
    FieldConcat([("value", x)], Described(fields), key);
    if key != "value" {
      DescribedField(fields, key, w);
    }
    var v := Field(fields, key);
    assert KeptOfCell(fields, key, w) <==> v.Some? && KeptAs(key, v.value, w);
    assert Field([("value", x)], key) == if key == "value" then Some(x) else None;
    if key == "value" {
      ValueKept(x, w);
    }
  }

  lemma ValueKept(x: Json, w: Json)
    requires Simple(x)
    ensures KeptAs("value", x, w) <==> w == x
  {}

  function Piece(name: string, v: Option<Json>): Fields {
    if v.Some? then [(name, v.value)] else []
  }

  lemma PieceField(name: string, v: Option<Json>, key: string)
    ensures Field(Piece(name, v), key) == if key == name then v else None
  {}

  /** The description of a cell, as three pieces. */
  lemma DescribedPieces(fields: Fields, key: string)
    ensures var unit, caption, semantic := OptionalText(fields, "unit"), OptionalText(fields, "label"), OptionalText(fields, "semanticKey");
            Field(Described(fields), key) ==
            if key == "unit" then (if unit.Some? then Some(Str(unit.value)) else None)
            else if key == "label" then (if caption.Some? then Some(Str(Take128(caption.value))) else None)
            else if key == "semanticKey" then (if semantic.Some? && PlainKey(semantic.value) then Some(Str(semantic.value)) else None)
            else None
  {
    hide PlainKey, Take128, OptionalText;
    var unit, caption, semantic := OptionalText(fields, "unit"), OptionalText(fields, "label"), OptionalText(fields, "semanticKey");
    var first := if unit.Some? then Some(Str(unit.value)) else None;
    var second := if caption.Some? then Some(Str(Take128(caption.value))) else None;
    var third := if semantic.Some? && PlainKey(semantic.value) then Some(Str(semantic.value)) else None;
    assert Described(fields) == Piece("unit", first) + Piece("label", second) + Piece("semanticKey", third);
    hide Described, Piece, Field;
    FieldConcat(Piece("unit", first) + Piece("label", second), Piece("semanticKey", third), key);
    FieldConcat(Piece("unit", first), Piece("label", second), key);
    PieceField("unit", first, key);
    PieceField("label", second, key);
    PieceField("semanticKey", third, key);
  }

  lemma DescribedField(fields: Fields, key: string, w: Json)
    requires key != "value"
    ensures Field(Described(fields), key) == Some(w) <==> Field(fields, key).Some? && KeptAs(key, Field(fields, key).value, w)
  {
    hide PlainKey, Described, Field, Take128;
    DescribedPieces(fields, key);
    var caption := OptionalText(fields, "label");
    if key == "label" && caption.Some? {
      Taken(caption.value, w);
    }
  }

  lemma Taken(s: string, w: Json)
    ensures w == Str(Take128(s)) <==> w.Str? && w.s <= s && |w.s| == (if |s| <= 128 then |s| else 128)
  {}

  /* ---- Places ---- */

  const NUMBERS := ["lat", "latitude", "lon", "lng", "longitude", "altitude", "speedKph", "headingDegrees", "accuracyMeters", "observedAt"]

  /** The place is a point of two or three finite coordinates. */
  ghost predicate Pointed(p: Fields, items: seq<Json>) {
    && Field(p, "type") == Some(Str("Point")) && Field(p, "coordinates") == Some(Arr(items))
    && |items| in {2, 3} && forall x :: x in items ==> exists r :: x == Num(Finite(r))
  }

  /** What a place keeps: its finite numbers of known name, and the point it is, of which it says the reference system. */
  ghost predicate KeptOfPlace(p: Fields, key: string, w: Json) {
    || (key in NUMBERS && Field(p, key) == Some(w) && exists r :: w == Num(Finite(r)))
    || exists items :: Pointed(p, items) && (key, w) in [("type", Str("Point")), ("coordinates", Arr(items)), ("crs", Str("EPSG:4326"))]
  }

  lemma NumbersPicked(p: Fields, key: string)
    ensures var v := Field(p, key);
            Field(Pick(p, COORDINATES, FiniteNumber), key) == if key in NUMBERS && v.Some? && FiniteNumber(v.value) then v else None
  {
    assert COORDINATES == NUMBERS;
    CoordinatesDiffer();
    if key in NUMBERS {
      var i :| 0 <= i < |NUMBERS| && NUMBERS[i] == key;
      FieldPick(p, COORDINATES, FiniteNumber, i);
    } else {
      var names := iset k | k in COORDINATES;
      PickKeys(p, COORDINATES, FiniteNumber, names);
      FieldAbsent(Pick(p, COORDINATES, FiniteNumber), key, names);
    }
  }

  lemma PointedExactly(p: Fields, items: seq<Json>)
    ensures Pointed(p, items) <==>
            && Field(p, "type") == Some(Str("Point")) && PointCoordinates(Field(p, "coordinates"))
            && Field(p, "coordinates") == Some(Arr(items))
  {
    if Pointed(p, items) {
      forall i | 0 <= i < |items|
        ensures FiniteNumber(items[i])
      {
        assert items[i] in items;
      }
    }
    assert forall x: Json :: FiniteNumber(x) ==> x == Num(Finite(x.n.value));
  }

  lemma PlaceExactly(p: Fields, key: string, w: Json)
    ensures Field(Clean(p), key) == Some(w) <==> KeptOfPlace(p, key, w)
  {
    hide Pick, FiniteNumber;
    var picked := Pick(p, COORDINATES, FiniteNumber);
    var point := Clean(p)[|picked|..];
    assert Clean(p) == picked + point;
    FieldConcat(picked, point, key);
    NumbersPicked(p, key);
    CoordinatesDiffer();
    FiniteExactly(w);
    PointExactly(p, point, key, w);
  }

  lemma FiniteExactly(w: Json)
    ensures FiniteNumber(w) <==> exists r :: w == Num(Finite(r))
  {
    assert FiniteNumber(w) ==> w == Num(Finite(w.n.value));
  }

  /** The part of the output that says the place is a point. */
  lemma PointExactly(p: Fields, point: Fields, key: string, w: Json)
    requires point == if Field(p, "type") == Some(Str("Point")) && PointCoordinates(Field(p, "coordinates"))
                      then [("type", Str("Point")), ("coordinates", Field(p, "coordinates").value), ("crs", Str("EPSG:4326"))]
                      else []
    ensures Field(point, key) == Some(w) <==>
            exists items :: Pointed(p, items) && (key, w) in [("type", Str("Point")), ("coordinates", Arr(items)), ("crs", Str("EPSG:4326"))]
  {
    hide PointCoordinates, Pointed;
    var at := Field(p, "coordinates");
    forall items
      ensures Pointed(p, items) <==> Field(p, "type") == Some(Str("Point")) && PointCoordinates(at) && at == Some(Arr(items))
    {
      PointedExactly(p, items);
    }
    if point != [] {
      PointIsArray(at);
      assert Pointed(p, at.value.items);
      assert point[1..] == [point[1], point[2]] && point[1..][1..] == [point[2]];
      assert Field(point[1..][1..], key) == if key == "crs" then Some(point[2].1) else None;
    }
  }

  lemma PointIsArray(v: Option<Json>)
    requires PointCoordinates(v)
    ensures v.Some? && v.value.Arr?
  {}

  /* ---- The simulation mark ---- */

  /** Of the simulation, only whether it is synthetic leaves, and only when that is said by a Boolean. */
  lemma SimulationExactly(fields: Fields, a: iset<string>, located: bool, w: Json)
    ensures Field(Rebuilt(fields, a, located), "simulation") == Some(w) <==>
            exists inner, b :: Field(fields, "simulation") == Some(Obj(inner)) && Field(inner, "synthetic") == Some(Bool(b))
                               && w == Obj([("synthetic", Bool(b))])
  {
    hide Pick, Body, Tail, Rebuilt;
    FieldOfParts(fields, a, located, "simulation");
    FieldOutside(fields, a, located, "simulation");
    NamesApart();
  }

  /* ---- The whole output, field by field ---- */

  ghost predicate NoDuplicates(fields: Fields) {
    forall i, j :: 0 <= i < j < |fields| ==> fields[i].0 != fields[j].0
  }

  const HEADS := ["schema", "assetId", "machineName", "sequence", "observedAt"]
  const WHEREABOUTS := ["position", "location", "gps"]
  const LEVELS := [
    "temperature", "vibration", "rpm", "activePower", "power", "pressure", "energy", "pvPower", "loadPower", "gridPower",
    "gridImportPower", "gridExportPower", "solarIrradiance"]

  ghost predicate Synthetic(fields: Fields, w: Json) {
    exists inner, b :: Field(fields, "simulation") == Some(Obj(inner)) && Field(inner, "synthetic") == Some(Bool(b))
                       && w == Obj([("synthetic", Bool(b))])
  }

  ghost predicate MeasuredTo(fields: Fields, a: iset<string>, w: Json) {
    exists entries :: Field(fields, "measurements") == Some(Obj(entries)) && w == Obj(Measured(entries, a))
  }

  /** A place leaves as what is kept of it; a list is a place of which nothing is. */
  ghost predicate PlacedAs(v: Option<Json>, w: Json) {
    v.Some? && match v.value case Obj(p) => w == Obj(Clean(p)) case Arr(_) => w == Obj([]) case _ => false
  }

  /** Everything that leaves: the heads, the simulation mark, the measurements or else the flat levels, and the places. */
  ghost predicate Leaves(fields: Fields, a: iset<string>, located: bool, key: string, w: Json) {
    || (key in HEADS && Field(fields, key) == Some(w) && (w.Str? || w.Num?))
    || (key == "simulation" && Synthetic(fields, w))
    || (key == "measurements" && MeasuredTo(fields, a, w))
    || (key in LEVELS && key in a && Field(fields, key) == Some(w) && Simple(w) && MeasurementsOf(fields).None?)
    || (located && key in WHEREABOUTS && PlacedAs(Field(fields, key), w))
  }

  lemma {:induction false} FieldFlat(entries: Fields, a: iset<string>, key: string)
    requires NoDuplicates(entries)
    ensures var v := Field(entries, key);
            Field(Flat(entries, a), key) == if v.Some? && FlatOpen(key) && Scalar(v.value) && key in a then v else None
  {
    hide FlatOpen, Scalar;
    if entries != [] {
      var n := |entries| - 1;
      var rest, last := entries[..n], entries[n];
      FieldFlat(rest, a, key);
      var kept := if FlatOpen(last.0) && Scalar(last.1) && last.0 in a then [last] else [];
      FieldConcat(Flat(rest, a), kept, key);
      FieldConcat(rest, [last], key);
      assert entries == rest + [last];
      assert forall e :: e in rest ==> e.0 != last.0;
      if Field(rest, key).Some? {
        FieldIn(rest, key);
      }
    }
  }

  const LOW_LEVELS := [
    "temperature", "vibration", "rpm", "activepower", "power", "pressure", "energy", "pvpower", "loadpower", "gridpower",
    "gridimportpower", "gridexportpower", "solarirradiance"]

  lemma LowerLevel(i: nat)
    requires i < |LEVELS|
    ensures Lower(LEVELS[i]) == LOW_LEVELS[i]
  {
    if i < 8 {
      assert LEVELS[3] == "activePower" && LEVELS[7] == "pvPower";
      assert i !in {3, 7} ==> LEVELS[i] == LOW_LEVELS[i];
    } else {
      assert LEVELS[8] == "loadPower" && LEVELS[9] == "gridPower" && LEVELS[10] == "gridImportPower" && LEVELS[11] == "gridExportPower";
      assert LEVELS[12] == "solarIrradiance";
    }
  }

  lemma LowLevelsApart(i: nat)
    requires i < |LOW_LEVELS|
    ensures LOW_LEVELS[i] !in LOCATION_NAMES
  {}

  /** The flat levels are these thirteen, none of which names a place or a movement in any letter case. */
  lemma LevelsAre(key: string)
    ensures FlatOpen(key) <==> key in LEVELS
  {
    assert key in FLAT_NAMES <==> key in LEVELS;
    if key in LEVELS {
      var i: nat :| i < |LEVELS| && LEVELS[i] == key;
      LowerLevel(i);
      LowLevelsApart(i);
    }
  }

  lemma NamesOfParts(key: string)
    ensures key in BaseNames() <==> key in HEADS
    ensures key in PlaceNames() <==> key in WHEREABOUTS
    ensures key in BodyNames() <==> key == "measurements" || FlatOpen(key)
  {
    hide FlatOpen;
  }

  lemma HeadLeaves(fields: Fields, a: iset<string>, located: bool, key: string, w: Json)
    requires key in HEADS
    ensures Field(Rebuilt(fields, a, located), key) == Some(w) <==> Field(fields, key) == Some(w) && (w.Str? || w.Num?)
  {
    hide Rebuilt;
    assert HEADS == BASE;
    var i :| 0 <= i < |HEADS| && HEADS[i] == key;
    BaseFieldsExactly(fields, a, located, i);
  }

  lemma PlaceLeaves(fields: Fields, a: iset<string>, located: bool, key: string, w: Json)
    requires key in WHEREABOUTS
    ensures Field(Rebuilt(fields, a, located), key) == Some(w) <==> located && PlacedAs(Field(fields, key), w)
  {
    hide Rebuilt, Clean;
    assert WHEREABOUTS == PLACES;
    var i :| 0 <= i < |WHEREABOUTS| && WHEREABOUTS[i] == key;
    PlaceFieldsExactly(fields, a, located, i);
  }

  lemma BodyLeaves(fields: Fields, a: iset<string>, located: bool, key: string, w: Json)
    requires NoDuplicates(fields) && key !in HEADS && key !in WHEREABOUTS && key != "simulation"
    ensures Field(Rebuilt(fields, a, located), key) == Some(w) <==>
            || (key == "measurements" && MeasuredTo(fields, a, w))
            || (key in LEVELS && key in a && Field(fields, key) == Some(w) && Simple(w) && MeasurementsOf(fields).None?)
  {
    hide Rebuilt, Pick, Simulation, Tail, Measured, Flat, FlatOpen;
    NamesOfParts(key);
    FieldOfParts(fields, a, located, key);
    FieldOutside(fields, a, located, key);
    LevelsAre(key);
    FieldFlat(fields, a, key);
    FieldFlat(fields, a, "measurements");
    LevelsAre("measurements");
  }

  /** A field of the output is there exactly when it is one of those, with exactly that value. */
  lemma PayloadExactly(fields: Fields, a: iset<string>, located: bool, key: string, w: Json)
    requires NoDuplicates(fields)
    ensures Field(Rebuilt(fields, a, located), key) == Some(w) <==> Leaves(fields, a, located, key, w)
  {
    hide Rebuilt, Synthetic, MeasuredTo, PlacedAs, Simple, NoDuplicates;
    NamesApartHere(key);
    if key in HEADS {
      HeadLeaves(fields, a, located, key, w);
    } else if key in WHEREABOUTS {
      PlaceLeaves(fields, a, located, key, w);
    } else if key == "simulation" {
      SimulationLeaves(fields, a, located, w);
    } else {
      BodyLeaves(fields, a, located, key, w);
    }
  }

  lemma SimulationLeaves(fields: Fields, a: iset<string>, located: bool, w: Json)
    ensures Field(Rebuilt(fields, a, located), "simulation") == Some(w) <==> Synthetic(fields, w)
  {
    hide Rebuilt;
    SimulationExactly(fields, a, located, w);
  }

  lemma NamesApartHere(key: string)
    ensures key in HEADS ==> key !in LEVELS && key !in WHEREABOUTS && key != "simulation" && key != "measurements"
    ensures key in WHEREABOUTS ==> key !in LEVELS && key != "simulation" && key != "measurements"
    ensures key in LEVELS ==> key != "simulation" && key != "measurements"
  {}
}
