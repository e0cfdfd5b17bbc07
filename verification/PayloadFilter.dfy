/**
 Rebuilding a telemetry payload so that it holds only what a DID's rights open, and what filtering twice means.
 */
module PayloadFilter {
  import opened JsonData
  import opened Text
  import opened Wrappers
  import opened AccessPolicy

  datatype Denied = ScopeDenied | EncryptedPayload | UnsupportedSchema | OutsideInterval

  const BASE := ["schema", "assetId", "machineName", "sequence", "observedAt"]
  const PLACES := ["position", "location", "gps"]
  const COORDINATES := ["lat", "latitude", "lon", "lng", "longitude", "altitude", "speedKph", "headingDegrees", "accuracyMeters", "observedAt"]
  const LOCATION_NAMES := {
    "lat", "latitude", "lon", "lng", "longitude", "altitude", "heading", "headingdegrees", "speed", "speedkph",
    "accuracy", "accuracymeters", "position", "location", "gps", "coordinates"}
  const FLAT_NAMES := {
    "temperature", "vibration", "rpm", "activePower", "power", "pressure", "energy", "pvPower", "loadPower", "gridPower",
    "gridImportPower", "gridExportPower", "solarIrradiance"}

  predicate Truthy(v: Option<Json>) {
    v.Some? && match v.value
      case Null => false
      case Bool(b) => b
      case Num(n) => n.NonFinite? || n.value != 0.0
      case Str(s) => s != ""
      case Arr(_) => true
      case Obj(_) => true
  }

  predicate StringOrNumber(v: Json) {
    v.Str? || v.Num?
  }

  predicate FiniteNumber(v: Json) {
    v.Num? && v.n.Finite?
  }

  predicate LocationName(k: string) {
    Lower(k) in LOCATION_NAMES
  }

  predicate MeasurementOpen(k: string) {
    MeasurementKey(k) && !LocationName(k)
  }

  predicate FlatOpen(k: string) {
    k in FLAT_NAMES && !LocationName(k)
  }

  /** The named fields that pass `keep`, in the order of the names. */
  function Pick(fields: Fields, keys: seq<string>, keep: Json -> bool): Fields {
    if keys == [] then []
    else
      var last := keys[|keys| - 1];
      var v := Field(fields, last);
      Pick(fields, keys[..|keys| - 1], keep) + if v.Some? && keep(v.value) then [(last, v.value)] else []
  }

  /* ---- Parts of the rebuilt payload ---- */

  function Simulation(fields: Fields): Fields {
    var s := Field(fields, "simulation");
    if s.Some? && s.value.Obj? && Field(s.value.fields, "synthetic").Some? && Field(s.value.fields, "synthetic").value.Bool?
    then [("simulation", Obj([("synthetic", Field(s.value.fields, "synthetic").value)]))] else []
  }

  function OptionalText(fields: Fields, key: string): Option<string> {
    var v := Field(fields, key);
    if v.Some? && v.value.Str? then Some(v.value.s) else None
  }

  function Take128(s: string): string {
    if |s| > 128 then s[..128] else s
  }

  function Described(fields: Fields): Fields {
    var unit := OptionalText(fields, "unit");
    var caption := OptionalText(fields, "label");
    var semantic := OptionalText(fields, "semanticKey");
    (if unit.Some? then [("unit", Str(unit.value))] else [])
    + (if caption.Some? then [("label", Str(Take128(caption.value)))] else [])
    + (if semantic.Some? && PlainKey(semantic.value) then [("semanticKey", Str(semantic.value))] else [])
  }

  /** A measurement is a scalar, or an object with a scalar value, of which the description survives. */
  function Cell(v: Json): Option<Json> {
    if Scalar(v) then Some(v)
    else if v.Obj? && Field(v.fields, "value").Some? && Scalar(Field(v.fields, "value").value)
    then Some(Obj([("value", Field(v.fields, "value").value)] + Described(v.fields)))
    else None
  }

  ghost function Measured(entries: Fields, allowed: iset<string>): Fields {
    if entries == [] then []
    else
      var (k, v) := entries[|entries| - 1];
      Measured(entries[..|entries| - 1], allowed)
      + if MeasurementOpen(k) && k in allowed && Cell(v).Some? then [(k, Cell(v).value)] else []
  }

  ghost function Flat(entries: Fields, allowed: iset<string>): Fields {
    if entries == [] then []
    else
      var (k, v) := entries[|entries| - 1];
      Flat(entries[..|entries| - 1], allowed) + if FlatOpen(k) && Scalar(v) && k in allowed then [(k, v)] else []
  }

  predicate PointCoordinates(v: Option<Json>) {
    v.Some? && v.value.Arr? && 2 <= |v.value.items| <= 3
    && forall i :: 0 <= i < |v.value.items| ==> FiniteNumber(v.value.items[i])
  }

  /** The known numeric coordinates of a place, and its point when it is a well-formed one. */
  function Clean(p: Fields): Fields {
    Pick(p, COORDINATES, FiniteNumber)
    + if Field(p, "type") == Some(Str("Point")) && PointCoordinates(Field(p, "coordinates"))
      then [("type", Str("Point")), ("coordinates", Field(p, "coordinates").value), ("crs", Str("EPSG:4326"))]
      else []
  }

  /** Arrays are objects without any of the named fields. */
  function Place(v: Option<Json>): Option<Fields> {
    if v.None? then None
    else
      match v.value
      case Obj(fields) => Some(Clean(fields))
      case Arr(_) => Some([])
      case _ => None
  }

  function Places(fields: Fields, keys: seq<string>): Fields {
    if keys == [] then []
    else
      var last := keys[|keys| - 1];
      var p := Place(Field(fields, last));
      Places(fields, keys[..|keys| - 1]) + if p.Some? then [(last, Obj(p.value))] else []
  }

  function MeasurementsOf(fields: Fields): Option<Fields> {
    var m := Field(fields, "measurements");
    if m.Some? && m.value.Obj? then Some(m.value.fields) else None
  }

  ghost function Body(fields: Fields, allowed: iset<string>): Fields {
    match MeasurementsOf(fields)
    case Some(entries) => [("measurements", Obj(Measured(entries, allowed)))]
    case None => Flat(fields, allowed)
  }

  function Head(fields: Fields): Fields {
    Pick(fields, BASE, StringOrNumber) + Simulation(fields)
  }

  function Tail(fields: Fields, located: bool): Fields {
    if located then Places(fields, PLACES) else []
  }

  /** The payload with only the allowed measurements, and its places when location is granted. */
  ghost function Rebuilt(fields: Fields, allowed: iset<string>, located: bool): Fields {
    Head(fields) + Body(fields, allowed) + Tail(fields, located)
  }

  /* ---- The filter ---- */

  ghost function Authorized(rights: Rights, scope: bv8, observedAt: int): iset<string> {
    iset k | MeasurementAllowed(rights, scope, k, observedAt)
  }

  predicate Encrypted(fields: Fields) {
    Field(fields, "encrypted") == Some(Bool(true)) || Truthy(Field(fields, "ciphertext")) || Truthy(Field(fields, "cipherText"))
  }

  /** What stops a payload under these rights before anything is copied. */
  function Gate(payload: Json, rights: Rights, scope: bv8, observedAt: int): Option<Denied> {
    if rights.scopes & scope == 0 then Some(ScopeDenied)
    else if payload.Null? then None
    else if payload.Obj? && Encrypted(payload.fields) then Some(EncryptedPayload)
    else if !payload.Obj? then Some(UnsupportedSchema)
    else if scope != 1 && !rights.owner && rights.reader.Some? && !InHistory(rights.reader.value, observedAt) then Some(OutsideInterval)
    else None
  }

  predicate PassesRaw(rights: Rights, scope: bv8) {
    rights.legacy && (scope == 2 || scope == 4) && rights.scopes & scope != 0
  }

  /** The filter with the set of measurements it may keep made explicit. */
  ghost function FilteredTo(payload: Json, rights: Rights, scope: bv8, observedAt: int, allowed: iset<string>): Result<Json, Denied> {
    var denied := Gate(payload, rights, scope, observedAt);
    if denied.Some? then Err(denied.value)
    else if payload.Null? then Ok(Null)
    else Ok(Obj(Rebuilt(payload.fields, allowed, rights.scopes & LOCATION != 0)))
  }

  ghost function Filtered(payload: Json, rights: Rights, scope: bv8, observedAt: int): Result<Json, Denied> {
    if PassesRaw(rights, scope) then Ok(payload)
    else FilteredTo(payload, rights, scope, observedAt, Authorized(rights, scope, observedAt))
  }

  /* ---- The filter as the program runs it ---- */

  method CopyMeasurements(entries: Fields, rights: Rights, scope: bv8, observedAt: int) returns (out: Fields)
    ensures out == Measured(entries, Authorized(rights, scope, observedAt))
  {
    hide MeasurementOpen, Cell, MeasurementAllowed;
    out := [];
    for i := 0 to |entries|
      invariant out == Measured(entries[..i], Authorized(rights, scope, observedAt))
    {
      assert entries[..i + 1][..i] == entries[..i];
      var (key, value) := entries[i];
      if !MeasurementOpen(key) || !MeasurementAllowed(rights, scope, key, observedAt) {
        continue;
      }
      var cell := Cell(value);
      if cell.Some? {
        out := out + [(key, cell.value)];
      }
    }
    assert entries[..|entries|] == entries;
  }

  method CopyFlat(entries: Fields, rights: Rights, scope: bv8, observedAt: int) returns (out: Fields)
    ensures out == Flat(entries, Authorized(rights, scope, observedAt))
  {
    hide FlatOpen, Scalar, MeasurementAllowed;
    out := [];
    for i := 0 to |entries|
      invariant out == Flat(entries[..i], Authorized(rights, scope, observedAt))
    {
      assert entries[..i + 1][..i] == entries[..i];
      var (key, value) := entries[i];
      if FlatOpen(key) && Scalar(value) && MeasurementAllowed(rights, scope, key, observedAt) {
        out := out + [(key, value)];
      }
    }
    assert entries[..|entries|] == entries;
  }

  method CopyNamed(fields: Fields, keys: seq<string>, keep: Json -> bool) returns (out: Fields)
    ensures out == Pick(fields, keys, keep)
  {
    out := [];
    for i := 0 to |keys|
      invariant out == Pick(fields, keys[..i], keep)
    {
      assert keys[..i + 1][..i] == keys[..i];
      var v := Field(fields, keys[i]);
      if v.Some? && keep(v.value) {
        out := out + [(keys[i], v.value)];
      }
    }
    assert keys[..|keys|] == keys;
  }

  method CleanPlace(p: Fields) returns (clean: Fields)
    ensures clean == Clean(p)
  {
    clean := CopyNamed(p, COORDINATES, FiniteNumber);
    if Field(p, "type") == Some(Str("Point")) && PointCoordinates(Field(p, "coordinates")) {
      clean := clean + [("type", Str("Point")), ("coordinates", Field(p, "coordinates").value), ("crs", Str("EPSG:4326"))];
    }
  }

  method CopyPlaces(fields: Fields) returns (out: Fields)
    ensures out == Places(fields, PLACES)
  {
    hide Field, Clean;
    out := [];
    for i := 0 to |PLACES|
      invariant out == Places(fields, PLACES[..i])
    {
      assert PLACES[..i + 1][..i] == PLACES[..i];
      var place := Field(fields, PLACES[i]);
      if place.Some? && place.value.Obj? {
        var clean := CleanPlace(place.value.fields);
        out := out + [(PLACES[i], Obj(clean))];
      } else if place.Some? && place.value.Arr? {
        out := out + [(PLACES[i], Obj([]))];
      }
    }
    assert PLACES[..|PLACES|] == PLACES;
  }

  method FilterPayload(payload: Json, rights: Rights, scope: bv8, observedAt: int) returns (r: Result<Json, Denied>)
    ensures r == Filtered(payload, rights, scope, observedAt)
  {
    hide Encrypted, Pick, Simulation, Places, Measured, Flat, Field, InHistory, Authorized;
    if rights.legacy && (scope == 2 || scope == 4) && rights.scopes & scope != 0 {
      return Ok(payload);
    }
    if rights.scopes & scope == 0 {
      return Err(ScopeDenied);
    }
    if payload.Null? {
      return Ok(Null);
    }
    if payload.Obj? && Encrypted(payload.fields) {
      return Err(EncryptedPayload);
    }
    if !payload.Obj? {
      return Err(UnsupportedSchema);
    }
    if scope != 1 && !rights.owner && rights.reader.Some? && !InHistory(rights.reader.value, observedAt) {
      return Err(OutsideInterval);
    }
    var out := CopyNamed(payload.fields, BASE, StringOrNumber);
    out := out + Simulation(payload.fields);
    var measurements := MeasurementsOf(payload.fields);
    if measurements.Some? {
      var cells := CopyMeasurements(measurements.value, rights, scope, observedAt);
      out := out + [("measurements", Obj(cells))];
    } else {
      var flat := CopyFlat(payload.fields, rights, scope, observedAt);
      out := out + flat;
    }
    if rights.scopes & LOCATION != 0 {
      var places := CopyPlaces(payload.fields);
      out := out + places;
    } else {
      assert out + [] == out;
    }
    r := Ok(Obj(out));
  }
}
