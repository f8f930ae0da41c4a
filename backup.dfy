/**
 * Validation of an uploaded backup file: `validateBackup` in src/lib/backup/validate.ts.
 * The parsed file is a JavaScript value; property access, truthiness, `||`, `??` and
 * `typeof` are modelled on it. A thrown error becomes a `Failure`.
 */
module Backup {
  import opened Wrappers

  /** A parsed JSON value, plus `undefined` (what reading a missing property gives). */
  datatype Json =
    | JUndefined
    | JNull
    | JBool(b: bool)
    | JNumber(n: real)
    | JString(s: string)
    | JArray(items: seq<Json>)
    | JObject(fields: map<string, Json>)

  /** JavaScript truthiness: `undefined`, `null`, `false`, `0` and `""` are falsy. */
  predicate Truthy(v: Json) {
    match v
    case JUndefined => false
    case JNull => false
    case JBool(b) => b
    case JNumber(n) => n != 0.0
    case JString(s) => s != ""
    case JArray(_) => true
    case JObject(_) => true
  }

  predicate Nullish(v: Json) {
    v.JUndefined? || v.JNull?
  }

  /** `typeof v === "object"`: true of objects, arrays and `null`. */
  predicate IsObjectType(v: Json) {
    v.JObject? || v.JArray? || v.JNull?
  }

  /** `typeof v === "number" || typeof v === "string"`. */
  predicate IsNumberOrString(v: Json) {
    v.JNumber? || v.JString?
  }

  /** `v[key]` on a value that is not `null` or `undefined`; only objects have these keys. */
  function Get(v: Json, key: string): Json {
    if v.JObject? && key in v.fields then v.fields[key] else JUndefined
  }

  /** `a || b`: the first operand when it is truthy, otherwise the second. */
  function Or(a: Json, b: Json): (r: Json)
    ensures Truthy(r) <==> Truthy(a) || Truthy(b)
  {
    if Truthy(a) then a else b
  }

  /** `a ?? b`: the first operand unless it is `null` or `undefined`. */
  function Coalesce(a: Json, b: Json): (r: Json)
    ensures Nullish(r) <==> Nullish(a) && Nullish(b)
    ensures !Nullish(a) ==> r == a
  {
    if Nullish(a) then b else a
  }

  /** The keys an entry is read with: current camelCase names and legacy snake_case ones. */
  datatype Keys = Keys(id: string, at: string, legacyAt: string, amount: string, legacyAmount: string)

  const ReadingKeys: Keys := Keys("id", "measuredAt", "measured_at", "valueMmolL", "value_mmol_l")
  const DoseKeys: Keys := Keys("id", "administeredAt", "administered_at", "doseUnits", "dose_units")

  /**
   * One entry passes: a truthy id, a truthy `at || legacyAt`, and `amount ?? legacyAmount`
   * a number or a string. A `null` or `undefined` entry throws on the first property read.
   */
  predicate EntryOk(e: Json, ks: Keys) {
    && !Nullish(e)
    && Truthy(Get(e, ks.id))
    && Truthy(Or(Get(e, ks.at), Get(e, ks.legacyAt)))
    && IsNumberOrString(Coalesce(Get(e, ks.amount), Get(e, ks.legacyAmount)))
  }

  /** The `for…of` loop: the index of the first entry that fails, if any. */
  function FirstFault(es: seq<Json>, ks: Keys): (r: Option<nat>)
    ensures r.None? <==> forall i :: 0 <= i < |es| ==> EntryOk(es[i], ks)
    ensures r.Some? ==> r.value < |es| && !EntryOk(es[r.value], ks)
    ensures r.Some? ==> forall j :: 0 <= j < r.value ==> EntryOk(es[j], ks)
  {
    if es == [] then None
    else
      var n := |es| - 1;
      var init := FirstFault(es[..n], ks);
      if init.Some? then
        assert es[..n][init.value] == es[init.value];
        Some(init.value)
      else if !EntryOk(es[n], ks) then Some(n)
      else
        assert forall i :: 0 <= i < n ==> es[..n][i] == es[i];
        None
  }

  datatype BackupError =
    | NotAnObject
    | UnsupportedVersion(version: Json)
    | MissingReadings
    | InvalidReading(reading: Json)
    | DosesNotArray
    | InvalidDose(dose: Json)
    | NullishEntry    // the TypeError of reading a property of `null` or `undefined`

  /** The constant part of each error's message. */
  function Message(e: BackupError): string {
    match e
    case NotAnObject => "Invalid backup format: Not an object"
    case UnsupportedVersion(_) => "Unsupported schema version: "
    case MissingReadings => "Invalid backup format: Missing readings array"
    case InvalidReading(_) => "Invalid reading data in backup: "
    case DosesNotArray => "Invalid backup format: insulin_doses must be an array"
    case InvalidDose(_) => "Invalid insulin dose data in backup: "
    case NullishEntry => "Cannot read properties of null"
  }

  predicate SupportedVersion(v: Json) {
    v == JNumber(1.0) || v == JNumber(2.0)
  }

  /** The error thrown for the failing entry `e`. */
  function EntryError(e: Json, invalid: BackupError): BackupError {
    if Nullish(e) then NullishEntry else invalid
  }

  /** What a valid backup is, all conditions at once. */
  predicate WellFormed(data: Json) {
    var readings := Get(data, "readings");
    var doses := Get(data, "insulin_doses");
    && data.JObject?
    && SupportedVersion(Get(data, "schema_version"))
    && readings.JArray?
    && (forall i :: 0 <= i < |readings.items| ==> EntryOk(readings.items[i], ReadingKeys))
    && (Truthy(doses) ==>
          doses.JArray? && forall i :: 0 <= i < |doses.items| ==> EntryOk(doses.items[i], DoseKeys))
  }

  /** `validateBackup`: the checks in order; the first that fails decides the error. */
  function ValidateBackup(data: Json): (r: Result<Json, BackupError>)
    ensures r.Success? <==> WellFormed(data)
    ensures r.Success? ==> r.value == data
  {
    if !Truthy(data) || !IsObjectType(data) then Failure(NotAnObject)
    else if !SupportedVersion(Get(data, "schema_version")) then
      Failure(UnsupportedVersion(Get(data, "schema_version")))
    else if !Get(data, "readings").JArray? then Failure(MissingReadings)
    else
      var readings := Get(data, "readings").items;
      var doses := Get(data, "insulin_doses");
      match FirstFault(readings, ReadingKeys)
      case Some(i) => Failure(EntryError(readings[i], InvalidReading(readings[i])))
      case None =>
        if !Truthy(doses) then Success(data)
        else if !doses.JArray? then Failure(DosesNotArray)
        else
          match FirstFault(doses.items, DoseKeys)
          case Some(i) => Failure(EntryError(doses.items[i], InvalidDose(doses.items[i])))
          case None => Success(data)
  }

  /** A falsy value, a string, number or boolean is not an object. */
  lemma RejectsNonObject(data: Json)
    requires !IsObjectType(data) || !Truthy(data)
    ensures ValidateBackup(data) == Failure(NotAnObject)
  {
  }

  /** Any other schema version than 1 or 2 is reported, with the version found. */
  lemma RejectsVersion(data: Json)
    requires data.JObject?
    requires !SupportedVersion(Get(data, "schema_version"))
    ensures ValidateBackup(data) == Failure(UnsupportedVersion(Get(data, "schema_version")))
  {
  }

  /** Arrays pass the object test and then fail on the missing schema version. */
  lemma ArrayHasNoVersion(items: seq<Json>)
    ensures ValidateBackup(JArray(items)) == Failure(UnsupportedVersion(JUndefined))
  {
  }

  /** With a good version, a missing or non-array `readings` is reported. */
  lemma RejectsMissingReadings(data: Json)
    requires data.JObject? && SupportedVersion(Get(data, "schema_version"))
    requires !Get(data, "readings").JArray?
    ensures ValidateBackup(data) == Failure(MissingReadings)
  {
  }

  /** The first bad reading decides the error, whatever comes after it. */
  lemma RejectsFirstBadReading(data: Json, i: nat)
    requires data.JObject? && SupportedVersion(Get(data, "schema_version"))
    requires Get(data, "readings").JArray?
    requires var rs := Get(data, "readings").items;
      && i < |rs| && !EntryOk(rs[i], ReadingKeys)
      && forall j :: 0 <= j < i ==> EntryOk(rs[j], ReadingKeys)
    ensures var r := Get(data, "readings").items[i];
      ValidateBackup(data) == Failure(if Nullish(r) then NullishEntry else InvalidReading(r))
  {
  }

  /** With every reading good, the first bad dose of a dose array decides the error. */
  lemma RejectsFirstBadDose(data: Json, i: nat)
    requires data.JObject? && SupportedVersion(Get(data, "schema_version"))
    requires Get(data, "readings").JArray?
    requires forall j :: 0 <= j < |Get(data, "readings").items| ==>
      EntryOk(Get(data, "readings").items[j], ReadingKeys)
    requires Get(data, "insulin_doses").JArray?
    requires var ds := Get(data, "insulin_doses").items;
      && i < |ds| && !EntryOk(ds[i], DoseKeys)
      && forall j :: 0 <= j < i ==> EntryOk(ds[j], DoseKeys)
    ensures var d := Get(data, "insulin_doses").items[i];
      ValidateBackup(data) == Failure(if Nullish(d) then NullishEntry else InvalidDose(d))
  {
  }

  /** With every reading good, truthy `insulin_doses` that is not an array is reported. */
  lemma RejectsDosesNotArray(data: Json)
    requires data.JObject? && SupportedVersion(Get(data, "schema_version"))
    requires Get(data, "readings").JArray?
    requires forall j :: 0 <= j < |Get(data, "readings").items| ==>
      EntryOk(Get(data, "readings").items[j], ReadingKeys)
    requires Truthy(Get(data, "insulin_doses")) && !Get(data, "insulin_doses").JArray?
    ensures ValidateBackup(data) == Failure(DosesNotArray)
  {
  }

  /** A falsy `insulin_doses` (missing, null, 0, "") is not checked at all. */
  lemma FalsyDosesIgnored(data: Json, doses: Json)
    requires data.JObject? && !Truthy(doses)
    ensures ValidateBackup(JObject(data.fields["insulin_doses" := doses])).Success? <==>
      ValidateBackup(JObject(data.fields - {"insulin_doses"})).Success?
  {
    var a := JObject(data.fields["insulin_doses" := doses]);
    var b := JObject(data.fields - {"insulin_doses"});
    assert Get(a, "schema_version") == Get(b, "schema_version");
    assert Get(a, "readings") == Get(b, "readings");
  }

  // The backups of the unit tests, with instants and numbers as written there (5.5 is 11/2).

  function Backup(version: real, readings: seq<Json>): Json {
    JObject(map[
      "schema_version" := JNumber(version),
      "exported_at" := JString("2026-01-08T12:00:00.000Z"),
      "readings" := JArray(readings),
      "settings" := JObject(map[])])
  }

  function CamelReading(): Json {
    JObject(map[
      "id" := JString("abc-123"),
      "measuredAt" := JString("2026-01-08T10:00:00.000Z"),
      "valueMmolL" := JString("5.5"),
      "dayKey" := JString("2026-01-08"),
      "isFasting" := JBool(true),
      "isPostMeal" := JBool(false)])
  }

  function SnakeReading(): Json {
    JObject(map[
      "id" := JString("abc-123"),
      "measured_at" := JString("2026-01-08T10:00:00.000Z"),
      "value_mmol_l" := JNumber(5.5),
      "day_key" := JString("2026-01-08"),
      "is_fasting" := JBool(true),
      "is_post_meal" := JBool(false)])
  }

  /** The current export format is accepted and returned as it is. */
  lemma AcceptsCamelCase()
    ensures ValidateBackup(Backup(1.0, [CamelReading()])) == Success(Backup(1.0, [CamelReading()]))
  {
    assert EntryOk(CamelReading(), ReadingKeys);
  }

  /** The legacy format is accepted and returned as it is. */
  lemma AcceptsSnakeCase()
    ensures ValidateBackup(Backup(1.0, [SnakeReading()])) == Success(Backup(1.0, [SnakeReading()]))
  {
    assert EntryOk(SnakeReading(), ReadingKeys);
  }

  /** A reading with only an id is rejected as invalid reading data. */
  lemma RejectsMissingFields()
    ensures var r := JObject(map["id" := JString("abc-123")]);
      ValidateBackup(Backup(1.0, [r])) == Failure(InvalidReading(r))
  {
    var r := JObject(map["id" := JString("abc-123")]);
    assert !EntryOk(r, ReadingKeys);
  }

  /** Version 999 is rejected; versions 1 and 2 with no readings are accepted. */
  lemma VersionExamples()
    ensures var b := JObject(map["schema_version" := JNumber(999.0), "readings" := JArray([])]);
      ValidateBackup(b) == Failure(UnsupportedVersion(JNumber(999.0)))
    ensures ValidateBackup(Backup(1.0, [])).Success?
    ensures ValidateBackup(Backup(2.0, [])).Success?
  {
  }

  /** A backup with only a version has no readings array. */
  lemma RejectsNoReadings()
    ensures ValidateBackup(JObject(map["schema_version" := JNumber(1.0)])) == Failure(MissingReadings)
  {
  }

  /**
   * `||` falls back on any falsy value, `??` only on `null` and `undefined`: an empty
   * `measuredAt` defers to `measured_at`, an empty-string value is kept and accepted, and
   * a `false` value is kept and rejected even with a good `value_mmol_l`.
   */
  lemma OrVersusCoalesce()
    ensures EntryOk(JObject(map[
      "id" := JString("a"), "measuredAt" := JString(""), "measured_at" := JString("t"),
      "valueMmolL" := JNull, "value_mmol_l" := JNumber(5.5)]), ReadingKeys)
    ensures EntryOk(JObject(map[
      "id" := JString("a"), "measuredAt" := JString("t"), "valueMmolL" := JString("")]), ReadingKeys)
    ensures !EntryOk(JObject(map[
      "id" := JString("a"), "measuredAt" := JString("t"),
      "valueMmolL" := JBool(false), "value_mmol_l" := JNumber(5.5)]), ReadingKeys)
  {
  }

  /** A `null` entry is not reported as invalid data: reading its `id` throws a TypeError. */
  lemma NullReadingThrows()
    ensures ValidateBackup(Backup(1.0, [JNull])) == Failure(NullishEntry)
  {
  }
}
