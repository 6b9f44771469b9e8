/** The rules the attendance screen applies before it sends a registration
    (`handleRegister` and `executeRegister` in ViewAsistencia.js): the
    same-day duplicate scan, the device-location gates, the non-blocking
    GPS warnings and the texts shown to the user. The Lima day key of a
    value and the distance in metres are inputs. */
module RegistrationRules {
  import opened Options
  import opened JsText
  import opened JsValues
  import opened ReferenceCoords

  /** The two kinds of mark a user can register. */
  datatype Tipo = Ingreso | Salida

  function TipoText(t: Tipo): string {
    match t
    case Ingreso => "INGRESO"
    case Salida => "SALIDA"
  }

  const MaxDistanceMeters: real := 50.0
  const MaxGpsAccuracyMeters: real := 20.0

  const LocationRequiredMessage := "Debe activar la ubicación " + "para registrar INGRESO o SALIDA. "
    + "Sin ubicación no se grabará " + "la marcación."
  const AccuracyWarning := "Precisión GPS insuficiente. " + "Debe ser ≤ 20 m."
  const DistanceWarning := "La ubicación no es cercana " + "al punto requerido (máximo 50 metros)."
  const CuadrillaMissingMessage := "No se pudo registrar asistencia: " + "cuadrilla no disponible."
  const RegisterFailedMessage := "Error al registrar"

  function DuplicateMessage(t: Tipo): string {
    match t
    case Ingreso =>
      "Ya existe un registro del día " + "para este usuario con Hora asignada. "
      + "No se puede registrar " + "INGRESO nuevamente."
    case Salida =>
      "Ya existe un registro del día " + "para este usuario con Hora " + "de salida asignada. "
      + "No se puede registrar " + "SALIDA nuevamente."
  }

  /** Time texts the database writes for "no time": they never count as a
      registered time. */
  const SentinelHoras: set<string> := {
    "1900-01-01 00:00:00:000",
    "1900-01-01 00:00:00.000",
    "1900-01-01T00:00:00.000",
    "1900-01-01T00:00:00.000Z"
  }

  const DateAliases := ["FechaAsistencia", "fecha", "Date"]
  const UserAliases := ["IdEmpleado", "idEmpleado", "CodEmp", "codEmp", "UsuarioAct", "usuarioAct"]
  const HoraAliases := ["Hora", "hora", "HoraCreacion", "horaCreacion"]
  const HoraSalidaAliases := [
    "HoraSalida", "horaSalida", "Hora_Salida", "hora_salida",
    "HoraSalidaMarcacion", "horaSalidaMarcacion", "HoraSalidaRegistro", "horaSalidaRegistro"
  ]

  /** The time field a mark of type `t` fills in. */
  function TimeAliases(t: Tipo): seq<string> {
    match t
    case Ingreso => HoraAliases
    case Salida => HoraSalidaAliases
  }

  // ---------------------------------------------------------------- duplicate scan

  /** `getLimaDateKey(val)`: no key for a falsy value other than 0, else the
      key the date parser gives (itself `None` for an unparseable date). */
  function LimaDayKey(v: JsVal, dayKey: JsVal -> Option<string>): Option<string> {
    if !Truthy(v) && !IsZero(v) then None else dayKey(v)
  }

  /** `getUserKey(item)`. */
  function UserKey(item: JsVal): string {
    TrimmedText(Coalesce(item, UserAliases, Null))
  }

  /** The key of the signed-in user: `cuadrilla ?? codEmp ?? idusuario`,
      trimmed, or `''`. */
  function CurrentUserKey(cuadrilla: JsVal, codEmp: JsVal, idusuario: JsVal): string {
    TrimmedText(Nullish(cuadrilla, Nullish(codEmp, idusuario)))
  }

  /** The trimmed text of the record's time field for `t`. */
  function TimeText(item: JsVal, t: Tipo): string {
    TrimmedText(Coalesce(item, TimeAliases(t), Null))
  }

  predicate TimeAssigned(item: JsVal, t: Tipo) {
    TimeText(item, t) != "" && TimeText(item, t) !in SentinelHoras
  }

  predicate SameDay(item: JsVal, today: string, dayKey: JsVal -> Option<string>) {
    LimaDayKey(Coalesce(item, DateAliases, Null), dayKey) == Some(today)
  }

  predicate SameUser(item: JsVal, user: string) {
    user != "" && UserKey(item) != "" && UserKey(item) == user
  }

  /** One record shows that the user already registered `t` today. */
  predicate Blocks(item: JsVal, t: Tipo, today: string, user: string, dayKey: JsVal -> Option<string>) {
    SameDay(item, today, dayKey) && SameUser(item, user) && TimeAssigned(item, t)
  }

  /** `Array.prototype.some` over a list of records. */
  function AnyRecord(records: seq<JsVal>, p: JsVal -> bool): bool {
    records != [] && (p(records[0]) || AnyRecord(records[1..], p))
  }

  lemma {:induction false} AnyRecordIff(records: seq<JsVal>, p: JsVal -> bool)
    ensures AnyRecord(records, p) <==> exists i | 0 <= i < |records| :: p(records[i])
  {
    if records != [] {
      AnyRecordIff(records[1..], p);
      assert forall i | 1 <= i < |records| :: records[i] == records[1..][i - 1];
    }
  }

  /** `source.some(...)` in `handleRegister`: some record blocks `t`. */
  function ExistsDuplicate(records: seq<JsVal>, t: Tipo, today: string, user: string,
                           dayKey: JsVal -> Option<string>): bool
  {
    AnyRecord(records, item => Blocks(item, t, today, user, dayKey))
  }

  /** The scan finds a duplicate exactly when some record blocks `t`. */
  lemma ExistsDuplicateIff(records: seq<JsVal>, t: Tipo, today: string, user: string,
                           dayKey: JsVal -> Option<string>)
    ensures ExistsDuplicate(records, t, today, user, dayKey)
        <==> exists i | 0 <= i < |records| :: Blocks(records[i], t, today, user, dayKey)
  {
    AnyRecordIff(records, item => Blocks(item, t, today, user, dayKey));
  }

  /** A record's time counts exactly when its first present time alias
      trims to a text that is neither empty nor a sentinel. */
  lemma TimeAssignedIff(item: JsVal, t: Tipo)
    ensures TimeAssigned(item, t)
        <==> exists h :: h != "" && h !in SentinelHoras && FirstAliasTrimsTo(item, TimeAliases(t), h)
  {
    var h := TimeText(item, t);
    if TimeAssigned(item, t) {
      CoalesceTrimsTo(item, TimeAliases(t), h);
    } else {
      forall h' | h' != "" && h' !in SentinelHoras
        ensures !FirstAliasTrimsTo(item, TimeAliases(t), h')
      {
        CoalesceTrimsTo(item, TimeAliases(t), h');
      }
    }
  }

  /** A sentinel time, like no time at all, never blocks a registration. */
  lemma SentinelNeverBlocks(item: JsVal, t: Tipo, today: string, user: string, dayKey: JsVal -> Option<string>)
    requires TimeText(item, t) == "" || TimeText(item, t) in SentinelHoras
    ensures !Blocks(item, t, today, user, dayKey)
  {
  }

  /** Without a user key of its own the screen never finds a duplicate. */
  lemma NoUserNoDuplicate(records: seq<JsVal>, t: Tipo, today: string, dayKey: JsVal -> Option<string>)
    ensures !ExistsDuplicate(records, t, today, "", dayKey)
  {
    ExistsDuplicateIff(records, t, today, "", dayKey);
  }

  /** A record with no date under any alias is never from today. */
  lemma UndatedNeverBlocks(item: JsVal, t: Tipo, today: string, user: string, dayKey: JsVal -> Option<string>)
    requires forall k | 0 <= k < |DateAliases| :: IsNullish(Prop(item, DateAliases[k]))
    ensures !Blocks(item, t, today, user, dayKey)
  {
    assert FirstPresent(item, DateAliases) == |DateAliases|;
  }

  /** The INGRESO scan reads only the `Hora` aliases: a record that has only
      an exit time does not block an entry. */
  lemma ExitTimeDoesNotBlockEntry(item: JsVal, today: string, user: string, dayKey: JsVal -> Option<string>)
    requires forall k | 0 <= k < |HoraAliases| :: IsNullish(Prop(item, HoraAliases[k]))
    ensures !Blocks(item, Ingreso, today, user, dayKey)
  {
    assert FirstPresent(item, HoraAliases) == |HoraAliases|;
  }

  /** A later record for the same user and day with a real time blocks the
      registration whatever the records before it hold. */
  lemma DuplicateAnywhere(records: seq<JsVal>, i: nat, t: Tipo, today: string, user: string,
                          dayKey: JsVal -> Option<string>)
    requires i < |records| && Blocks(records[i], t, today, user, dayKey)
    ensures ExistsDuplicate(records, t, today, user, dayKey)
  {
    ExistsDuplicateIff(records, t, today, user, dayKey);
  }

  // ---------------------------------------------------------------- device gates

  /** `requestLocationPermission()`: granted, and not thrown. */
  predicate PermissionGranted(request: Outcome<string>) {
    request == Ok("granted")
  }

  /** `checkLocationEnabled()`: the location services are on and the
      foreground permission is granted; a throw counts as disabled. */
  predicate LocationEnabled(services: Outcome<bool>, status: Outcome<string>) {
    services == Ok(true) && status == Ok("granted")
  }

  /** `Number.isFinite(Number(coords?.latitude)) && …longitude`. */
  predicate HasCoords(fix: GeoFix) {
    fix.latitude.Some? && fix.longitude.Some?
  }

  /** `usuarioAct === null || undefined || String(usuarioAct).trim() === ''`:
      the text is blank exactly when it trims to nothing (`BlankIff`). */
  predicate CuadrillaMissing(cuadrilla: JsVal) {
    IsNullish(cuadrilla) || Blank(ToStr(cuadrilla))
  }

  /** The team id is missing exactly when its trimmed text is empty. */
  lemma CuadrillaMissingIff(cuadrilla: JsVal)
    ensures CuadrillaMissing(cuadrilla) <==> TrimmedText(cuadrilla) == ""
  {
    if !IsNullish(cuadrilla) {
      BlankIff(ToStr(cuadrilla));
    }
  }

  // ---------------------------------------------------------------- warnings

  /** `coords?.accuracy && coords.accuracy > 20`. */
  predicate AccuracyLow(fix: GeoFix) {
    fix.accuracy.Some? && fix.accuracy.value != 0.0 && fix.accuracy.value > MaxGpsAccuracyMeters
  }

  /** The truthiness test adds nothing: the warning is due exactly when an
      accuracy is reported and it exceeds 20 m. */
  lemma AccuracyLowIff(fix: GeoFix)
    ensures AccuracyLow(fix) <==> fix.accuracy.Some? && fix.accuracy.value > 20.0
  {
  }

  /** `distance !== null && distance > 50`. */
  predicate OutOfRange(distance: Option<real>) {
    distance.Some? && distance.value > MaxDistanceMeters
  }

  /** A reference point that does not parse gives no distance, so the mark
      is never flagged out of range. */
  lemma UnparsedReferenceInRange(fix: GeoFix, valorFin: JsVal, dist: (real, real, real, real) -> real)
    requires ParseReferenceCoords(valorFin).None?
    ensures !OutOfRange(DistanceToRequiredPoint(Some(fix), valorFin, dist))
  {
  }

  /** The flag sent with a mark is set exactly when the position and the
      reference point are both known and more than 50 m apart. */
  lemma OutOfRangeIff(fix: GeoFix, valorFin: JsVal, dist: (real, real, real, real) -> real)
    ensures OutOfRange(DistanceToRequiredPoint(Some(fix), valorFin, dist))
        <==> && HasCoords(fix)
             && ParseReferenceCoords(valorFin).Some?
             && var c := ParseReferenceCoords(valorFin).value;
                dist(fix.latitude.value, fix.longitude.value, c.latitude, c.longitude) > 50.0
  {
  }

  lemma WarningLengths()
    ensures |AccuracyWarning| < |DistanceWarning|
    ensures AccuracyWarning[0] == 'P' && DistanceWarning[0] == 'L'
  {
    assert AccuracyWarning[0] == 'P';
    assert DistanceWarning[0] == 'L';
  }

  /** The warning text built in `handleRegister`: the accuracy warning, the
      distance warning, or both joined by a space. */
  function WarningMessage(accuracyLow: bool, distance: Option<real>): (r: string)
    ensures r == "" <==> !accuracyLow && !OutOfRange(distance)
    ensures accuracyLow <==> |r| >= |AccuracyWarning| && r[..|AccuracyWarning|] == AccuracyWarning
    ensures OutOfRange(distance)
        <==> |r| >= |DistanceWarning| && r[|r| - |DistanceWarning|..] == DistanceWarning
  {
    WarningLengths();
    var w := if accuracyLow then AccuracyWarning else "";
    if OutOfRange(distance) then
      if w != "" then
        var r := w + " " + DistanceWarning;
        assert r[..|AccuracyWarning|] == AccuracyWarning;
        assert r[|r| - |DistanceWarning|..] == DistanceWarning;
        r
      else
        assert DistanceWarning[..|AccuracyWarning|][0] != AccuracyWarning[0];
        DistanceWarning
    else w
  }

  /** The success text: with a warning it keeps the warning in front. */
  function SuccessMessage(warning: string, t: Tipo): (r: string)
    ensures |r| > |warning| && r[..|warning|] == warning
  {
    if warning != "" then warning + " " + TipoText(t) + " registrado correctamente."
    else TipoText(t) + " registrado correctamente"
  }

  // ---------------------------------------------------------------- submission

  /** What `registerAsistencia` is called with. */
  datatype RegisterPayload = RegisterPayload(
    usuarioAct: JsVal,
    codEmp: JsVal,
    tipo: Tipo,
    lat: Option<real>,
    lon: Option<real>,
    fechaAsistencia: string,
    outOfRange: bool)

  /** `res && !res.error`. */
  predicate RegisterSucceeded(res: JsVal) {
    Truthy(res) && !Truthy(Prop(res, "error"))
  }
}
