/** The attendance screen (ViewAsistencia.js) as an object whose fields are
    the screen's state: loading the day's records, registering a mark, and
    the summary bars. Every network and device call is an input: the
    responses of the three services, the outcome of each location call,
    the Lima day key of a value and the distance between two points. */
module ViewAsistenciaScreen {
  import opened Options
  import opened JsText
  import opened JsValues
  import opened EstadoRules
  import opened ReferenceCoords
  import opened RegistrationRules

  datatype Tab = Registro | Resumen

  const EmptyResponseMessage := "Respuesta vacía del servidor"
  const FetchFailedMessage := "Error al obtener datos"
  const UnexpectedResponseMessage := "Respuesta inesperada del servidor"
  const ValorFinMissingMessage := "No se pudo obtener ValorFin"
  const ValorFinAliases := ["ValorFin", "valorFin", "ValorFinal", "valorFinal"]

  /** The answers of `getConstanteOficinas`, `validarListadoDiario` and
      `getAsistencia` for one run of `fetchData`. */
  datatype FetchResponses = FetchResponses(constante: JsVal, validacion: JsVal, asistencia: JsVal)

  /** The outcomes of the location calls one press of a register button
      makes, and whether the app runs on a phone. */
  datatype Device = Device(
    permission: Outcome<string>,
    services: Outcome<bool>,
    status: Outcome<string>,
    position: Outcome<GeoFix>,
    isMobileApp: bool)

  // ---------------------------------------------------------------- fetchData

  /** `constanteOficinas && !constanteOficinas.error`. */
  predicate ConstanteLoaded(c: JsVal) {
    Truthy(c) && !Truthy(Prop(c, "error"))
  }

  /** `valorFin ?? valorFinal ?? (data[0] aliases ?? null)`, the point the
      marks are measured against. */
  function ValorFinOf(c: JsVal): JsVal {
    var rows := Prop(c, "data");
    var fromRows :=
      if rows.Arr? && |rows.items| > 0 && Truthy(rows.items[0])
      then Coalesce(rows.items[0], ValorFinAliases, Null)
      else Null;
    Nullish(Prop(c, "valorFin"), Nullish(Prop(c, "valorFinal"), fromRows))
  }

  /** A top-level `valorFin` wins, then a top-level `valorFinal`. */
  lemma ValorFinPrecedence(c: JsVal)
    ensures !IsNullish(Prop(c, "valorFin")) ==> ValorFinOf(c) == Prop(c, "valorFin")
    ensures IsNullish(Prop(c, "valorFin")) && !IsNullish(Prop(c, "valorFinal"))
            ==> ValorFinOf(c) == Prop(c, "valorFinal")
  {
  }

  /** Without top-level values the point is read from the first row, when
      `data` is a list whose first row is truthy, and is `null` otherwise. */
  lemma ValorFinOfRows(c: JsVal)
    requires IsNullish(Prop(c, "valorFin")) && IsNullish(Prop(c, "valorFinal"))
    ensures ValorFinOf(c) != Null ==>
      && Prop(c, "data").Arr? && |Prop(c, "data").items| > 0
      && ValorFinOf(c) == Coalesce(Prop(c, "data").items[0], ValorFinAliases, Null)
    ensures var rows := Prop(c, "data");
            rows.Arr? && |rows.items| > 0 && Truthy(rows.items[0])
            ==> ValorFinOf(c) == Coalesce(rows.items[0], ValorFinAliases, Null)
    ensures var rows := Prop(c, "data");
            !(rows.Arr? && |rows.items| > 0 && Truthy(rows.items[0])) ==> ValorFinOf(c) == Null
    ensures ValorFinOf(c) != Undefined
  {
  }

  /** The state of the day's list: `IdEstado ?? idEstado` of the first row
      of a valid answer, `null` otherwise (and when no user is known the
      list is not asked for). */
  function EstadoDiarioOf(usuarioCre: JsVal, validacion: JsVal): JsVal {
    if !Truthy(usuarioCre) then Null
    else if !Truthy(validacion) || Truthy(Prop(validacion, "error")) then Null
    else
      var list :=
        if Prop(validacion, "data").Arr? then Prop(validacion, "data").items
        else if validacion.Arr? then validacion.items
        else [];
      var primer := if |list| > 0 then Or(list[0], Null) else Null;
      Nullish(Prop(primer, "IdEstado"), Nullish(Prop(primer, "idEstado"), Null))
  }

  /** A valid answer gives the `IdEstado` (else `idEstado`) of its first
      row: the row of its `data` list when it has one, else of the answer
      itself when that is a list. */
  lemma EstadoDiarioFromFirstRow(usuarioCre: JsVal, validacion: JsVal, row: JsVal)
    requires Truthy(usuarioCre) && Truthy(validacion) && !Truthy(Prop(validacion, "error"))
    requires || (Prop(validacion, "data").Arr? && |Prop(validacion, "data").items| > 0
                 && Prop(validacion, "data").items[0] == row)
             || (!Prop(validacion, "data").Arr? && validacion.Arr? && |validacion.items| > 0
                 && validacion.items[0] == row)
    requires Truthy(row)
    ensures !IsNullish(Prop(row, "IdEstado")) ==> EstadoDiarioOf(usuarioCre, validacion) == Prop(row, "IdEstado")
    ensures IsNullish(Prop(row, "IdEstado")) ==> EstadoDiarioOf(usuarioCre, validacion) == Nullish(Prop(row, "idEstado"), Null)
  {
  }

  /** A valid answer without rows leaves the day's state `null`. */
  lemma EstadoDiarioNoRows(usuarioCre: JsVal, validacion: JsVal)
    requires Truthy(usuarioCre) && Truthy(validacion) && !Truthy(Prop(validacion, "error"))
    requires Prop(validacion, "data").Arr? ==> Prop(validacion, "data").items == []
    requires !Prop(validacion, "data").Arr? && validacion.Arr? ==> validacion.items == []
    ensures EstadoDiarioOf(usuarioCre, validacion) == Null
  {
  }

  /** A failed or missing check leaves the day's state `null`. */
  lemma EstadoDiarioNullOnFailure(usuarioCre: JsVal, validacion: JsVal)
    requires !Truthy(usuarioCre) || !Truthy(validacion) || Truthy(Prop(validacion, "error"))
    ensures EstadoDiarioOf(usuarioCre, validacion) == Null
  {
  }

  /** What `fetchData` makes of the `getAsistencia` answer: the records to
      show and, when the answer was unusable, the message to show. */
  datatype Fetched = Fetched(records: seq<JsVal>, message: Option<JsVal>)

  function ClassifyResponse(res: JsVal): (r: Fetched)
    ensures r.message.None? <==> ResponseUsable(res)
    ensures r.message.Some? ==> r.records == []
  {
    if !Truthy(res) then Fetched([], Some(Str(EmptyResponseMessage)))
    else if Truthy(Prop(res, "error")) then
      Fetched([], Some(Or(Prop(res, "message"), Str(FetchFailedMessage))))
    else if res.Arr? then Fetched(res.items, None)
    else if Truthy(Prop(res, "data")) && Prop(res, "data").Arr? then Fetched(Prop(res, "data").items, None)
    else Fetched([], Some(Str(UnexpectedResponseMessage)))
  }

  /** An answer without an error that is a list or carries one in `data`. */
  predicate ResponseUsable(res: JsVal) {
    Truthy(res) && !Truthy(Prop(res, "error")) && (res.Arr? || Prop(res, "data").Arr?)
  }

  /** Each kind of answer with what it shows: a missing answer and an error
      answer show nothing with their complaint, a list shows itself, an
      object shows its `data` list, anything else shows nothing and is
      called unexpected. */
  lemma ClassifiedRecords(res: JsVal)
    ensures !Truthy(res) ==> ClassifyResponse(res) == Fetched([], Some(Str(EmptyResponseMessage)))
    ensures Truthy(res) && Truthy(Prop(res, "error"))
            ==> ClassifyResponse(res) == Fetched([], Some(Or(Prop(res, "message"), Str(FetchFailedMessage))))
    ensures ResponseUsable(res) && res.Arr? ==> ClassifyResponse(res) == Fetched(res.items, None)
    ensures ResponseUsable(res) && !res.Arr?
            ==> ClassifyResponse(res) == Fetched(Prop(res, "data").items, None)
    ensures Truthy(res) && !Truthy(Prop(res, "error")) && !res.Arr? && !Prop(res, "data").Arr?
            ==> ClassifyResponse(res) == Fetched([], Some(Str(UnexpectedResponseMessage)))
  {
  }

  /** An error answer is never shown as records, even when it also carries
      a list. */
  lemma ErrorResponseShowsNothing(res: JsVal)
    requires Truthy(Prop(res, "error"))
    ensures ClassifyResponse(res).records == [] && ClassifyResponse(res).message.Some?
  {
  }

  /** The message after `fetchData`: the answer's complaint if it had one,
      else the `ValorFin` complaint if that failed, else unchanged. */
  function MessageAfterFetch(prev: JsVal, r: FetchResponses): JsVal {
    var afterConstante :=
      if !ConstanteLoaded(r.constante) && Truthy(Prop(r.constante, "error"))
      then Or(Prop(r.constante, "message"), Str(ValorFinMissingMessage))
      else prev;
    var m := ClassifyResponse(r.asistencia).message;
    if m.Some? then m.value else afterConstante
  }

  function ValorFinAfterFetch(prev: JsVal, c: JsVal): JsVal {
    if ConstanteLoaded(c) then ValorFinOf(c) else prev
  }

  /** The answer's complaint wins; without one, a failed constant shows its
      own complaint, and otherwise the message is kept. */
  lemma MessageAfterFetchCases(prev: JsVal, r: FetchResponses)
    ensures ClassifyResponse(r.asistencia).message.Some?
            ==> MessageAfterFetch(prev, r) == ClassifyResponse(r.asistencia).message.value
    ensures ResponseUsable(r.asistencia) && Truthy(Prop(r.constante, "error"))
            ==> MessageAfterFetch(prev, r) == Or(Prop(r.constante, "message"), Str(ValorFinMissingMessage))
    ensures ResponseUsable(r.asistencia) && !Truthy(Prop(r.constante, "error"))
            ==> MessageAfterFetch(prev, r) == prev
  {
  }

  /** A load keeps the last reference point when the constant fails, and
      otherwise replaces it, even by `null`. */
  lemma FetchValorFin(s: Screen, u: User, r: FetchResponses)
    ensures !ConstanteLoaded(r.constante) ==> Fetch(s, u, r).valorFin == s.valorFin
    ensures ConstanteLoaded(r.constante) ==> Fetch(s, u, r).valorFin == ValorFinOf(r.constante)
  {
  }

  /** A load shows exactly the answer's records and always ends loading. */
  lemma FetchShowsAnswer(s: Screen, u: User, r: FetchResponses)
    ensures ResponseUsable(r.asistencia) && r.asistencia.Arr? ==> Fetch(s, u, r).data == r.asistencia.items
    ensures ResponseUsable(r.asistencia) && !r.asistencia.Arr?
            ==> Fetch(s, u, r).data == Prop(r.asistencia, "data").items
    ensures !ResponseUsable(r.asistencia) ==> Fetch(s, u, r).data == []
    ensures !Fetch(s, u, r).loading
    ensures Fetch(s, u, r).activeTab == s.activeTab && Fetch(s, u, r).selectedResumenEstado == s.selectedResumenEstado
  {
    ClassifiedRecords(r.asistencia);
  }

  /** Pressing the same bar twice restores a selection that was empty or
      that bar, and clears any other. */
  lemma ToggleTwice(prev: Option<string>, estado: string)
    ensures prev.None? || prev == Some(estado) ==> ToggleSelection(ToggleSelection(prev, estado), estado) == prev
    ensures prev.Some? && prev != Some(estado) ==> ToggleSelection(ToggleSelection(prev, estado), estado).None?
  {
  }

  /** `toggle` on a summary bar: `prev === estado ? null : estado`. */
  function ToggleSelection(prev: Option<string>, estado: string): (r: Option<string>)
    ensures r == Some(estado) <==> prev != Some(estado)
    ensures r.None? <==> prev == Some(estado)
  {
    if prev == Some(estado) then None else Some(estado)
  }

  /** Selecting a bar lists exactly that state's records; pressing it again
      lists nothing. */
  lemma ToggleFilters(records: seq<JsVal>, prev: Option<string>, estado: string)
    requires estado != "" && estado != AllEstados
    ensures prev != Some(estado) ==>
      FilteredRecords(records, ToggleSelection(prev, estado)) == FilterByEstado(records, estado)
    ensures prev == Some(estado) ==> FilteredRecords(records, ToggleSelection(prev, estado)) == []
  {
  }

  /** The warning text for a position. */
  function RegisterWarning(fix: GeoFix, valorFin: JsVal, dist: (real, real, real, real) -> real): string {
    WarningMessage(AccuracyLow(fix), DistanceToRequiredPoint(Some(fix), valorFin, dist))
  }

  /** The payload `executeRegister` sends: the team id as both user fields. */
  function Payload(cuadrilla: JsVal, tipo: Tipo, fix: GeoFix, today: string, valorFin: JsVal,
                   dist: (real, real, real, real) -> real): RegisterPayload {
    RegisterPayload(cuadrilla, cuadrilla, tipo, fix.latitude, fix.longitude, today,
                    OutOfRange(DistanceToRequiredPoint(Some(fix), valorFin, dist)))
  }

  /** The message after a sent registration when no refetch follows. */
  function FailureMessage(response: JsVal): JsVal {
    if IsNullish(response) then Str(LocationRequiredMessage)
    else Or(Prop(response, "message"), Str(RegisterFailedMessage))
  }

  // ---------------------------------------------------------------- screen state

  /** The signed-in user as the screen reads it from the user context. */
  datatype User = User(cuadrilla: JsVal, codEmp: JsVal, idusuario: JsVal) {
    /** `cuadrilla || idusuario || codEmp`: the user the day's list is asked for. */
    function ListUser(): JsVal {
      Or(cuadrilla, Or(idusuario, codEmp))
    }

    /** The key the duplicate scan compares records against. */
    function Key(): string {
      CurrentUserKey(cuadrilla, codEmp, idusuario)
    }
  }

  /** The screen's state variables, as one value. */
  datatype Screen = Screen(
    activeTab: Tab,
    selectedResumenEstado: Option<string>,
    data: seq<JsVal>,
    loading: bool,
    message: JsVal,
    registeringTipo: Option<Tipo>,
    pressedTipo: Option<Tipo>,
    hasLocation: bool,
    valorFin: JsVal,
    idEstadoDiario: JsVal)

  /** What one step of a registration leaves: the new state, and the
      payload sent to the service if one was. */
  datatype Attempt = Attempt(after: Screen, sent: Option<RegisterPayload>)

  /** `s` after `fetchData`. */
  function Fetch(s: Screen, u: User, r: FetchResponses): Screen {
    s.(data := ClassifyResponse(r.asistencia).records,
       message := MessageAfterFetch(s.message, r),
       valorFin := ValorFinAfterFetch(s.valorFin, r.constante),
       idEstadoDiario := EstadoDiarioOf(u.ListUser(), r.validacion),
       loading := false)
  }

  /** `s` after a registration of `tipo` is sent and answered with `response`. */
  function Submitted(s: Screen, u: User, tipo: Tipo, warning: string, response: JsVal,
                     refetch: FetchResponses): Screen {
    if RegisterSucceeded(response) then
      Fetch(s.(loading := false, message := Str(SuccessMessage(warning, tipo)),
               activeTab := Resumen, selectedResumenEstado := Some(AllEstados)), u, refetch)
    else
      s.(loading := false, message := FailureMessage(response))
  }

  /** `executeRegister`: the team-id check, the coordinates check on a
      phone, then the submission. */
  function Executed(s: Screen, u: User, tipo: Tipo, fix: GeoFix, warning: string, outOfRange: bool,
                    isMobileApp: bool, today: string, response: JsVal, refetch: FetchResponses): Attempt {
    if CuadrillaMissing(u.cuadrilla) then
      Attempt(s.(message := Str(CuadrillaMissingMessage)), None)
    else if isMobileApp && !HasCoords(fix) then
      Attempt(s.(message := Str(LocationRequiredMessage)), None)
    else
      Attempt(Submitted(s, u, tipo, warning, response, refetch),
              Some(RegisterPayload(u.cuadrilla, u.cuadrilla, tipo, fix.latitude, fix.longitude, today, outOfRange)))
  }

  /** The location part of `handleRegister`: permission, location services,
      one position reading, the two warnings, then `executeRegister`. */
  function Located(s: Screen, u: User, tipo: Tipo, today: string, device: Device,
                   dist: (real, real, real, real) -> real, response: JsVal, refetch: FetchResponses): Attempt {
    if !PermissionGranted(device.permission) then
      Attempt(s.(hasLocation := false, message := Str(LocationRequiredMessage)), None)
    else
      var enabled := LocationEnabled(device.services, device.status);
      if !enabled || device.position.Throws? then
        Attempt(s.(hasLocation := enabled, message := Str(LocationRequiredMessage)), None)
      else
        var fix := device.position.value;
        var distance := DistanceToRequiredPoint(Some(fix), s.valorFin, dist);
        Executed(s.(hasLocation := true), u, tipo, fix, WarningMessage(AccuracyLow(fix), distance),
                 OutOfRange(distance), device.isMobileApp, today, response, refetch)
  }

  /** A press of a register button is ignored while one is in progress or
      the screen is loading. */
  predicate Busy(s: Screen) {
    s.registeringTipo.Some? || s.loading
  }

  /** `handleRegister(tipo)`: the re-entrancy guard, the duplicate scan, then
      the location part; the pressed and in-progress marks are cleared on
      every exit past the guard. */
  function Pressed(s: Screen, u: User, tipo: Tipo, today: string, dayKey: JsVal -> Option<string>,
                   device: Device, dist: (real, real, real, real) -> real, response: JsVal,
                   refetch: FetchResponses): Attempt {
    if Busy(s) then Attempt(s, None)
    else
      var marked := s.(registeringTipo := Some(tipo));
      var a :=
        if ExistsDuplicate(s.data, tipo, today, u.Key(), dayKey)
        then Attempt(marked.(message := Str(DuplicateMessage(tipo))), None)
        else Located(marked, u, tipo, today, device, dist, response, refetch);
      Attempt(a.after.(registeringTipo := None, pressedTipo := None), a.sent)
  }

  // ---------------------------------------------------------------- registration properties

  /** A mark is sent exactly when the team id is known and, on a phone,
      both coordinates are; it carries the team id as both user fields. */
  lemma ExecuteRegisterGates(s: Screen, u: User, tipo: Tipo, fix: GeoFix, warning: string, outOfRange: bool,
                             isMobileApp: bool, today: string, response: JsVal, refetch: FetchResponses)
    ensures var a := Executed(s, u, tipo, fix, warning, outOfRange, isMobileApp, today, response, refetch);
            && (a.sent.Some? <==> !CuadrillaMissing(u.cuadrilla) && (isMobileApp ==> HasCoords(fix)))
            && (a.sent.Some? ==> a.sent.value.usuarioAct == u.cuadrilla && a.sent.value.codEmp == u.cuadrilla)
            && (a.sent.Some? ==> a.sent.value.lat == fix.latitude && a.sent.value.lon == fix.longitude)
            && (CuadrillaMissing(u.cuadrilla) ==> a.after == s.(message := Str(CuadrillaMissingMessage)))
            && (!CuadrillaMissing(u.cuadrilla) && isMobileApp && !HasCoords(fix)
                ==> a.after == s.(message := Str(LocationRequiredMessage)))
  {
  }

  /** With permission, location services and a position, the location part
      goes on to `executeRegister` with the position's warnings. */
  lemma LocatedOnFix(s: Screen, u: User, tipo: Tipo, today: string, device: Device,
                     dist: (real, real, real, real) -> real, response: JsVal, refetch: FetchResponses)
    requires PermissionGranted(device.permission) && LocationEnabled(device.services, device.status)
    requires device.position.Ok?
    ensures Located(s, u, tipo, today, device, dist, response, refetch)
            == Executed(s.(hasLocation := true), u, tipo, device.position.value,
                        RegisterWarning(device.position.value, s.valorFin, dist),
                        OutOfRange(DistanceToRequiredPoint(Some(device.position.value), s.valorFin, dist)),
                        device.isMobileApp, today, response, refetch)
  {
  }

  /** Without permission, location services or a position, the location
      part only records the location flag and shows the location message. */
  lemma LocatedRefused(s: Screen, u: User, tipo: Tipo, today: string, device: Device,
                       dist: (real, real, real, real) -> real, response: JsVal, refetch: FetchResponses)
    requires !(PermissionGranted(device.permission) && LocationEnabled(device.services, device.status)
               && device.position.Ok?)
    ensures Located(s, u, tipo, today, device, dist, response, refetch)
            == Attempt(s.(hasLocation := PermissionGranted(device.permission)
                                         && LocationEnabled(device.services, device.status),
                          message := Str(LocationRequiredMessage)), None)
  {
  }

  /** `executeRegister` touches neither the tab, the selection, the records
      nor the reference point unless the mark is sent and accepted. */
  lemma ExecutedKeepsView(s: Screen, u: User, tipo: Tipo, fix: GeoFix, warning: string, outOfRange: bool,
                          isMobileApp: bool, today: string, response: JsVal, refetch: FetchResponses)
    ensures var a := Executed(s, u, tipo, fix, warning, outOfRange, isMobileApp, today, response, refetch);
            && (!(a.sent.Some? && RegisterSucceeded(response)) ==>
                  && a.after.activeTab == s.activeTab && a.after.selectedResumenEstado == s.selectedResumenEstado
                  && a.after.data == s.data && a.after.valorFin == s.valorFin)
            && (a.sent.Some? && !RegisterSucceeded(response) ==> a.after.message == FailureMessage(response))
            && a.after.registeringTipo == s.registeringTipo && a.after.pressedTipo == s.pressedTipo
            && a.after.loading == (s.loading && a.sent.None?)
  {
  }

  /** The location part keeps the view in the same cases. */
  lemma LocatedKeepsView(s: Screen, u: User, tipo: Tipo, today: string, device: Device,
                         dist: (real, real, real, real) -> real, response: JsVal, refetch: FetchResponses)
    ensures var a := Located(s, u, tipo, today, device, dist, response, refetch);
            && (!(a.sent.Some? && RegisterSucceeded(response)) ==>
                  && a.after.activeTab == s.activeTab && a.after.selectedResumenEstado == s.selectedResumenEstado
                  && a.after.data == s.data && a.after.valorFin == s.valorFin)
            && (a.sent.Some? && !RegisterSucceeded(response) ==> a.after.message == FailureMessage(response))
            && a.after.registeringTipo == s.registeringTipo && a.after.pressedTipo == s.pressedTipo
            && a.after.loading == (s.loading && a.sent.None?)
  {
    if PermissionGranted(device.permission) && LocationEnabled(device.services, device.status)
       && device.position.Ok? {
      var fix := device.position.value;
      LocatedOnFix(s, u, tipo, today, device, dist, response, refetch);
      ExecutedKeepsView(s.(hasLocation := true), u, tipo, fix, RegisterWarning(fix, s.valorFin, dist),
                        OutOfRange(DistanceToRequiredPoint(Some(fix), s.valorFin, dist)),
                        device.isMobileApp, today, response, refetch);
    } else {
      LocatedRefused(s, u, tipo, today, device, dist, response, refetch);
    }
  }

  /** An accepted mark switches to the summary of every state and reloads,
      with the success message; the location flag is left alone. */
  lemma ExecutedSummary(s: Screen, u: User, tipo: Tipo, fix: GeoFix, warning: string, outOfRange: bool,
                        isMobileApp: bool, today: string, response: JsVal, refetch: FetchResponses)
    ensures var a := Executed(s, u, tipo, fix, warning, outOfRange, isMobileApp, today, response, refetch);
            && a.after.hasLocation == s.hasLocation
            && (a.sent.Some? && RegisterSucceeded(response) ==>
                  && a.after.activeTab == Resumen
                  && a.after.selectedResumenEstado == Some(AllEstados)
                  && a.after.data == ClassifyResponse(refetch.asistencia).records
                  && a.after.message == MessageAfterFetch(Str(SuccessMessage(warning, tipo)), refetch))
  {
  }

  /** What the location part sends: the gates it passed and the payload. */
  lemma LocatedSends(s: Screen, u: User, tipo: Tipo, today: string, device: Device,
                     dist: (real, real, real, real) -> real, response: JsVal, refetch: FetchResponses)
    ensures var a := Located(s, u, tipo, today, device, dist, response, refetch);
            a.sent.Some? <==>
              && PermissionGranted(device.permission)
              && LocationEnabled(device.services, device.status)
              && device.position.Ok?
              && !CuadrillaMissing(u.cuadrilla)
              && (device.isMobileApp ==> HasCoords(device.position.value))
    ensures var a := Located(s, u, tipo, today, device, dist, response, refetch);
            a.sent.Some? ==> device.position.Ok? && a.sent == Some(Payload(u.cuadrilla, tipo, device.position.value, today, s.valorFin, dist))
  {
    if PermissionGranted(device.permission) && LocationEnabled(device.services, device.status)
       && device.position.Ok? {
      var fix := device.position.value;
      LocatedOnFix(s, u, tipo, today, device, dist, response, refetch);
      ExecuteRegisterGates(s.(hasLocation := true), u, tipo, fix, RegisterWarning(fix, s.valorFin, dist),
                           OutOfRange(DistanceToRequiredPoint(Some(fix), s.valorFin, dist)),
                           device.isMobileApp, today, response, refetch);
    } else {
      LocatedRefused(s, u, tipo, today, device, dist, response, refetch);
    }
  }

  /** The location flag the location part records, and the summary it
      shows after an accepted mark. */
  lemma LocatedSummary(s: Screen, u: User, tipo: Tipo, today: string, device: Device,
                       dist: (real, real, real, real) -> real, response: JsVal, refetch: FetchResponses)
    ensures var a := Located(s, u, tipo, today, device, dist, response, refetch);
            a.after.hasLocation == (PermissionGranted(device.permission) && LocationEnabled(device.services, device.status))
    ensures var a := Located(s, u, tipo, today, device, dist, response, refetch);
            a.sent.Some? && RegisterSucceeded(response) ==>
              && device.position.Ok?
              && a.after.activeTab == Resumen
              && a.after.selectedResumenEstado == Some(AllEstados)
              && a.after.data == ClassifyResponse(refetch.asistencia).records
              && a.after.message == MessageAfterFetch(
                   Str(SuccessMessage(RegisterWarning(device.position.value, s.valorFin, dist), tipo)), refetch)
  {
    if PermissionGranted(device.permission) && LocationEnabled(device.services, device.status)
       && device.position.Ok? {
      var fix := device.position.value;
      LocatedOnFix(s, u, tipo, today, device, dist, response, refetch);
      ExecutedSummary(s.(hasLocation := true), u, tipo, fix, RegisterWarning(fix, s.valorFin, dist),
                      OutOfRange(DistanceToRequiredPoint(Some(fix), s.valorFin, dist)),
                      device.isMobileApp, today, response, refetch);
    } else {
      LocatedRefused(s, u, tipo, today, device, dist, response, refetch);
    }
  }

  /** A duplicate press only shows the duplicate message and clears the marks. */
  lemma PressedDuplicate(s: Screen, u: User, tipo: Tipo, today: string, dayKey: JsVal -> Option<string>,
                         device: Device, dist: (real, real, real, real) -> real, response: JsVal,
                         refetch: FetchResponses)
    requires !Busy(s) && ExistsDuplicate(s.data, tipo, today, u.Key(), dayKey)
    ensures Pressed(s, u, tipo, today, dayKey, device, dist, response, refetch)
            == Attempt(s.(registeringTipo := None, pressedTipo := None, message := Str(DuplicateMessage(tipo))), None)
  {
  }

  /** Any other press past the guard goes through the location part with
      the in-progress mark set, and clears the marks afterwards. */
  lemma PressedLocates(s: Screen, u: User, tipo: Tipo, today: string, dayKey: JsVal -> Option<string>,
                       device: Device, dist: (real, real, real, real) -> real, response: JsVal,
                       refetch: FetchResponses)
    requires !Busy(s) && !ExistsDuplicate(s.data, tipo, today, u.Key(), dayKey)
    ensures var a := Located(s.(registeringTipo := Some(tipo)), u, tipo, today, device, dist, response, refetch);
            Pressed(s, u, tipo, today, dayKey, device, dist, response, refetch)
            == Attempt(a.after.(registeringTipo := None, pressedTipo := None), a.sent)
  {
  }

  /** A press while busy changes nothing and sends nothing. */
  lemma BusyPressIgnored(s: Screen, u: User, tipo: Tipo, today: string, dayKey: JsVal -> Option<string>,
                         device: Device, dist: (real, real, real, real) -> real, response: JsVal,
                         refetch: FetchResponses)
    requires Busy(s)
    ensures Pressed(s, u, tipo, today, dayKey, device, dist, response, refetch) == Attempt(s, None)
  {
  }

  /** Past the guard, the marks are cleared and the loading flag is as it
      was, whatever happened in between. */
  lemma PressClearsMarks(s: Screen, u: User, tipo: Tipo, today: string, dayKey: JsVal -> Option<string>,
                         device: Device, dist: (real, real, real, real) -> real, response: JsVal,
                         refetch: FetchResponses)
    requires !Busy(s)
    ensures var a := Pressed(s, u, tipo, today, dayKey, device, dist, response, refetch);
            a.after.registeringTipo.None? && a.after.pressedTipo.None? && a.after.loading == s.loading
  {
    if !ExistsDuplicate(s.data, tipo, today, u.Key(), dayKey) {
      LocatedKeepsView(s.(registeringTipo := Some(tipo)), u, tipo, today, device, dist, response, refetch);
    }
  }

  /** The gates a sent mark has passed, in the order `handleRegister`
      checks them, and the payload it carries. */
  lemma PressSendsIff(s: Screen, u: User, tipo: Tipo, today: string, dayKey: JsVal -> Option<string>,
                      device: Device, dist: (real, real, real, real) -> real, response: JsVal,
                      refetch: FetchResponses)
    ensures var a := Pressed(s, u, tipo, today, dayKey, device, dist, response, refetch);
            a.sent.Some? <==>
              && !Busy(s)
              && !ExistsDuplicate(s.data, tipo, today, u.Key(), dayKey)
              && PermissionGranted(device.permission)
              && LocationEnabled(device.services, device.status)
              && device.position.Ok?
              && !CuadrillaMissing(u.cuadrilla)
              && (device.isMobileApp ==> HasCoords(device.position.value))
    ensures var a := Pressed(s, u, tipo, today, dayKey, device, dist, response, refetch);
            a.sent.Some? ==> device.position.Ok? && a.sent == Some(Payload(u.cuadrilla, tipo, device.position.value, today, s.valorFin, dist))
  {
    if !Busy(s) {
      if ExistsDuplicate(s.data, tipo, today, u.Key(), dayKey) {
        PressedDuplicate(s, u, tipo, today, dayKey, device, dist, response, refetch);
      } else {
        PressedLocates(s, u, tipo, today, dayKey, device, dist, response, refetch);
        LocatedSends(s.(registeringTipo := Some(tipo)), u, tipo, today, device, dist, response, refetch);
      }
    }
  }

  /** A same-day duplicate stops the press before any location call: the
      location flag is untouched and the duplicate message is shown. */
  lemma DuplicateStopsPress(s: Screen, u: User, tipo: Tipo, today: string, dayKey: JsVal -> Option<string>,
                            device: Device, dist: (real, real, real, real) -> real, response: JsVal,
                            refetch: FetchResponses)
    requires !Busy(s) && ExistsDuplicate(s.data, tipo, today, u.Key(), dayKey)
    ensures var a := Pressed(s, u, tipo, today, dayKey, device, dist, response, refetch);
            && a.sent.None?
            && a.after.message == Str(DuplicateMessage(tipo))
            && a.after.hasLocation == s.hasLocation
            && a.after.data == s.data && a.after.activeTab == s.activeTab
  {
    PressedDuplicate(s, u, tipo, today, dayKey, device, dist, response, refetch);
  }

  /** Without permission, location services or a position reading the
      location message is shown; the location flag records the first two. */
  lemma LocationFailureShown(s: Screen, u: User, tipo: Tipo, today: string, dayKey: JsVal -> Option<string>,
                             device: Device, dist: (real, real, real, real) -> real, response: JsVal,
                             refetch: FetchResponses)
    requires !Busy(s) && !ExistsDuplicate(s.data, tipo, today, u.Key(), dayKey)
    ensures var a := Pressed(s, u, tipo, today, dayKey, device, dist, response, refetch);
            a.after.hasLocation == (PermissionGranted(device.permission) && LocationEnabled(device.services, device.status))
    ensures var a := Pressed(s, u, tipo, today, dayKey, device, dist, response, refetch);
            !(PermissionGranted(device.permission) && LocationEnabled(device.services, device.status)
              && device.position.Ok?)
            ==> a.sent.None? && a.after.message == Str(LocationRequiredMessage)
  {
    PressedLocates(s, u, tipo, today, dayKey, device, dist, response, refetch);
    LocatedSends(s.(registeringTipo := Some(tipo)), u, tipo, today, device, dist, response, refetch);
    LocatedSummary(s.(registeringTipo := Some(tipo)), u, tipo, today, device, dist, response, refetch);
  }

  /** An accepted mark switches to the summary of every state and reloads;
      the success message carries the position's warnings. */
  lemma SuccessShowsSummary(s: Screen, u: User, tipo: Tipo, today: string, dayKey: JsVal -> Option<string>,
                            device: Device, dist: (real, real, real, real) -> real, response: JsVal,
                            refetch: FetchResponses)
    ensures var a := Pressed(s, u, tipo, today, dayKey, device, dist, response, refetch);
            a.sent.Some? && RegisterSucceeded(response) ==>
              && device.position.Ok?
              && a.after.activeTab == Resumen
              && a.after.selectedResumenEstado == Some(AllEstados)
              && a.after.data == ClassifyResponse(refetch.asistencia).records
              && a.after.message == MessageAfterFetch(
                   Str(SuccessMessage(RegisterWarning(device.position.value, s.valorFin, dist), tipo)), refetch)
  {
    if !Busy(s) && !ExistsDuplicate(s.data, tipo, today, u.Key(), dayKey) {
      PressedLocates(s, u, tipo, today, dayKey, device, dist, response, refetch);
      LocatedSummary(s.(registeringTipo := Some(tipo)), u, tipo, today, device, dist, response, refetch);
    }
  }

  /** A refused or failed mark leaves the tab, the selection, the records
      and the reference point as they were; a sent one that failed shows
      the service's complaint. */
  lemma FailureKeepsView(s: Screen, u: User, tipo: Tipo, today: string, dayKey: JsVal -> Option<string>,
                         device: Device, dist: (real, real, real, real) -> real, response: JsVal,
                         refetch: FetchResponses)
    ensures var a := Pressed(s, u, tipo, today, dayKey, device, dist, response, refetch);
            !(a.sent.Some? && RegisterSucceeded(response)) ==>
              && a.after.activeTab == s.activeTab && a.after.selectedResumenEstado == s.selectedResumenEstado
              && a.after.data == s.data && a.after.valorFin == s.valorFin
    ensures var a := Pressed(s, u, tipo, today, dayKey, device, dist, response, refetch);
            a.sent.Some? && !RegisterSucceeded(response) ==> a.after.message == FailureMessage(response)
  {
    if !Busy(s) && !ExistsDuplicate(s.data, tipo, today, u.Key(), dayKey) {
      LocatedKeepsView(s.(registeringTipo := Some(tipo)), u, tipo, today, device, dist, response, refetch);
    }
  }

  // ---------------------------------------------------------------- the screen

  class ViewAsistencia {
    var activeTab: Tab
    var selectedResumenEstado: Option<string>
    var data: seq<JsVal>
    var loading: bool
    var message: JsVal
    var registeringTipo: Option<Tipo>
    var pressedTipo: Option<Tipo>
    var hasLocation: bool
    var valorFin: JsVal
    var idEstadoDiario: JsVal

    /** The signed-in user, from the user context. */
    const user: User

    constructor(user: User)
      ensures this.user == user
      ensures activeTab == Registro && selectedResumenEstado.None? && data == [] && !loading
      ensures message == Str("") && registeringTipo.None? && pressedTipo.None?
      ensures hasLocation && valorFin == Null && idEstadoDiario == Null
    {
      this.user := user;
      activeTab := Registro;
      selectedResumenEstado := None;
      data := [];
      loading := false;
      message := Str("");
      registeringTipo := None;
      pressedTipo := None;
      hasLocation := true;
      valorFin := Null;
      idEstadoDiario := Null;
    }

    /** The state variables as one value. */
    function Snapshot(): Screen
      reads this
    {
      Screen(activeTab, selectedResumenEstado, data, loading, message, registeringTipo, pressedTipo,
             hasLocation, valorFin, idEstadoDiario)
    }

    /** `resumenData.estados`. */
    function ResumenData(): Buckets
      reads this
    {
      CountByEstado(data)
    }

    /** `filteredResumenRecords`. */
    function FilteredResumenRecords(): seq<JsVal>
      reads this
    {
      FilteredRecords(data, selectedResumenEstado)
    }

    /** `fetchData`: loads the reference point, the day's list state and
        the records, then ends the loading state. */
    method FetchData(r: FetchResponses)
      modifies this
      ensures Snapshot() == Fetch(old(Snapshot()), user, r)
    {
      loading := true;
      if ConstanteLoaded(r.constante) {
        valorFin := ValorFinOf(r.constante);
      } else if Truthy(Prop(r.constante, "error")) {
        message := Or(Prop(r.constante, "message"), Str(ValorFinMissingMessage));
      }
      idEstadoDiario := EstadoDiarioOf(user.ListUser(), r.validacion);
      var fetched := ClassifyResponse(r.asistencia);
      data := fetched.records;
      if fetched.message.Some? {
        message := fetched.message.value;
      }
      loading := false;
    }

    /** The part of `executeRegister` after its checks: sends `payload`,
        then on success shows the summary of all states and reloads. A
        `null` answer makes `res.message` throw; the caller's `catch` then
        shows the location message, which is folded in here. */
    method Submit(payload: RegisterPayload, warning: string, response: JsVal, refetch: FetchResponses)
      modifies this
      ensures Snapshot() == Submitted(old(Snapshot()), user, payload.tipo, warning, response, refetch)
    {
      // `loading` is raised only while the request is awaited.
      loading := false;
      if RegisterSucceeded(response) {
        message := Str(SuccessMessage(warning, payload.tipo));
        activeTab := Resumen;
        selectedResumenEstado := Some(AllEstados);
        FetchData(refetch);
      } else {
        message := FailureMessage(response);
      }
    }

    /** `executeRegister` */
    method ExecuteRegister(tipo: Tipo, fix: GeoFix, warning: string, outOfRange: bool,
                           isMobileApp: bool, today: string, response: JsVal, refetch: FetchResponses)
      returns (sent: Option<RegisterPayload>)
      modifies this
      ensures Attempt(Snapshot(), sent)
              == Executed(old(Snapshot()), user, tipo, fix, warning, outOfRange, isMobileApp, today, response, refetch)
    {
      sent := None;
      if CuadrillaMissing(user.cuadrilla) {
        message := Str(CuadrillaMissingMessage);
      } else if isMobileApp && !HasCoords(fix) {
        message := Str(LocationRequiredMessage);
      } else {
        var payload := RegisterPayload(user.cuadrilla, user.cuadrilla, tipo, fix.latitude, fix.longitude,
                                       today, outOfRange);
        sent := Some(payload);
        Submit(payload, warning, response, refetch);
      }
    }

    /** The location part of `handleRegister`. Any failure on the way shows
        the location message. */
    method LocateAndRegister(tipo: Tipo, today: string, device: Device,
                             dist: (real, real, real, real) -> real, response: JsVal, refetch: FetchResponses)
      returns (sent: Option<RegisterPayload>)
      modifies this
      ensures Attempt(Snapshot(), sent)
              == Located(old(Snapshot()), user, tipo, today, device, dist, response, refetch)
    {
      ghost var s0 := Snapshot();
      sent := None;
      if !(PermissionGranted(device.permission) && LocationEnabled(device.services, device.status)
           && device.position.Ok?) {
        LocatedRefused(s0, user, tipo, today, device, dist, response, refetch);
      } else {
        LocatedOnFix(s0, user, tipo, today, device, dist, response, refetch);
      }
      if !PermissionGranted(device.permission) {
        hasLocation := false;
        message := Str(LocationRequiredMessage);
      } else {
        hasLocation := LocationEnabled(device.services, device.status);
        if !hasLocation {
          message := Str(LocationRequiredMessage);
        } else if device.position.Throws? {
          message := Str(LocationRequiredMessage);
        } else {
          var fix := device.position.value;
          var distance := DistanceToRequiredPoint(Some(fix), valorFin, dist);
          var warning := WarningMessage(AccuracyLow(fix), distance);
          sent := ExecuteRegister(tipo, fix, warning, OutOfRange(distance), device.isMobileApp,
                                  today, response, refetch);
        }
      }
    }

    /** `handleRegister(tipo)` */
    method HandleRegister(tipo: Tipo, today: string, dayKey: JsVal -> Option<string>, device: Device,
                          dist: (real, real, real, real) -> real, response: JsVal, refetch: FetchResponses)
      returns (sent: Option<RegisterPayload>)
      modifies this
      ensures Attempt(Snapshot(), sent)
              == Pressed(old(Snapshot()), user, tipo, today, dayKey, device, dist, response, refetch)
    {
      ghost var s0 := Snapshot();
      sent := None;
      if registeringTipo.Some? || loading {
        return;
      }
      if ExistsDuplicate(data, tipo, today, user.Key(), dayKey) {
        PressedDuplicate(s0, user, tipo, today, dayKey, device, dist, response, refetch);
        RejectDuplicate(tipo);
        return;
      }
      PressedLocates(s0, user, tipo, today, dayKey, device, dist, response, refetch);
      sent := RegisterMarked(tipo, today, device, dist, response, refetch);
    }

    /** A same-day duplicate: the duplicate message is shown and both marks
        are cleared. */
    method RejectDuplicate(tipo: Tipo)
      modifies this
      ensures Snapshot()
              == old(Snapshot()).(registeringTipo := None, pressedTipo := None, message := Str(DuplicateMessage(tipo)))
    {
      registeringTipo := Some(tipo);
      message := Str(DuplicateMessage(tipo));
      registeringTipo := None;
      pressedTipo := None;
    }

    /** The part of `handleRegister` past the duplicate scan: mark the
        registration in progress, run the location part, clear both marks. */
    method RegisterMarked(tipo: Tipo, today: string, device: Device,
                          dist: (real, real, real, real) -> real, response: JsVal, refetch: FetchResponses)
      returns (sent: Option<RegisterPayload>)
      modifies this
      ensures var a := Located(old(Snapshot()).(registeringTipo := Some(tipo)), user, tipo, today, device, dist,
                               response, refetch);
              Snapshot() == a.after.(registeringTipo := None, pressedTipo := None) && sent == a.sent
    {
      registeringTipo := Some(tipo);
      sent := LocateAndRegister(tipo, today, device, dist, response, refetch);
      ghost var a := Attempt(Snapshot(), sent);
      registeringTipo := None;
      pressedTipo := None;
      assert Snapshot() == a.after.(registeringTipo := None, pressedTipo := None);
    }

    /** `onPressIn` / `onPressOut` of a register button. */
    method PressIn(tipo: Tipo)
      modifies this
      ensures Snapshot() == old(Snapshot()).(pressedTipo := Some(tipo))
    {
      pressedTipo := Some(tipo);
    }

    method PressOut()
      modifies this
      ensures Snapshot() == old(Snapshot()).(pressedTipo := None)
    {
      pressedTipo := None;
    }

    /** Pressing a summary bar selects it, or clears it when it was selected. */
    method ToggleBar(estado: string)
      modifies this
      ensures Snapshot() == old(Snapshot()).(selectedResumenEstado := ToggleSelection(old(selectedResumenEstado), estado))
    {
      selectedResumenEstado := ToggleSelection(selectedResumenEstado, estado);
    }

    /** Pressing the total row selects every record. */
    method SelectAll()
      modifies this
      ensures Snapshot() == old(Snapshot()).(selectedResumenEstado := Some(AllEstados))
      ensures FilteredResumenRecords() == data
    {
      selectedResumenEstado := Some(AllEstados);
    }

    /** The REGISTRO tab button. */
    method ShowRegistro()
      modifies this
      ensures Snapshot() == old(Snapshot()).(activeTab := Registro)
    {
      activeTab := Registro;
    }

    /** The RESUMEN tab button: shows the summary and reloads. */
    method ShowResumen(r: FetchResponses)
      modifies this
      ensures Snapshot() == Fetch(old(Snapshot()).(activeTab := Resumen), user, r)
    {
      activeTab := Resumen;
      FetchData(r);
    }
  }
}
