/** The attendance controller of the backend: how each request handler picks
    its identifiers from the query and the body, when it answers 400 without
    calling its service, and how it turns the service's value or exception
    into the reply. */
module AsistenciaController {
  import opened Options
  import opened JsText
  import opened JsValues
  import AsistenciaService

  /** An incoming request: `req.query` and `req.body` (which may be absent). */
  datatype Request = Request(query: JsVal, body: JsVal)

  /** What a service call produced: its value, or a thrown error whose
      `message` property the handler reads. */
  datatype ServiceResult = Returned(value: JsVal) | Failed(errorMessage: JsVal)

  /** The reply sent: HTTP status and JSON body. */
  datatype Reply = Reply(status: int, body: JsVal)

  /** One handler run: the argument of the service call it made, if it made
      one (`undefined` for a call without arguments), and the reply. */
  datatype Handled = Handled(call: Option<JsVal>, reply: Reply)

  const UsuarioActRequired := "Parámetro usuarioAct es requerido"
  const UsuarioCreRequired := "Parámetro usuarioCre es requerido"
  const MissingProcedureWarning := "SP sp_CargarListadoDiario " + "no encontrado"

  /** `res.status(500).json({ message, error: error.message })` */
  function ServerError(message: string, errorMessage: JsVal): Reply {
    Reply(500, Obj(map["message" := Str(message), "error" := errorMessage]))
  }

  /** `{ success: true, <key>: value }` */
  function Success(key: string, value: JsVal): JsVal {
    Obj(map["success" := Bool(true), key := value])
  }

  // ---------------------------------------------------------------- getAsistencia

  /** `req.query.codEmp || req.body?.codEmp || ''`. */
  function ListingEmployee(req: Request): (codEmp: JsVal)
    ensures Truthy(Prop(req.query, "codEmp")) ==> codEmp == Prop(req.query, "codEmp")
    ensures !Truthy(Prop(req.query, "codEmp")) && Truthy(Prop(req.body, "codEmp"))
            ==> codEmp == Prop(req.body, "codEmp")
    ensures !Truthy(Prop(req.query, "codEmp")) && !Truthy(Prop(req.body, "codEmp"))
            ==> codEmp == Str("")
  {
    Or(Prop(req.query, "codEmp"), Or(Prop(req.body, "codEmp"), Str("")))
  }

  /** `getAsistencia`: the service always runs with the chosen employee; its
      rows are the reply, an exception a 500. */
  function GetAsistencia(req: Request, service: ServiceResult): (h: Handled)
    ensures h.call == Some(ListingEmployee(req))
    ensures service.Returned? ==> h.reply == Reply(200, service.value)
    ensures service.Failed? ==> h.reply == ServerError("Error al obtener asistencia", service.errorMessage)
  {
    var codEmp := ListingEmployee(req);
    match service
    case Returned(rows) => Handled(Some(codEmp), Reply(200, rows))
    case Failed(m) => Handled(Some(codEmp), ServerError("Error al obtener asistencia", m))
  }

  /** An empty query value falls through to the body: `codEmp=` in the URL
      does not hide the body's employee. */
  lemma EmptyQueryFallsThrough(req: Request)
    requires Prop(req.query, "codEmp") == Str("") && Truthy(Prop(req.body, "codEmp"))
    ensures ListingEmployee(req) == Prop(req.body, "codEmp")
    ensures GetAsistencia(req, Returned(Null)).call == Some(Prop(req.body, "codEmp"))
  {
  }

  /** The listing's `IdEmpleado` is never empty when a `codEmp` was given
      in either place. */
  lemma ListingBindsGivenEmployee(req: Request)
    requires Truthy(Prop(req.query, "codEmp")) || Truthy(Prop(req.body, "codEmp"))
    ensures Truthy(AsistenciaService.EmployeeParam(ListingEmployee(req)))
  {
  }

  // ---------------------------------------------------------------- registerAsistencia

  /** The user that registers: `String(usuarioAct).trim()` whenever
      `usuarioAct` is present, and only otherwise the trimmed `codEmp`. */
  function RegisteringUser(body: JsVal): (u: string)
    ensures Unpadded(u)
    ensures !IsNullish(Prop(body, "usuarioAct")) ==> u == Trim(ToStr(Prop(body, "usuarioAct")))
    ensures IsNullish(Prop(body, "usuarioAct")) ==> u == TrimmedText(Prop(body, "codEmp"))
  {
    var usuarioAct := Prop(body, "usuarioAct");
    if IsNullish(usuarioAct) then TrimmedText(Prop(body, "codEmp")) else TrimmedText(usuarioAct)
  }

  /** The arguments handed to the registration service: the user, the type
      and the coordinates, and nothing else. */
  function RegisterArgs(user: string, body: JsVal): (args: JsVal)
    ensures args.Obj? && args.fields.Keys == {"usuarioAct", "tipo", "lat", "lon"}
    ensures Prop(args, "usuarioAct") == Str(user)
    ensures Prop(args, "tipo") == Prop(body, "tipo")
    ensures Prop(args, "lat") == Prop(body, "lat")
    ensures Prop(args, "lon") == Prop(body, "lon")
  {
    Obj(map["usuarioAct" := Str(user), "tipo" := Prop(body, "tipo"),
            "lat" := Prop(body, "lat"), "lon" := Prop(body, "lon")])
  }

  /** `registerAsistencia`: 400 without a user, otherwise one service call
      with the user, type and coordinates only. */
  function RegisterAsistencia(req: Request, service: ServiceResult): (h: Handled)
    ensures h.call.None? <==> RegisteringUser(req.body) == ""
    ensures h.call.None? ==> h.reply == Reply(400, Obj(map["message" := Str(UsuarioActRequired)]))
    ensures h.call.Some? ==> h.call.value == RegisterArgs(RegisteringUser(req.body), req.body)
    ensures h.call.Some? && service.Returned? ==> h.reply == Reply(200, Success("result", service.value))
    ensures h.call.Some? && service.Failed?
            ==> h.reply == ServerError("Error al registrar asistencia", service.errorMessage)
  {
    var user := RegisteringUser(req.body);
    if user == "" then
      Handled(None, Reply(400, Obj(map["message" := Str(UsuarioActRequired)])))
    else
      var args := RegisterArgs(user, req.body);
      match service
      case Returned(result) => Handled(Some(args), Reply(200, Success("result", result)))
      case Failed(m) => Handled(Some(args), ServerError("Error al registrar asistencia", m))
  }

  /** An explicit blank `usuarioAct` is refused even with a `codEmp`: the
      fallback applies only to a missing value. */
  lemma ExplicitEmptyUserRefused(req: Request, service: ServiceResult, text: string)
    requires Prop(req.body, "usuarioAct") == Str(text) && Trim(text) == ""
    ensures RegisterAsistencia(req, service).call.None?
    ensures RegisterAsistencia(req, service).reply.status == 400
  {
    assert ToStr(Str(text)) == text;
  }

  /** Fields of the body other than the user, employee, type and
      coordinates (`fechaAsistencia`, `outOfRange`, …) never affect the
      handler. */
  lemma OtherBodyFieldsIgnored(query: JsVal, fields: map<string, JsVal>, key: string, v: JsVal,
                               service: ServiceResult)
    requires key !in {"usuarioAct", "codEmp", "tipo", "lat", "lon"}
    ensures RegisterAsistencia(Request(query, Obj(fields[key := v])), service)
         == RegisterAsistencia(Request(query, Obj(fields)), service)
  {
    var body, body' := Obj(fields), Obj(fields[key := v]);
    assert forall f | f in {"usuarioAct", "codEmp", "tipo", "lat", "lon"} :: Prop(body', f) == Prop(body, f);
    assert Prop(body', "usuarioAct") == Prop(body, "usuarioAct");
    assert Prop(body', "codEmp") == Prop(body, "codEmp");
    assert Prop(body', "tipo") == Prop(body, "tipo");
    assert Prop(body', "lat") == Prop(body, "lat");
    assert Prop(body', "lon") == Prop(body, "lon");
  }

  /** The controller sends no `idEmpleado`, so the service binds
      `IdEmpleado = ''` on every registration; the user goes only in
      `usuarioAct`. */
  lemma RegistrationBindsEmptyEmployee(req: Request, service: ServiceResult)
    requires RegisterAsistencia(req, service).call.Some?
    ensures AsistenciaService.RegisterParamsOf(RegisterAsistencia(req, service).call.value).idEmpleado == Str("")
  {
    var args := RegisterAsistencia(req, service).call.value;
    IdEmpleadoNotForwarded(RegisteringUser(req.body), req.body);
    EmptyEmployeeBound(args);
  }

  /** The registration arguments carry no `idEmpleado`. */
  lemma IdEmpleadoNotForwarded(user: string, body: JsVal)
    ensures Prop(RegisterArgs(user, body), "idEmpleado") == Undefined
  {
    var args := RegisterArgs(user, body);
    assert "idEmpleado" != "usuarioAct" by { assert "idEmpleado"[0] != "usuarioAct"[0]; }
    assert |"idEmpleado"| != |"tipo"| && |"idEmpleado"| != |"lat"| && |"idEmpleado"| != |"lon"|;
    assert "idEmpleado" !in args.fields;
  }

  lemma EmptyEmployeeBound(args: JsVal)
    requires Prop(args, "idEmpleado") == Undefined
    ensures AsistenciaService.RegisterParamsOf(args).idEmpleado == Str("")
  {
    assert !Truthy(Prop(args, "idEmpleado"));
  }

  // ---------------------------------------------------------------- cargarListadoDiario

  /** `body.usuarioCre` whenever it is not `undefined` (a `null` counts),
      else the query's value. */
  function ListadoUser(req: Request): (raw: JsVal)
    ensures !Prop(req.body, "usuarioCre").Undefined? ==> raw == Prop(req.body, "usuarioCre")
    ensures Prop(req.body, "usuarioCre").Undefined? ==> raw == Prop(req.query, "usuarioCre")
  {
    var fromBody := Prop(req.body, "usuarioCre");
    if fromBody.Undefined? then Prop(req.query, "usuarioCre") else fromBody
  }

  /** `c` is `p` up to ASCII case, the comparison a case-insensitive regular
      expression with only ASCII letters in it makes. */
  predicate SameLetter(c: char, p: char) {
    LowerAscii(c) == LowerAscii(p)
  }

  /** `text` starts with `pattern` up to ASCII case. */
  predicate StartsWithIgnoringCase(text: string, pattern: string) {
    |pattern| <= |text| && forall i | 0 <= i < |pattern| :: SameLetter(text[i], pattern[i])
  }

  /** The length of the run of whitespace that starts `s`. */
  function SpaceRun(s: string): (k: nat)
    ensures k <= |s|
    ensures forall i | 0 <= i < k :: IsSpace(s[i])
    ensures k < |s| ==> !IsSpace(s[k])
  {
    if s == [] || !IsSpace(s[0]) then 0 else 1 + SpaceRun(s[1..])
  }

  const ProcedurePhrase := "Could not find stored procedure"
  const ProcedureName := "'sp_CargarListadoDiario'"

  /** `/Could not find stored procedure\s+'sp_CargarListadoDiario'/i` matches
      at position `i`. The whitespace run is taken whole: the name that
      follows starts with a quote, so a shorter run cannot match either. */
  predicate MissingProcedureAt(text: string, i: nat) {
    i <= |text|
    && StartsWithIgnoringCase(text[i..], ProcedurePhrase)
    && var rest := text[i + |ProcedurePhrase|..];
       var k := SpaceRun(rest);
       k >= 1 && StartsWithIgnoringCase(rest[k..], ProcedureName)
  }

  /** Some position from `i` to `n` satisfies `p`, found by a scan. */
  predicate AnyFrom(n: nat, i: nat, p: nat -> bool)
    decreases n - i
  {
    i <= n && (p(i) || AnyFrom(n, i + 1, p))
  }

  lemma {:induction false} AnyFromIff(n: nat, i: nat, p: nat -> bool)
    ensures AnyFrom(n, i, p) <==> exists j: nat | i <= j <= n :: p(j)
    decreases n - i
  {
    if i <= n {
      AnyFromIff(n, i + 1, p);
      if exists j: nat | i <= j <= n :: p(j) {
        var j: nat :| i <= j <= n && p(j);
        assert j == i || i + 1 <= j;
      }
    }
  }

  /** The regular expression's `test`: a scan for a match from the start. */
  predicate MissingProcedure(text: string) {
    AnyFrom(|text|, 0, (i: nat) => MissingProcedureAt(text, i))
  }

  /** The scan finds a match exactly when there is one somewhere. */
  lemma MissingProcedureIff(text: string)
    ensures MissingProcedure(text) <==> exists i: nat | i <= |text| :: MissingProcedureAt(text, i)
  {
    var p := (i: nat) => MissingProcedureAt(text, i);
    AnyFromIff(|text|, 0, p);
    assert forall j: nat :: p(j) == MissingProcedureAt(text, j);
  }

  /** Any text starts with its own prefix. */
  lemma PrefixMatches(p: string, x: string)
    ensures StartsWithIgnoringCase(p + x, p)
  {
    assert forall i | 0 <= i < |p| :: (p + x)[i] == p[i];
  }

  /** The server's message for the missing procedure is recognised. */
  lemma ProcedureMessageRecognised()
    ensures MissingProcedure(ProcedurePhrase + " " + ProcedureName + ".")
  {
    var text := ProcedurePhrase + " " + ProcedureName + ".";
    var after := " " + ProcedureName + ".";
    assert text == ProcedurePhrase + after;
    PrefixMatches(ProcedurePhrase, after);
    var rest := text[|ProcedurePhrase|..];
    assert rest == after;
    assert SpaceRun(rest[1..]) == 0 by {
      assert rest[1..][0] == '\'';
    }
    assert rest[1..] == ProcedureName + ".";
    PrefixMatches(ProcedureName, ".");
    assert MissingProcedureAt(text, 0);
  }

  /** `cargarListadoDiario`: 400 without a user; otherwise one service call
      with the raw (untrimmed) value. A missing stored procedure is answered
      as an empty listing with a warning; any other error is a 500. */
  function CargarListadoDiario(req: Request, service: ServiceResult): (h: Handled)
    ensures h.call.None? <==> TrimmedText(ListadoUser(req)) == ""
    ensures h.call.None? ==> h.reply == Reply(400, Obj(map["message" := Str(UsuarioCreRequired)]))
    ensures h.call.Some? ==> h.call.value == ListadoUser(req)
    ensures h.call.Some? && service.Returned? ==> h.reply == Reply(200, Success("data", service.value))
    ensures h.call.Some? && service.Failed? ==>
      (h.reply.status == 200 <==> MissingProcedure(ToStr(Or(service.errorMessage, Str("")))))
    ensures h.call.Some? && service.Failed? && h.reply.status == 200 ==>
      h.reply.body == Obj(map["success" := Bool(true), "data" := Arr([]),
                              "warning" := Str(MissingProcedureWarning)])
    ensures h.call.Some? && service.Failed? && h.reply.status != 200 ==>
      h.reply == ServerError("Error al validar listado diario", service.errorMessage)
  {
    var raw := ListadoUser(req);
    BlankIff(ToStr(raw));
    if IsNullish(raw) || Blank(ToStr(raw)) then
      Handled(None, Reply(400, Obj(map["message" := Str(UsuarioCreRequired)])))
    else
      match service
      case Returned(rows) => Handled(Some(raw), Reply(200, Success("data", rows)))
      case Failed(m) =>
        if MissingProcedure(ToStr(Or(m, Str("")))) then
          Handled(Some(raw), Reply(200, Obj(map["success" := Bool(true), "data" := Arr([]),
                                                 "warning" := Str(MissingProcedureWarning)])))
        else
          Handled(Some(raw), ServerError("Error al validar listado diario", m))
  }

  /** A body that carries `usuarioCre: null` is refused even when the query
      has a user. */
  lemma NullBodyUserRefused(req: Request, service: ServiceResult)
    requires Prop(req.body, "usuarioCre") == Null
    ensures CargarListadoDiario(req, service).call.None?
    ensures CargarListadoDiario(req, service).reply.status == 400
  {
  }

  /** An error without a message is never taken for the missing procedure. */
  lemma NoMessageIsServerError(req: Request)
    requires TrimmedText(ListadoUser(req)) != ""
    ensures CargarListadoDiario(req, Failed(Undefined)).reply.status == 500
  {
    UndefinedErrorNoProcedure();
  }

  lemma UndefinedErrorNoProcedure()
    ensures !MissingProcedure(ToStr(Or(Undefined, Str(""))))
  {
    assert ToStr(Or(Undefined, Str(""))) == "";
    EmptyTextNoProcedure();
  }

  lemma EmptyTextNoProcedure()
    ensures !MissingProcedure("")
  {
    assert |ProcedurePhrase| > 0;
  }

  // ---------------------------------------------------------------- getConstanteOficinas

  /** The columns the office constant may come under, in the order read. */
  const ValorFinColumns: seq<string> := ["ValorFin", "valorFin", "ValorFinal", "valorFinal"]

  /** `valorFin` of `getConstanteOficinas`: the first present column of the
      first row, `null` without rows. */
  function ValorFinOfRows(rows: JsVal): (v: JsVal)
    ensures !(rows.Arr? && |rows.items| > 0) ==> v == Null
    ensures rows.Arr? && |rows.items| > 0 ==>
      var k := FirstPresent(rows.items[0], ValorFinColumns);
      v == if k < |ValorFinColumns| then Prop(rows.items[0], ValorFinColumns[k]) else Null
  {
    var firstRow := if rows.Arr? && |rows.items| > 0 then rows.items[0] else Null;
    Coalesce(firstRow, ValorFinColumns, Null)
  }

  /** `getConstanteOficinas`: success with the constant and all rows, or 500. */
  function GetConstanteOficinas(service: ServiceResult): (h: Handled)
    ensures h.call == Some(Undefined)
    ensures service.Returned? ==>
      && h.reply.status == 200
      && h.reply.body.Obj? && h.reply.body.fields.Keys == {"success", "valorFin", "data"}
      && Prop(h.reply.body, "success") == Bool(true)
      && Prop(h.reply.body, "valorFin") == ValorFinOfRows(service.value)
      && Prop(h.reply.body, "data") == service.value
    ensures service.Failed?
            ==> h.reply == ServerError("Error al obtener constante de oficinas", service.errorMessage)
  {
    match service
    case Returned(rows) =>
      Handled(Some(Undefined), Reply(200, Obj(map["success" := Bool(true), "valorFin" := ValorFinOfRows(rows),
                                                   "data" := rows])))
    case Failed(m) => Handled(Some(Undefined), ServerError("Error al obtener constante de oficinas", m))
  }

  /** The constant is never `undefined`: a missing one is sent as `null`. */
  lemma ValorFinNeverUndefined(rows: JsVal)
    ensures !ValorFinOfRows(rows).Undefined?
  {
  }
}
