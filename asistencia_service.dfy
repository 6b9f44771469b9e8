/** The attendance service of the backend: the shaping of the rows the
    monthly listing procedure returns, and the parameters the service binds
    for a listing and for a registration. The procedure calls themselves
    are outside the model. */
module AsistenciaService {
  import opened Options
  import opened JsValues

  /** A database row: its column names and values. */
  type Row = map<string, JsVal>

  /** The columns a row's status may come under, in the order they are read. */
  const EstadoAliases: seq<string> :=
    ["Estado", "estado", "EstadoMarcacion", "estadoMarcacion", "IdEstado", "idEstado"]

  /** `{ ...row, Estado: row.Estado ?? row.estado ?? … ?? '' }` */
  function NormalizeRow(row: Row): (r: Row)
    ensures r.Keys == row.Keys + {"Estado"}
    ensures forall k | k in row && k != "Estado" :: r[k] == row[k]
    ensures !IsNullish(r["Estado"])
    ensures "Estado" in row && !IsNullish(row["Estado"]) ==> r == row
  {
    CoalesceNotNullish(Obj(row), EstadoAliases, Str(""));
    row["Estado" := Coalesce(Obj(row), EstadoAliases, Str(""))]
  }

  /** A row's status is the first status column that holds something other
      than `null`/`undefined`, and `''` when none does. */
  lemma EstadoIsFirstPresentAlias(row: Row)
    ensures var k := FirstPresent(Obj(row), EstadoAliases);
            NormalizeRow(row)["Estado"]
              == if k < |EstadoAliases| then row[EstadoAliases[k]] else Str("")
  {
  }

  /** An empty `Estado` is a value, not an absence: later aliases are not read. */
  lemma EmptyEstadoWins(row: Row)
    requires "Estado" in row && row["Estado"] == Str("")
    ensures NormalizeRow(row)["Estado"] == Str("")
  {
  }

  /** Normalising a normalised row changes nothing. */
  lemma NormalizeRowIdempotent(row: Row)
    ensures NormalizeRow(NormalizeRow(row)) == NormalizeRow(row)
  {
  }

  /** `rows.map(normalize)` */
  function NormalizeRows(rows: seq<Row>): (r: seq<Row>)
    ensures |r| == |rows|
    ensures forall i | 0 <= i < |rows| :: r[i] == NormalizeRow(rows[i])
  {
    if rows == [] then [] else [NormalizeRow(rows[0])] + NormalizeRows(rows[1..])
  }

  /** `getAsistenciaService`: the procedure's record set, `[]` when it has
      none, one normalised row per row in the same order. */
  function ListedRows(recordset: Option<seq<Row>>): (r: seq<Row>)
    ensures recordset.None? ==> r == []
    ensures recordset.Some? ==> |r| == |recordset.value|
    ensures recordset.Some? ==>
      forall i | 0 <= i < |r| :: r[i].Keys == recordset.value[i].Keys + {"Estado"}
    ensures recordset.Some? ==>
      forall i | 0 <= i < |r| :: r[i] == NormalizeRow(recordset.value[i])
  {
    match recordset
    case None => []
    case Some(rows) => NormalizeRows(rows)
  }

  /** Listing an already listed result gives it back unchanged. */
  lemma {:induction false} ListedRowsIdempotent(recordset: Option<seq<Row>>)
    ensures ListedRows(Some(ListedRows(recordset))) == ListedRows(recordset)
  {
    var once := ListedRows(recordset);
    forall i | 0 <= i < |once|
      ensures NormalizeRow(once[i]) == once[i]
    {
      NormalizeRowIdempotent(recordset.value[i]);
    }
  }

  /** `idEmpleado || ''`, the value bound to `IdEmpleado` by both the listing
      and the registration. */
  function EmployeeParam(idEmpleado: JsVal): (r: JsVal)
    ensures Truthy(idEmpleado) ==> r == idEmpleado
    ensures !Truthy(idEmpleado) ==> r == Str("")
  {
    Or(idEmpleado, Str(""))
  }

  /** The parameters `registerAsistenciaService` binds: `Lat` and `Lon` are
      absent when undefined (a `null` is bound). */
  datatype RegisterParams = RegisterParams(idEmpleado: JsVal, tipo: JsVal, lat: Option<JsVal>, lon: Option<JsVal>)

  /** `registerAsistenciaService({ idEmpleado, tipo, lat, lon })` */
  function RegisterParamsOf(args: JsVal): (p: RegisterParams)
    ensures Truthy(Prop(args, "idEmpleado")) ==> p.idEmpleado == Prop(args, "idEmpleado")
    ensures !Truthy(Prop(args, "idEmpleado")) ==> p.idEmpleado == Str("")
    ensures Truthy(Prop(args, "tipo")) ==> p.tipo == Prop(args, "tipo")
    ensures !Truthy(Prop(args, "tipo")) ==> p.tipo == Str("")
    ensures p.lat.None? <==> Prop(args, "lat").Undefined?
    ensures p.lon.None? <==> Prop(args, "lon").Undefined?
    ensures p.lat.Some? ==> p.lat.value == Prop(args, "lat")
    ensures p.lon.Some? ==> p.lon.value == Prop(args, "lon")
  {
    var lat := Prop(args, "lat");
    var lon := Prop(args, "lon");
    RegisterParams(
      EmployeeParam(Prop(args, "idEmpleado")),
      Or(Prop(args, "tipo"), Str("")),
      if lat.Undefined? then None else Some(lat),
      if lon.Undefined? then None else Some(lon))
  }
}
