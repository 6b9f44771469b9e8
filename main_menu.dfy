/** The main menu: the option grid and the location check that guards the
    way into the attendance screen. The location provider's answers are
    parameters; the alert shown and the navigation made are results. */
module MainMenu {
  import opened Options
  import opened JsValues

  /** At most this many options are shown. */
  const Segments: nat := 8

  /** The alerts `handleAsistenciaPress` can raise. */
  datatype MenuAlert =
    | LocationDisabled   // "Ubicación desactivada", with a way to the settings
    | PermissionRequired // "Permiso requerido", with a way to the settings
    | ValidationFailed   // "Error": the location could not be checked

  /** What one press did: whether the permission was read and requested,
      the alert raised, and whether the attendance screen was opened. */
  datatype PressResult = PressResult(queried: bool, requested: bool, alert: Option<MenuAlert>, navigated: bool)

  /** `result?.status === 'granted'` for a permission answer. */
  predicate Granted(answer: JsVal) {
    Prop(answer, "status") == Str("granted")
  }

  /** The location services answered and are on. */
  predicate ServicesOn(services: Outcome<JsVal>) {
    services.Ok? && Truthy(services.value)
  }

  /** The permission the check ends with: the current one when granted,
      else the answer to one request. */
  predicate FinalGranted(current: Outcome<JsVal>, requested: Outcome<JsVal>) {
    current.Ok? && (Granted(current.value) || (requested.Ok? && Granted(requested.value)))
  }

  /** Whether a press got as far as a thrown call. */
  predicate PressThrows(services: Outcome<JsVal>, current: Outcome<JsVal>, requested: Outcome<JsVal>) {
    || services.Throws?
    || (ServicesOn(services) && current.Throws?)
    || (ServicesOn(services) && current.Ok? && !Granted(current.value) && requested.Throws?)
  }

  class MainMenuScreen {
    var validatingAsistencia: bool

    constructor()
      ensures !validatingAsistencia
    {
      validatingAsistencia := false;
    }

    /** `handleAsistenciaPress`: ignored while a check runs; otherwise the
        services check, the permission read and at most one request, then
        either the attendance screen or an alert. The flag is cleared on
        every exit. */
    method HandleAsistenciaPress(services: Outcome<JsVal>, current: Outcome<JsVal>, requested: Outcome<JsVal>)
      returns (r: PressResult)
      modifies this
      ensures old(validatingAsistencia) ==>
        validatingAsistencia && r == PressResult(false, false, None, false)
      ensures !old(validatingAsistencia) ==> !validatingAsistencia
      ensures r.navigated <==>
        !old(validatingAsistencia) && ServicesOn(services) && FinalGranted(current, requested)
      ensures r.queried <==> !old(validatingAsistencia) && ServicesOn(services)
      ensures r.requested <==>
        !old(validatingAsistencia) && ServicesOn(services) && current.Ok? && !Granted(current.value)
      ensures r.navigated ==> r.alert.None?
      ensures r.alert == Some(LocationDisabled) <==>
        !old(validatingAsistencia) && services.Ok? && !Truthy(services.value)
      ensures r.alert == Some(ValidationFailed) <==>
        !old(validatingAsistencia) && PressThrows(services, current, requested)
      ensures r.alert == Some(PermissionRequired) <==>
        && !old(validatingAsistencia) && ServicesOn(services)
        && !PressThrows(services, current, requested) && !FinalGranted(current, requested)
    {
      r := PressResult(false, false, None, false);
      if validatingAsistencia {
        return;
      }
      validatingAsistencia := true;
      if services.Throws? {
        r := r.(alert := Some(ValidationFailed));
      } else if !Truthy(services.value) {
        r := r.(alert := Some(LocationDisabled));
      } else {
        r := r.(queried := true);
        if current.Throws? {
          r := r.(alert := Some(ValidationFailed));
        } else {
          var permissionStatus := Prop(current.value, "status");
          var failed := false;
          if permissionStatus != Str("granted") {
            r := r.(requested := true);
            if requested.Throws? {
              failed := true;
            } else {
              permissionStatus := Prop(requested.value, "status");
            }
          }
          if failed {
            r := r.(alert := Some(ValidationFailed));
          } else if permissionStatus != Str("granted") {
            r := r.(alert := Some(PermissionRequired));
          } else {
            r := r.(navigated := true);
          }
        }
      }
      validatingAsistencia := false;
    }
  }

  /** A menu button: its label and whether its button is enabled. */
  datatype MenuButton = MenuButton(text: string, enabled: bool)

  /** The options the menu defines, in order. */
  const MenuOptions: seq<string> := ["Reporte", "Asistencia"]

  /** `OPTIONS.slice(0, SEGMENTS)` rendered: every shown button but the
      attendance one is disabled. */
  function ShownButtons(labels: seq<string>): (r: seq<MenuButton>)
    ensures |r| == if |labels| < Segments then |labels| else Segments
    ensures forall i | 0 <= i < |r| :: r[i].text == labels[i]
    ensures forall i | 0 <= i < |r| :: r[i].enabled <==> labels[i] == "Asistencia"
  {
    var n := if |labels| < Segments then |labels| else Segments;
    seq(n, i requires 0 <= i < n => MenuButton(labels[i], labels[i] == "Asistencia"))
  }

  /** Of the menu's own options only the attendance one can be pressed. */
  lemma OnlyAttendanceEnabled()
    ensures ShownButtons(MenuOptions) == [MenuButton("Reporte", false), MenuButton("Asistencia", true)]
  {
    assert "Reporte" != "Asistencia" by { assert |"Reporte"| != |"Asistencia"|; }
  }
}
