/** The application shell: the inactivity timer, the automatic logout, and
    the reaction to the operating system moving the app between foreground
    and background. The refs of the component become the fields of one
    object; the clock, the navigation container and the timer service are
    parameters and fields. */
module AppSession {
  import opened Options
  import opened JsValues

  /** Five minutes, in milliseconds. */
  const InactivityMs: int := 5 * 60 * 1000

  /** The signed-in user as the user context holds it. */
  datatype UserData = UserData(
    cuadrilla: JsVal,
    idusuario: JsVal,
    nombreEmpleado: JsVal,
    ipLocal: JsVal,
    networkType: JsVal,
    codEmp: JsVal,
    codVal: JsVal)

  /** The user data after `clearUserSession`. */
  const SignedOut := UserData(Null, Null, Str(""), Null, Null, Null, Null)

  /** `part` occurs in `s` at position `i`. */
  predicate OccursAt(s: string, part: string, i: int) {
    0 <= i <= |s| - |part| && s[i..i + |part|] == part
  }

  /** `s` contains `part`. */
  predicate Contains(s: string, part: string) {
    exists i | 0 <= i <= |s| :: OccursAt(s, part, i)
  }

  /** `state.match(/inactive|background/)` */
  predicate InBackground(state: string) {
    Contains(state, "inactive") || Contains(state, "background")
  }

  /** `backgroundSince ? now - backgroundSince : 0`; a start of `0` is
      falsy and reads as "never". */
  function TimeAway(backgroundSince: Option<int>, now: int): (t: int)
    ensures backgroundSince.None? || backgroundSince.value == 0 ==> t == 0
    ensures backgroundSince.Some? && backgroundSince.value != 0 ==> t == now - backgroundSince.value
  {
    if backgroundSince.Some? && backgroundSince.value != 0 then now - backgroundSince.value else 0
  }

  /** The app comes back to the foreground from the background. */
  predicate Returning(previous: string, next: string) {
    InBackground(previous) && next == "active"
  }

  /** The app leaves the foreground: this is the only moment the background
      start time is taken. */
  predicate Leaving(previous: string, next: string) {
    previous == "active" && InBackground(next)
  }

  /** A return after at least five minutes away ends the session. */
  predicate LogsOut(previous: string, next: string, backgroundSince: Option<int>, now: int) {
    Returning(previous, next) && TimeAway(backgroundSince, now) >= InactivityMs
  }

  /** The background start time after an event. */
  function BackgroundSinceAfter(previous: string, next: string, backgroundSince: Option<int>, now: int): (r: Option<int>)
    ensures Leaving(previous, next) ==> r == Some(now)
    ensures !Leaving(previous, next) ==> r == backgroundSince
  {
    if Leaving(previous, next) then Some(now) else backgroundSince
  }

  /** Leaving and returning exclude each other: the start time a return reads
      is the one an earlier event recorded. */
  lemma LeavingIsNotReturning(previous: string, next: string)
    ensures !(Leaving(previous, next) && Returning(previous, next))
  {
    if Leaving(previous, next) {
      assert next != "active" by {
        if next == "active" {
          NotInBackground("active");
        }
      }
    }
  }

  /** `'active'` contains neither `inactive` nor `background`. */
  lemma NotInBackground(s: string)
    requires s == "active"
    ensures !InBackground(s)
  {
    assert |"inactive"| > |s|;
    assert |"background"| > |s|;
  }

  /** The two background states the operating system reports are
      recognised as such, and the foreground state is not. */
  lemma BackgroundStates()
    ensures InBackground("inactive") && InBackground("background")
    ensures !InBackground("active")
  {
    assert OccursAt("inactive", "inactive", 0);
    assert OccursAt("background", "background", 0);
    NotInBackground("active");
  }

  /** A foreground app that never went to the background is not logged out
      by a return, whatever the clock says. */
  lemma NeverAwayNeverLogsOut(previous: string, next: string, now: int)
    ensures !LogsOut(previous, next, None, now)
  {
  }

  /** A return within five minutes keeps the session. */
  lemma ShortAbsenceKeepsSession(previous: string, next: string, since: int, now: int)
    requires since != 0 && now - since < InactivityMs
    ensures !LogsOut(previous, next, Some(since), now)
  {
  }

  /** Leaving records the clock, and the return that follows reads it back:
      the session ends exactly when the absence lasted five minutes or more.
      A departure at clock `0` is recorded but reads as "never". */
  lemma LeaveThenReturn(since: Option<int>, away: string, t0: int, t1: int)
    requires InBackground(away)
    ensures BackgroundSinceAfter("active", away, since, t0) == Some(t0)
    ensures t0 != 0 ==>
      (LogsOut(away, "active", BackgroundSinceAfter("active", away, since, t0), t1) <==> t1 - t0 >= InactivityMs)
    ensures t0 == 0 ==> !LogsOut(away, "active", BackgroundSinceAfter("active", away, since, t0), t1)
  {
  }

  /** The shell's refs and state: `appStateRef`, `backgroundSinceRef`,
      `inactivityTimerRef`, `fontsLoaded`, the user context, and the timers
      the timer service still holds. */
  class AppContent {
    var appState: string
    var backgroundSince: Option<int>
    var timer: Option<nat>
    var fontsLoaded: bool
    var user: UserData
    /** Timers scheduled and neither cleared nor fired. */
    var pending: set<nat>
    /** The id the timer service hands out next. */
    var nextTimerId: nat

    /** At most one timer is pending, and it is the one the ref holds. */
    ghost predicate Valid()
      reads this
    {
      && pending == (if timer.Some? then {timer.value} else {})
      && (timer.Some? ==> 0 < timer.value < nextTimerId)
      && nextTimerId > 0
    }

    constructor(initialState: string, signedIn: UserData)
      ensures Valid()
      ensures appState == initialState && backgroundSince.None? && timer.None?
      ensures !fontsLoaded && user == signedIn
    {
      appState := initialState;
      backgroundSince := None;
      timer := None;
      fontsLoaded := false;
      user := signedIn;
      pending := {};
      nextTimerId := 1;
    }

    /** `clearInactivityTimer` */
    method ClearInactivityTimer()
      requires Valid()
      modifies this
      ensures Valid()
      ensures timer.None? && pending == {}
      ensures appState == old(appState) && backgroundSince == old(backgroundSince)
      ensures fontsLoaded == old(fontsLoaded) && user == old(user) && nextTimerId == old(nextTimerId)
    {
      if timer.Some? {
        pending := pending - {timer.value};
        timer := None;
      }
    }

    /** `clearUserSession` */
    method ClearUserSession()
      modifies this
      ensures user == SignedOut
      ensures appState == old(appState) && backgroundSince == old(backgroundSince) && timer == old(timer)
      ensures fontsLoaded == old(fontsLoaded) && pending == old(pending) && nextTimerId == old(nextTimerId)
    {
      user := SignedOut;
    }

    /** `handleAutoLogout`: the timer and the session always go; navigation
        is reset to the login screen only when it is ready and not already
        there. */
    method HandleAutoLogout(navigationReady: bool, currentRoute: Option<string>) returns (resetToLogin: bool)
      requires Valid()
      modifies this
      ensures Valid()
      ensures timer.None? && pending == {} && user == SignedOut
      ensures resetToLogin <==> navigationReady && currentRoute != Some("Login")
      ensures appState == old(appState) && backgroundSince == old(backgroundSince)
      ensures fontsLoaded == old(fontsLoaded) && nextTimerId == old(nextTimerId)
    {
      ClearInactivityTimer();
      ClearUserSession();
      resetToLogin := navigationReady && currentRoute != Some("Login");
    }

    /** `resetInactivityTimer`: nothing before the fonts load; afterwards
        exactly one fresh five-minute timer is pending. */
    method ResetInactivityTimer()
      requires Valid()
      modifies this
      ensures Valid()
      ensures !old(fontsLoaded) ==> timer == old(timer) && pending == old(pending) && nextTimerId == old(nextTimerId)
      ensures old(fontsLoaded) ==>
        && timer == Some(old(nextTimerId)) && pending == {old(nextTimerId)}
        && nextTimerId == old(nextTimerId) + 1
      ensures old(fontsLoaded) && old(timer).Some? ==> old(timer).value !in pending
      ensures appState == old(appState) && backgroundSince == old(backgroundSince)
      ensures fontsLoaded == old(fontsLoaded) && user == old(user)
    {
      if !fontsLoaded {
        return;
      }
      ClearInactivityTimer();
      timer := Some(nextTimerId);
      pending := {nextTimerId};
      nextTimerId := nextTimerId + 1;
    }

    /** The fonts finish loading; the effect that waits for them starts the
        inactivity timer. */
    method LoadFonts()
      requires Valid()
      modifies this
      ensures Valid()
      ensures fontsLoaded
      ensures !old(fontsLoaded) ==> timer == Some(old(nextTimerId)) && pending == {old(nextTimerId)}
      ensures old(fontsLoaded) ==> timer == old(timer) && pending == old(pending)
      ensures appState == old(appState) && backgroundSince == old(backgroundSince) && user == old(user)
    {
      if !fontsLoaded {
        fontsLoaded := true;
        ResetInactivityTimer();
      }
    }

    /** A touch or a navigation change restarts the inactivity timer. */
    method UserActivity()
      requires Valid()
      modifies this
      ensures Valid()
      ensures fontsLoaded ==> timer == Some(old(nextTimerId)) && pending == {old(nextTimerId)}
      ensures !fontsLoaded ==> timer == old(timer) && pending == old(pending)
      ensures appState == old(appState) && backgroundSince == old(backgroundSince) && user == old(user)
    {
      ResetInactivityTimer();
    }

    /** A pending timer fires: five minutes without activity end the session. */
    method TimerFires(id: nat, navigationReady: bool, currentRoute: Option<string>)
      returns (loggedOut: bool, resetToLogin: bool)
      requires Valid()
      modifies this
      ensures Valid()
      ensures loggedOut <==> id in old(pending)
      ensures loggedOut ==> timer.None? && pending == {} && user == SignedOut
      ensures !loggedOut ==> timer == old(timer) && pending == old(pending) && user == old(user)
      ensures resetToLogin <==> loggedOut && navigationReady && currentRoute != Some("Login")
      ensures appState == old(appState) && backgroundSince == old(backgroundSince)
    {
      loggedOut := id in pending;
      resetToLogin := false;
      if loggedOut {
        resetToLogin := HandleAutoLogout(navigationReady, currentRoute);
      }
    }

    /** The `AppState` change listener, subscribed once the fonts are
        loaded: records when the app leaves the foreground, and on its
        return either logs out (five minutes or more away) or restarts the
        inactivity timer. The new state is recorded in every case. */
    method OnAppStateChange(next: string, now: int, navigationReady: bool, currentRoute: Option<string>)
      returns (loggedOut: bool, resetToLogin: bool)
      requires Valid()
      modifies this
      ensures Valid()
      ensures !old(fontsLoaded) ==>
        && !loggedOut && !resetToLogin
        && appState == old(appState) && backgroundSince == old(backgroundSince)
        && timer == old(timer) && pending == old(pending) && user == old(user)
      ensures old(fontsLoaded) ==>
        && appState == next
        && backgroundSince == BackgroundSinceAfter(old(appState), next, old(backgroundSince), now)
        && (loggedOut <==> LogsOut(old(appState), next, old(backgroundSince), now))
      ensures loggedOut ==> timer.None? && pending == {} && user == SignedOut
      ensures resetToLogin <==> loggedOut && navigationReady && currentRoute != Some("Login")
      ensures old(fontsLoaded) && Returning(old(appState), next) && !loggedOut ==>
        timer == Some(old(nextTimerId)) && pending == {old(nextTimerId)} && user == old(user)
      ensures !(old(fontsLoaded) && Returning(old(appState), next)) ==>
        timer == old(timer) && pending == old(pending) && user == old(user)
      ensures fontsLoaded == old(fontsLoaded)
    {
      loggedOut, resetToLogin := false, false;
      if !fontsLoaded {
        return;
      }
      LeavingIsNotReturning(appState, next);
      var returning := Returning(appState, next);
      if Leaving(appState, next) {
        backgroundSince := Some(now);
      }
      if returning {
        if TimeAway(backgroundSince, now) >= InactivityMs {
          loggedOut := true;
          resetToLogin := HandleAutoLogout(navigationReady, currentRoute);
          appState := next;
          return;
        }
        ResetInactivityTimer();
      }
      appState := next;
    }
  }
}
