/**
 * The client-side session service of OptiSched (`AuthService`): who is signed in,
 * what they may do, and the gates in front of the schedule and event operations.
 *
 * Every call into the database layer is a parameter: `Db<T>` says whether the
 * awaited call resolved (and to what) or threw. The session-expiry timer is a
 * deadline on an explicit clock; `ExpireSession` is the timer firing.
 */
module Session {
  import opened Common

  /** The user record the database layer hands back. */
  datatype User = User(id: int, role: string, permissions: Option<map<string, Json>>)

  /** The `{ success, message, ... }` object every operation resolves to. */
  datatype Outcome<+T> = Outcome(success: bool, message: string, data: Option<T>)

  /** What the database's credential check resolves to (it catches its own errors). */
  datatype AuthResult = Authenticated(user: User) | Rejected(message: string)

  /** A session lasts 30 minutes from sign-in or from the last refresh. */
  const SessionDuration: int := 30 * 60 * 1000

  const LoginRoute: string := "/login"
  const ScheduleRoute: string := "/(dashboard)/schedule"

  const RoleRoutes: map<string, string> := map[
    "student" := ScheduleRoute,
    "teacher" := ScheduleRoute,
    "principal" := ScheduleRoute,
    "it_manager" := ScheduleRoute,
    "event_handler" := ScheduleRoute
  ]

  /** The profile columns a user may change, in the order the update statement lists them. */
  const AllowedProfileFields: seq<string> := ["first_name", "last_name", "email", "profile_picture"]

  function Failure<T>(message: string): Outcome<T> {
    Outcome(false, message, None)
  }

  /** A permission is held only when the user's permission map holds exactly the JSON value `true`. */
  predicate Grants(user: Option<User>, permission: string)
    ensures Grants(user, permission) ==>
      user.Some? && user.value.permissions.Some? && permission in user.value.permissions.value
    ensures (user.Some? && user.value.permissions.Some? && permission in user.value.permissions.value
             && user.value.permissions.value[permission] != JBool(true)) ==> !Grants(user, permission)
  {
    user.Some? && user.value.permissions.Some?
    && permission in user.value.permissions.value
    && user.value.permissions.value[permission] == JBool(true)
  }

  /** Values that JavaScript treats as true but that are not `true` grant nothing. */
  lemma TruthyValuesDoNotGrant(id: int, role: string, permission: string)
    ensures !Grants(Some(User(id, role, Some(map[permission := JNum(1)]))), permission)
    ensures !Grants(Some(User(id, role, Some(map[permission := JStr("true")]))), permission)
    ensures !Grants(Some(User(id, role, None)), permission)
    ensures Grants(Some(User(id, role, Some(map[permission := JBool(true)]))), permission)
  {
  }

  /**
   * The fields of `updates` that a profile update may write: exactly the allowed
   * profile fields that `updates` defines, with the values it gives them.
   */
  method ValidUpdates(updates: map<string, Json>) returns (valid: map<string, Json>)
    ensures valid.Keys == updates.Keys * (set f | f in AllowedProfileFields)
    ensures forall f :: f in valid ==> valid[f] == updates[f]
  {
    valid := map[];
    for i := 0 to |AllowedProfileFields|
      invariant valid.Keys == updates.Keys * (set j | 0 <= j < i :: AllowedProfileFields[j])
      invariant forall f :: f in valid ==> f in updates && valid[f] == updates[f]
    {
      var field := AllowedProfileFields[i];
      if field in updates {
        valid := valid[field := updates[field]];
      }
    }
  }

  class AuthService {
    var currentUser: Option<User>
    var isAuthenticated: bool
    /** The deadline of the pending expiry timer, when one is running. */
    var sessionTimeout: Option<int>

    /** Signed in exactly when a user is held; a timer runs only for a signed-in user. */
    ghost predicate Valid()
      reads this
    {
      isAuthenticated == currentUser.Some? && (sessionTimeout.Some? ==> currentUser.Some?)
    }

    constructor ()
      ensures Valid()
      ensures currentUser == None && !isAuthenticated && sessionTimeout == None
    {
      currentUser := None;
      isAuthenticated := false;
      sessionTimeout := None;
    }

    /** Restarts the expiry timer: the session now ends `SessionDuration` after `now`. */
    method StartSessionTimeout(now: int)
      modifies this`sessionTimeout
      ensures sessionTimeout == Some(now + SessionDuration)
    {
      sessionTimeout := None;
      sessionTimeout := Some(now + SessionDuration);
    }

    method ClearSession()
      modifies this
      ensures Valid()
      ensures currentUser == None && !isAuthenticated && sessionTimeout == None
    {
      currentUser := None;
      isAuthenticated := false;
      sessionTimeout := None;
    }

    /**
     * Signs in. Empty credentials and rejected credentials leave the session as
     * it was. Once the database accepts, the session is set up before the login
     * is recorded, so a failure to record it reports failure over a session that
     * is nevertheless signed in.
     */
    method Login(username: string, password: string, auth: AuthResult, logActivity: Db<()>, now: int)
      returns (r: Outcome<User>)
      requires Valid()
      modifies this
      ensures Valid()
      ensures username == "" || password == "" ==>
        r == Failure("Please enter both username and password") && unchanged(this)
      ensures username != "" && password != "" && auth.Rejected? ==>
        r == Failure(auth.message) && unchanged(this)
      ensures username != "" && password != "" && auth.Authenticated? ==>
        && currentUser == Some(auth.user) && isAuthenticated
        && sessionTimeout == Some(now + SessionDuration)
        && r == (if logActivity.Throws? then Failure("Login failed. Please try again.")
                 else Outcome(true, "Login successful", Some(auth.user)))
    {
      if username == "" || password == "" {
        return Failure("Please enter both username and password");
      }
      if auth.Rejected? {
        return Failure(auth.message);
      }
      currentUser := Some(auth.user);
      isAuthenticated := true;
      StartSessionTimeout(now);
      if logActivity.Throws? {
        return Failure("Login failed. Please try again.");
      }
      r := Outcome(true, "Login successful", currentUser);
    }

    /** Signs out. Always succeeds and always clears the session, even when recording the logout throws. */
    method Logout(logActivity: Db<()>) returns (r: Outcome<User>)
      modifies this
      ensures Valid()
      ensures r == Outcome(true, "Logged out successfully", None)
      ensures currentUser == None && !isAuthenticated && sessionTimeout == None
    {
      if currentUser.Some? && isAuthenticated && logActivity.Throws? {
        ClearSession();
        return Outcome(true, "Logged out successfully", None);
      }
      ClearSession();
      r := Outcome(true, "Logged out successfully", None);
    }

    /** The expiry timer firing at time `now`: once the deadline has passed, the session is logged out. */
    method ExpireSession(now: int, logActivity: Db<()>)
      requires Valid()
      modifies this
      ensures Valid()
      ensures old(sessionTimeout).Some? && now >= old(sessionTimeout).value ==>
        currentUser == None && !isAuthenticated && sessionTimeout == None
      ensures !(old(sessionTimeout).Some? && now >= old(sessionTimeout).value) ==> unchanged(this)
    {
      if sessionTimeout.Some? && now >= sessionTimeout.value {
        var _ := Logout(logActivity);
      }
    }

    predicate IsLoggedIn()
      reads this
      ensures Valid() ==> (IsLoggedIn() <==> currentUser.Some?)
    {
      isAuthenticated && currentUser.Some?
    }

    predicate HasPermission(permission: string)
      reads this
      ensures HasPermission(permission) ==> currentUser.Some? && currentUser.value.permissions.Some?
    {
      Grants(currentUser, permission)
    }

    predicate HasRole(role: string)
      reads this
      ensures HasRole(role) ==> currentUser.Some?
    {
      currentUser.Some? && currentUser.value.role == role
    }

    /** Where the app goes after sign-in: the login screen without a user, the schedule for every role. */
    function DashboardRoute(): (route: string)
      reads this
      ensures currentUser.None? <==> route == LoginRoute
      ensures currentUser.Some? ==> route == ScheduleRoute
    {
      if currentUser.None? then LoginRoute
      else
        var role := currentUser.value.role;
        if role in RoleRoutes && RoleRoutes[role] != "" then RoleRoutes[role] else ScheduleRoute
    }

    /**
     * Reloads the signed-in user. A user the database no longer returns ends the
     * session; a lookup that throws changes nothing.
     */
    method RefreshSession(lookup: Db<Option<User>>, now: int) returns (r: Outcome<User>)
      requires Valid()
      modifies this
      ensures Valid()
      ensures old(currentUser).None? ==> r == Failure("No active session") && unchanged(this)
      ensures old(currentUser).Some? && lookup.Throws? ==>
        r == Failure("Failed to refresh session") && unchanged(this)
      ensures old(currentUser).Some? && lookup == Returns(None) ==>
        r == Failure("User not found") && currentUser == None && !isAuthenticated && sessionTimeout == None
      ensures old(currentUser).Some? && lookup.Returns? && lookup.value.Some? ==>
        && r == Outcome(true, "Session refreshed successfully", lookup.value)
        && currentUser == lookup.value && isAuthenticated
        && sessionTimeout == Some(now + SessionDuration)
    {
      if currentUser.None? {
        return Failure("No active session");
      }
      if lookup.Throws? {
        return Failure("Failed to refresh session");
      }
      if lookup.value.None? {
        ClearSession();
        return Failure("User not found");
      }
      currentUser := lookup.value;
      StartSessionTimeout(now);
      r := Outcome(true, "Session refreshed successfully", currentUser);
    }

    /**
     * Writes the allowed profile fields of `updates`, then reloads the user.
     * `written` is the column/value map the update statement sets, when one is
     * issued; `persist` is the update together with its activity record.
     */
    method UpdateProfile(updates: map<string, Json>, persist: Db<()>, lookup: Db<Option<User>>, now: int)
      returns (r: Outcome<User>, written: Option<map<string, Json>>)
      requires Valid()
      modifies this
      ensures Valid()
      ensures old(currentUser).None? ==> r == Failure("Not authenticated") && written == None && unchanged(this)
      ensures old(currentUser).Some? && !old(HasPermission("can_edit_profile")) ==>
        r == Failure("Permission denied") && written == None && unchanged(this)
      ensures written.Some? ==>
        && written.value.Keys == updates.Keys * (set f | f in AllowedProfileFields)
        && (forall f :: f in written.value ==> written.value[f] == updates[f])
      ensures old(HasPermission("can_edit_profile")) && updates.Keys !! (set f | f in AllowedProfileFields) ==>
        r == Failure("No valid fields to update") && written == None && unchanged(this)
      ensures old(HasPermission("can_edit_profile")) && !(updates.Keys !! (set f | f in AllowedProfileFields)) ==>
        written.Some? && (persist.Throws? ==> r == Failure("Failed to update profile") && unchanged(this))
      ensures old(HasPermission("can_edit_profile")) && !(updates.Keys !! (set f | f in AllowedProfileFields)) && persist.Returns? ==>
        r.success
      ensures r.success ==> persist.Returns? && r.message == "Profile updated successfully"
      ensures r.success && lookup.Returns? && lookup.value.Some? ==>
        r.data == lookup.value && currentUser == lookup.value && isAuthenticated && sessionTimeout == Some(now + SessionDuration)
      ensures r.success && lookup == Returns(None) ==>
        r.data == None && currentUser == None && !isAuthenticated && sessionTimeout == None
      ensures r.success && lookup.Throws? ==> r.data == None && unchanged(this)
    {
      written := None;
      if currentUser.None? {
        return Failure("Not authenticated"), None;
      }
      if !HasPermission("can_edit_profile") {
        return Failure("Permission denied"), None;
      }
      var valid := ValidUpdates(updates);
      if |valid| == 0 {
        assert forall f :: f in updates.Keys * (set f | f in AllowedProfileFields) ==> f in valid;
        return Failure("No valid fields to update"), None;
      }
      written := Some(valid);
      if persist.Throws? {
        return Failure("Failed to update profile"), written;
      }
      var refreshed := RefreshSession(lookup, now);
      r := Outcome(true, "Profile updated successfully", refreshed.data);
    }

    /**
     * The two checks in front of every schedule operation: the role first, then
     * the permission, each with its own message.
     */
    function Gate(role: string, permission: string): (denial: Option<string>)
      reads this
      ensures denial == Some("Access denied") <==> !HasRole(role)
      ensures denial == Some("Permission denied") <==> HasRole(role) && !HasPermission(permission)
      ensures denial == None <==> HasRole(role) && HasPermission(permission)
    {
      if !HasRole(role) then Some("Access denied")
      else if !HasPermission(permission) then Some("Permission denied")
      else None
    }

    /**
     * A student's timetable: gated on role `student` and `can_view_schedule`, then
     * fetched for the first student record linked to the user.
     */
    method GetStudentSchedule<S>(records: Db<seq<int>>, scheduleOf: int -> Db<S>) returns (r: Outcome<S>)
      ensures Gate("student", "can_view_schedule").Some? ==> r == Failure(Gate("student", "can_view_schedule").value)
      ensures Gate("student", "can_view_schedule").None? && records.Throws? ==> r == Failure("Failed to get schedule")
      ensures Gate("student", "can_view_schedule").None? && records == Returns([]) ==> r == Failure("Student record not found")
      ensures r.success <==>
        && Gate("student", "can_view_schedule").None?
        && records.Returns? && |records.value| > 0 && scheduleOf(records.value[0]).Returns?
      ensures r.success ==> r == Outcome(true, "Schedule retrieved successfully", Some(scheduleOf(records.value[0]).value))
    {
      var denial := Gate("student", "can_view_schedule");
      if denial.Some? {
        return Failure(denial.value);
      }
      if records.Throws? {
        return Failure("Failed to get schedule");
      }
      if |records.value| == 0 {
        return Failure("Student record not found");
      }
      var schedule := scheduleOf(records.value[0]);
      if schedule.Throws? {
        return Failure("Failed to get schedule");
      }
      r := Outcome(true, "Schedule retrieved successfully", Some(schedule.value));
    }

    /** A teacher's timetable: as for students, with role `teacher` and the teacher record. */
    method GetTeacherSchedule<S>(records: Db<seq<int>>, scheduleOf: int -> Db<S>) returns (r: Outcome<S>)
      ensures Gate("teacher", "can_view_schedule").Some? ==> r == Failure(Gate("teacher", "can_view_schedule").value)
      ensures Gate("teacher", "can_view_schedule").None? && records.Throws? ==> r == Failure("Failed to get schedule")
      ensures Gate("teacher", "can_view_schedule").None? && records == Returns([]) ==> r == Failure("Teacher record not found")
      ensures r.success <==>
        && Gate("teacher", "can_view_schedule").None?
        && records.Returns? && |records.value| > 0 && scheduleOf(records.value[0]).Returns?
      ensures r.success ==> r == Outcome(true, "Schedule retrieved successfully", Some(scheduleOf(records.value[0]).value))
    {
      var denial := Gate("teacher", "can_view_schedule");
      if denial.Some? {
        return Failure(denial.value);
      }
      if records.Throws? {
        return Failure("Failed to get schedule");
      }
      if |records.value| == 0 {
        return Failure("Teacher record not found");
      }
      var schedule := scheduleOf(records.value[0]);
      if schedule.Throws? {
        return Failure("Failed to get schedule");
      }
      r := Outcome(true, "Schedule retrieved successfully", Some(schedule.value));
    }

    /**
     * A teacher rewriting a class's timetable: gated on role `teacher` and
     * `can_edit_schedule`; the database's own reply is passed on once the change
     * has been recorded. `update(t)` is the database update done as teacher `t`.
     */
    method UpdateClassSchedule(records: Db<seq<int>>, update: int -> Db<Outcome<()>>, logActivity: Db<()>)
      returns (r: Outcome<()>)
      ensures Gate("teacher", "can_edit_schedule").Some? ==> r == Failure(Gate("teacher", "can_edit_schedule").value)
      ensures Gate("teacher", "can_edit_schedule").None? && records == Returns([]) ==> r == Failure("Teacher record not found")
      ensures (Gate("teacher", "can_edit_schedule").None? && records.Returns? && |records.value| > 0
              && update(records.value[0]).Returns? && logActivity.Returns?) ==> r == update(records.value[0]).value
      ensures r.success ==> Gate("teacher", "can_edit_schedule").None?
      ensures Gate("teacher", "can_edit_schedule").None? &&
              (records.Throws? || (records.Returns? && |records.value| > 0
                                   && ((update(records.value[0])).Throws? || logActivity.Throws?))) ==>
        r == Failure("Failed to update schedule")
    {
      var denial := Gate("teacher", "can_edit_schedule");
      if denial.Some? {
        return Failure(denial.value);
      }
      if records.Throws? {
        return Failure("Failed to update schedule");
      }
      if |records.value| == 0 {
        return Failure("Teacher record not found");
      }
      var result := update(records.value[0]);
      if result.Throws? || logActivity.Throws? {
        return Failure("Failed to update schedule");
      }
      r := result.value;
    }

    /** A teacher announcing a change (a cancelled class, a new room): the same gates as a timetable update. */
    method AddScheduleChange(records: Db<seq<int>>, change: int -> Db<Outcome<()>>, logActivity: Db<()>)
      returns (r: Outcome<()>)
      ensures Gate("teacher", "can_edit_schedule").Some? ==> r == Failure(Gate("teacher", "can_edit_schedule").value)
      ensures Gate("teacher", "can_edit_schedule").None? && records == Returns([]) ==> r == Failure("Teacher record not found")
      ensures (Gate("teacher", "can_edit_schedule").None? && records.Returns? && |records.value| > 0
              && change(records.value[0]).Returns? && logActivity.Returns?) ==> r == change(records.value[0]).value
      ensures r.success ==> Gate("teacher", "can_edit_schedule").None?
      ensures Gate("teacher", "can_edit_schedule").None? &&
              (records.Throws? || (records.Returns? && |records.value| > 0
                                   && ((change(records.value[0])).Throws? || logActivity.Throws?))) ==>
        r == Failure("Failed to add schedule change")
    {
      var denial := Gate("teacher", "can_edit_schedule");
      if denial.Some? {
        return Failure(denial.value);
      }
      if records.Throws? {
        return Failure("Failed to add schedule change");
      }
      if |records.value| == 0 {
        return Failure("Teacher record not found");
      }
      var result := change(records.value[0]);
      if result.Throws? || logActivity.Throws? {
        return Failure("Failed to add schedule change");
      }
      r := result.value;
    }

    /** Events in a date range: open to any signed-in user holding `can_view_schedule`. */
    method GetEvents<E>(events: Db<E>) returns (r: Outcome<E>)
      ensures currentUser.None? ==> r == Failure("Not authenticated")
      ensures currentUser.Some? && !HasPermission("can_view_schedule") ==> r == Failure("Permission denied")
      ensures r.success <==> HasPermission("can_view_schedule") && events.Returns?
      ensures r.success ==> r == Outcome(true, "Events retrieved successfully", Some(events.value))
    {
      if currentUser.None? {
        return Failure("Not authenticated");
      }
      if !HasPermission("can_view_schedule") {
        return Failure("Permission denied");
      }
      if events.Throws? {
        return Failure("Failed to get events");
      }
      r := Outcome(true, "Events retrieved successfully", Some(events.value));
    }
  }
}
