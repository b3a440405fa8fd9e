/**
 * The subjects handlers: public listing, filtering by day and lookup by id, each
 * joined with the teacher's name; and creation, update and deletion, allowed to
 * faculty only and, for an existing subject, only to the faculty member who owns it.
 * The authenticated user is the one the token middleware passed on.
 */
module SubjectRoutes {
  import opened Common
  import opened Sql
  import opened Tables
  import opened Middleware

  predicate IsDigit(c: char) {
    '0' <= c <= '9'
  }

  /** The length of the run of digits `s` starts with. */
  function LeadingDigits(s: string): (k: nat)
    ensures k <= |s|
    ensures forall i :: 0 <= i < k ==> IsDigit(s[i])
    ensures k < |s| ==> !IsDigit(s[k])
  {
    if s != [] && IsDigit(s[0]) then 1 + LeadingDigits(s[1..]) else 0
  }

  function DigitsValue(d: string): nat
    requires forall i :: 0 <= i < |d| ==> IsDigit(d[i])
  {
    if d == [] then 0
    else
      var last := d[|d| - 1];
      assert IsDigit(last);
      DigitsValue(d[..|d| - 1]) * 10 + (last as int - '0' as int)
  }

  /** JavaScript `parseInt(s)`: an optional sign and the digits right after it; `None` is NaN. */
  function ParseInt(s: string): (n: Option<int>)
    ensures n.None? <==> LeadingDigits(if s != [] && (s[0] == '-' || s[0] == '+') then s[1..] else s) == 0
  {
    var negative := s != [] && s[0] == '-';
    var body := if s != [] && (s[0] == '-' || s[0] == '+') then s[1..] else s;
    var k := LeadingDigits(body);
    if k == 0 then None
    else
      var magnitude := DigitsValue(body[..k]);
      Some(if negative then -(magnitude as int) else magnitude)
  }

  /** The decimal numeral of `n`, as it appears in a request path. */
  function ShowNat(n: nat): (s: string)
    ensures s != [] && forall i :: 0 <= i < |s| ==> IsDigit(s[i])
  {
    var digit := ('0' as int + n % 10) as char;
    if n < 10 then [digit] else ShowNat(n / 10) + [digit]
  }

  lemma {:induction false} ShowNatValue(n: nat)
    ensures DigitsValue(ShowNat(n)) == n
  {
    var s := ShowNat(n);
    if n >= 10 {
      ShowNatValue(n / 10);
      assert s[..|s| - 1] == ShowNat(n / 10);
    }
  }

  lemma {:induction false} LeadingDigitsOf(d: string, rest: string)
    requires forall i :: 0 <= i < |d| ==> IsDigit(d[i])
    requires rest == [] || !IsDigit(rest[0])
    ensures LeadingDigits(d + rest) == |d|
    decreases |d|
  {
    if d == [] {
      assert d + rest == rest;
    } else {
      assert (d + rest)[1..] == d[1..] + rest;
      LeadingDigitsOf(d[1..], rest);
    }
  }

  /** A numeral reads back as its number, whatever non-digit text follows it. */
  lemma ParseIntShowNat(n: nat, rest: string)
    requires rest == [] || !IsDigit(rest[0])
    ensures ParseInt(ShowNat(n) + rest) == Some(n)
  {
    var s := ShowNat(n) + rest;
    assert s[0] == ShowNat(n)[0];
    LeadingDigitsOf(ShowNat(n), rest);
    assert s[..|ShowNat(n)|] == ShowNat(n);
    ShowNatValue(n);
  }

  datatype TeacherInfo = TeacherInfo(firstName: string, lastName: string, department: string)

  /** A subject as the GET handlers return it; `teacher` is null when the left join finds no faculty row. */
  datatype SubjectView = SubjectView(id: nat, name: string, day: string, time: string, color: string,
                                     teacher: Option<TeacherInfo>)

  function View(row: SubjectRow, faculty: map<nat, FacultyRow>): (v: SubjectView)
    ensures v.id == row.id && v.name == row.name && v.day == row.day && v.time == row.time && v.color == row.color
    ensures v.teacher.Some? <==> row.teacherId.Some? && row.teacherId.value in faculty
    ensures v.teacher.Some? ==>
      var f := faculty[row.teacherId.value];
      v.teacher.value == TeacherInfo(f.firstName, f.lastName, f.department)
  {
    var teacher :=
      if row.teacherId.Some? && row.teacherId.value in faculty then
        var f := faculty[row.teacherId.value];
        Some(TeacherInfo(f.firstName, f.lastName, f.department))
      else None;
    SubjectView(row.id, row.name, row.day, row.time, row.color, teacher)
  }

  /** GET `/`: every subject once, joined with its teacher (listed in id order). */
  function ListSubjects(subjects: map<nat, SubjectRow>, serial: nat, faculty: map<nat, FacultyRow>): (views: seq<SubjectView>)
    requires SubjectKeyed(subjects, serial)
    ensures |views| == |subjects|
    ensures forall i :: 0 <= i < |views| ==> views[i].id in subjects && views[i] == View(subjects[views[i].id], faculty)
    ensures forall i, j :: 0 <= i < j < |views| ==> views[i].id < views[j].id
    ensures forall k :: k in subjects ==> View(subjects[k], faculty) in views
  {
    var views := ProjectRows(subjects, serial, (row: SubjectRow) => View(row, faculty));
    var ids := IdsBelow(subjects, serial);
    assert forall i :: 0 <= i < |views| ==> views[i].id == ids[i] by {
      forall i | 0 <= i < |views| ensures views[i].id == ids[i] {
        assert subjects[ids[i]].id == ids[i];
      }
    }
    views
  }

  /** The pattern `like(subjects.day, '%' + day + '%')` builds. */
  function DayPattern(day: string): string {
    "%" + day + "%"
  }

  /** GET `/day/:day`: the subjects whose `day` column matches the pattern. */
  function SubjectsByDay(day: string, subjects: map<nat, SubjectRow>, serial: nat, faculty: map<nat, FacultyRow>)
    : (views: seq<SubjectView>)
    requires SubjectKeyed(subjects, serial)
    ensures forall i :: 0 <= i < |views| ==>
      views[i].id in subjects && views[i] == View(subjects[views[i].id], faculty)
      && Like(subjects[views[i].id].day, DayPattern(day))
    ensures forall k :: k in subjects && Like(subjects[k].day, DayPattern(day)) ==> View(subjects[k], faculty) in views
  {
    var matching := RowsWhere(subjects, (row: SubjectRow) => Like(row.day, DayPattern(day)));
    ListSubjects(matching, serial, faculty)
  }

  /** For a day name without `%`, `_` or `\`, the filter keeps exactly the subjects whose day contains it. */
  lemma DayFilterIsSubstring(day: string, subjects: map<nat, SubjectRow>, serial: nat, faculty: map<nat, FacultyRow>, k: nat)
    requires SubjectKeyed(subjects, serial)
    requires Literal(day) && k in subjects
    ensures View(subjects[k], faculty) in SubjectsByDay(day, subjects, serial, faculty) <==> Contains(subjects[k].day, day)
  {
    var views := SubjectsByDay(day, subjects, serial, faculty);
    SurroundedLiteralIsSubstring(subjects[k].day, day);
    if View(subjects[k], faculty) in views {
      var i :| 0 <= i < |views| && views[i] == View(subjects[k], faculty);
      assert views[i].id == k;
    }
  }

  /** "Thursday" also finds a subject held on "Tuesday & Thursday". */
  lemma ThursdayFindsTuesdayAndThursday(row: SubjectRow, day: string, faculty: map<nat, FacultyRow>)
    requires row.id == 1 && row.day == "Tuesday & Thursday" && day == "Thursday"
    ensures View(row, faculty) in SubjectsByDay(day, map[1 := row], 2, faculty)
  {
    ThursdayInTuesdayAndThursday(row.day, day);
    DayFilterIsSubstring(day, map[1 := row], 2, faculty, 1);
  }

  lemma ThursdayInTuesdayAndThursday(days: string, day: string)
    requires days == "Tuesday & Thursday" && day == "Thursday"
    ensures Contains(days, day) && Literal(day)
  {
    assert days[10..18] == day;
    ContainsAt(days, day, 10);
  }

  /** `_` in the path is a wildcard: "_" finds every subject with a non-empty day. */
  lemma UnderscoreFindsEveryDay(subjects: map<nat, SubjectRow>, serial: nat, faculty: map<nat, FacultyRow>, k: nat)
    requires SubjectKeyed(subjects, serial)
    requires k in subjects && subjects[k].day != ""
    ensures View(subjects[k], faculty) in SubjectsByDay("_", subjects, serial, faculty)
  {
    UnderscoreMatchesAnything(subjects[k].day);
  }

  /** The range of the Postgres `integer` type, the type of the serial `id` columns. */
  predicate InInt4(n: int) {
    -2147483648 <= n <= 2147483647
  }

  /**
   * GET `/:id`: 500 when the id is not a number or the database rejects it as out
   * of range for its `integer` column, 404 when no subject has it.
   */
  function SubjectById(idParam: string, subjects: map<nat, SubjectRow>, faculty: map<nat, FacultyRow>): (r: Http<SubjectView>)
    ensures (ParseInt(idParam).None? || !InInt4(ParseInt(idParam).value)) <==> r == Error(500, "Internal server error")
    ensures r == Error(404, "Subject not found") <==>
      && ParseInt(idParam).Some? && InInt4(ParseInt(idParam).value)
      && !(ParseInt(idParam).value >= 0 && ParseInt(idParam).value in subjects)
    ensures r.Reply? ==>
      var id := ParseInt(idParam).value;
      InInt4(id) && id >= 0 && id in subjects && r == Reply(200, View(subjects[id], faculty))
  {
    match ParseInt(idParam)
    case None => Error(500, "Internal server error")
    case Some(n) =>
      if !InInt4(n) then Error(500, "Internal server error")
      else if n >= 0 && n in subjects then Reply(200, View(subjects[n], faculty))
      else Error(404, "Subject not found")
  }

  /** Every subject whose id fits the `integer` column is found under that id. */
  lemma SubjectByIdFindsEverySubject(subjects: map<nat, SubjectRow>, faculty: map<nat, FacultyRow>, k: nat)
    requires k in subjects && InInt4(k)
    ensures SubjectById(ShowNat(k), subjects, faculty) == Reply(200, View(subjects[k], faculty))
  {
    ParseIntShowNat(k, "");
    assert ShowNat(k) + "" == ShowNat(k);
  }

  /** A numeric id beyond the `integer` range is a 500, never a 404, whatever the table holds. */
  lemma OutOfRangeIdIsServerError(subjects: map<nat, SubjectRow>, faculty: map<nat, FacultyRow>, k: nat, rest: string)
    requires k > 2147483647
    requires rest == [] || !IsDigit(rest[0])
    ensures SubjectById(ShowNat(k) + rest, subjects, faculty) == Error(500, "Internal server error")
  {
    ParseIntShowNat(k, rest);
  }

  /** The result of the guard checks of PUT and DELETE: go ahead with this id, or answer. */
  datatype Verdict = Allowed(id: nat) | Refused(status: nat, message: string)

  /**
   * The checks of PUT and DELETE in their order: role, then a numeric id the
   * `integer` column accepts, then existence, then ownership. `action` is "update"
   * or "delete".
   */
  function OwnerGuard(user: RequestUser, idParam: string, subjects: map<nat, SubjectRow>, action: string): (v: Verdict)
    ensures user.Role() != "faculty" ==> v == Refused(403, "Only faculty can " + action + " subjects")
    ensures user.Role() == "faculty" && (ParseInt(idParam).None? || !InInt4(ParseInt(idParam).value)) ==>
      v == Refused(500, "Internal server error")
    ensures user.Role() == "faculty" && ParseInt(idParam).Some? && InInt4(ParseInt(idParam).value) ==>
      var n := ParseInt(idParam).value;
      && (!(n >= 0 && n in subjects) ==> v == Refused(404, "Subject not found"))
      && (n >= 0 && n in subjects && subjects[n].teacherId != Some(user.Id()) ==>
            v == Refused(403, "You can only " + action + " your own subjects"))
    ensures v.Allowed? <==>
      user.Role() == "faculty" && ParseInt(idParam).Some? && InInt4(ParseInt(idParam).value)
      && ParseInt(idParam).value >= 0 && ParseInt(idParam).value in subjects && subjects[ParseInt(idParam).value].teacherId == Some(user.Id())
    ensures v.Allowed? ==> v.id as int == ParseInt(idParam).value
  {
    if user.Role() != "faculty" then Refused(403, "Only faculty can " + action + " subjects")
    else match ParseInt(idParam)
      case None => Refused(500, "Internal server error")
      case Some(n) =>
        if !InInt4(n) then Refused(500, "Internal server error")
        else if !(n >= 0 && n in subjects) then Refused(404, "Subject not found")
        else if subjects[n].teacherId != Some(user.Id()) then Refused(403, "You can only " + action + " your own subjects")
        else Allowed(n)
  }

  /** A student learns nothing about which subjects exist: the answer is the same for every id and table. */
  lemma StudentsLearnNothing(s: StudentRow, a: string, b: string, m1: map<nat, SubjectRow>, m2: map<nat, SubjectRow>, action: string)
    ensures OwnerGuard(StudentUser(s), a, m1, action) == OwnerGuard(StudentUser(s), b, m2, action)
  {
  }

  /** The subject's fields a POST or PUT body carries; a missing field is `None`. */
  datatype SubjectFields = SubjectFields(name: Option<string>, day: Option<string>, time: Option<string>, color: Option<string>)

  /** A mutating handler's reply body: its message and the subject it returns, if any. */
  datatype Mutation = Mutation(message: string, subject: Option<SubjectRow>)

  function Or(field: Option<string>, current: string): string {
    if field.Some? then field.value else current
  }

  /** The `.set({...})` of PUT: given fields replace the old ones, missing ones are skipped, `updatedAt` is now. */
  function Patch(row: SubjectRow, body: SubjectFields, now: int): (updated: SubjectRow)
    ensures updated.id == row.id && updated.teacherId == row.teacherId && updated.createdAt == row.createdAt
    ensures updated.updatedAt == now
    ensures updated.name == (if body.name.Some? then body.name.value else row.name)
    ensures updated.day == (if body.day.Some? then body.day.value else row.day)
    ensures updated.time == (if body.time.Some? then body.time.value else row.time)
    ensures updated.color == (if body.color.Some? then body.color.value else row.color)
  {
    row.(name := Or(body.name, row.name), day := Or(body.day, row.day), time := Or(body.time, row.time),
         color := Or(body.color, row.color), updatedAt := now)
  }

  /** Patching with an empty body changes only `updatedAt`; patching twice with the same body is patching once. */
  lemma PatchProperties(row: SubjectRow, body: SubjectFields, now: int, later: int)
    ensures Patch(row, SubjectFields(None, None, None, None), now) == row.(updatedAt := now)
    ensures Patch(Patch(row, body, now), body, later) == Patch(row, body, later)
  {
  }

  /** POST `/`: faculty only; the new subject's teacher is the caller, never a body field. */
  method CreateSubject(db: Database, user: RequestUser, body: SubjectFields, now: int) returns (r: Http<Mutation>)
    requires db.Valid()
    modifies db
    ensures db.Valid()
    ensures db.faculty == old(db.faculty) && db.students == old(db.students)
    ensures db.facultySerial == old(db.facultySerial) && db.studentSerial == old(db.studentSerial)
    ensures user.Role() != "faculty" ==> r == Error(403, "Only faculty can create subjects")
    ensures user.Role() == "faculty" && (body.name.None? || body.day.None? || body.time.None? || body.color.None?) ==>
      r == Error(500, "Internal server error")
    ensures r.Reply? <==>
      user.Role() == "faculty" && body.name.Some? && body.day.Some? && body.time.Some? && body.color.Some?
    ensures r.Error? ==> db.subjects == old(db.subjects) && db.subjectSerial == old(db.subjectSerial)
    ensures r.Reply? ==>
      var row := SubjectRow(old(db.subjectSerial), body.name.value, Some(user.Id()), body.day.value,
                            body.time.value, body.color.value, now, now);
      && db.subjects == old(db.subjects)[row.id := row] && db.subjectSerial == old(db.subjectSerial) + 1
      && r == Reply(201, Mutation("Subject created successfully", Some(row)))
  {
    if user.Role() != "faculty" {
      return Error(403, "Only faculty can create subjects");
    }
    if body.name.None? || body.day.None? || body.time.None? || body.color.None? {
      return Error(500, "Internal server error");
    }
    var row := db.InsertSubject(body.name.value, Some(user.Id()), body.day.value, body.time.value, body.color.value, now);
    r := Reply(201, Mutation("Subject created successfully", Some(row)));
  }

  /** PUT `/:id`: after the guard, only the subject under that id changes, as `Patch` says. */
  method UpdateSubject(db: Database, user: RequestUser, idParam: string, body: SubjectFields, now: int)
    returns (r: Http<Mutation>)
    requires db.Valid()
    modifies db`subjects
    ensures db.Valid()
    ensures OwnerGuard(user, idParam, old(db.subjects), "update").Refused? ==>
      var v := OwnerGuard(user, idParam, old(db.subjects), "update");
      r == Error(v.status, v.message) && db.subjects == old(db.subjects)
    ensures OwnerGuard(user, idParam, old(db.subjects), "update").Allowed? ==>
      var id := OwnerGuard(user, idParam, old(db.subjects), "update").id;
      var updated := Patch(old(db.subjects)[id], body, now);
      && db.subjects == old(db.subjects)[id := updated]
      && r == Reply(200, Mutation("Subject updated successfully", Some(updated)))
  {
    var verdict := OwnerGuard(user, idParam, db.subjects, "update");
    if verdict.Refused? {
      return Error(verdict.status, verdict.message);
    }
    var updated := Patch(db.subjects[verdict.id], body, now);
    db.subjects := db.subjects[verdict.id := updated];
    r := Reply(200, Mutation("Subject updated successfully", Some(updated)));
  }

  /** DELETE `/:id`: after the guard, exactly that subject is removed. */
  method DeleteSubject(db: Database, user: RequestUser, idParam: string) returns (r: Http<Mutation>)
    requires db.Valid()
    modifies db`subjects
    ensures db.Valid()
    ensures OwnerGuard(user, idParam, old(db.subjects), "delete").Refused? ==>
      var v := OwnerGuard(user, idParam, old(db.subjects), "delete");
      r == Error(v.status, v.message) && db.subjects == old(db.subjects)
    ensures OwnerGuard(user, idParam, old(db.subjects), "delete").Allowed? ==>
      var id := OwnerGuard(user, idParam, old(db.subjects), "delete").id;
      && id in old(db.subjects) && id !in db.subjects
      && (forall k :: k in old(db.subjects) && k != id ==> k in db.subjects && db.subjects[k] == old(db.subjects)[k])
      && db.subjects.Keys == old(db.subjects).Keys - {id}
      && r == Reply(200, Mutation("Subject deleted successfully", None))
  {
    var verdict := OwnerGuard(user, idParam, db.subjects, "delete");
    if verdict.Refused? {
      return Error(verdict.status, verdict.message);
    }
    db.subjects := db.subjects - {verdict.id};
    r := Reply(200, Mutation("Subject deleted successfully", None));
  }
}
