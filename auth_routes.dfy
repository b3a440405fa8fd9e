/**
 * The registration and login handlers for faculty and students. Registration
 * inserts a row keyed by a fresh serial id after checking that no row has the same
 * last name; login finds the row by last name and compares the password. Both
 * answer with the user (without password) and a signed token.
 *
 * bcrypt is a pair of parameters: `hash` for hashing and `compare` for checking a
 * password against a stored hash.
 */
module AuthRoutes {
  import opened Common
  import opened Tables
  import opened Middleware

  datatype FacultyRegistration = FacultyRegistration(
    firstName: string, lastName: string, department: string, password: string, birthday: Option<int>)

  datatype StudentRegistration = StudentRegistration(
    firstName: string, lastName: string, password: string, birthday: Option<int>)

  datatype Credentials = Credentials(lastName: string, password: string)

  /** The `user` object of a register or login reply; it has no password field. */
  datatype UserView = UserView(id: nat, firstName: string, lastName: string, department: Option<string>, role: string)

  /** A register or login reply: a message, the user and the token issued for it. */
  datatype Issued = Issued(message: string, user: UserView, token: string)

  function FacultyView(row: FacultyRow): UserView {
    UserView(row.id, row.firstName, row.lastName, Some(row.department), "faculty")
  }

  function StudentView(row: StudentRow): UserView {
    UserView(row.id, row.firstName, row.lastName, None, "student")
  }

  method RegisterFaculty(db: Database, body: FacultyRegistration, hash: string -> string,
                         sign: TokenPayload -> string, now: int) returns (r: Http<Issued>)
    requires db.Valid()
    modifies db
    ensures db.Valid()
    ensures db.students == old(db.students) && db.studentSerial == old(db.studentSerial)
    ensures db.subjects == old(db.subjects) && db.subjectSerial == old(db.subjectSerial)
    ensures (exists k :: k in old(db.faculty) && old(db.faculty)[k].lastName == body.lastName) ==>
      r == Error(400, "Faculty already exists")
    ensures (forall k :: k in old(db.faculty) ==> old(db.faculty)[k].lastName != body.lastName) && body.birthday.None? ==>
      r == Error(500, "Internal server error")
    ensures r.Reply? <==>
      (forall k :: k in old(db.faculty) ==> old(db.faculty)[k].lastName != body.lastName) && body.birthday.Some?
    ensures r.Error? ==> db.faculty == old(db.faculty) && db.facultySerial == old(db.facultySerial)
    ensures r.Reply? ==>
      var row := FacultyRow(old(db.facultySerial), body.firstName, body.lastName, body.department,
                            hash(body.password), body.birthday.value, now, now);
      && db.faculty == old(db.faculty)[row.id := row] && db.facultySerial == old(db.facultySerial) + 1
      && r == Reply(201, Issued("Faculty registered successfully", FacultyView(row), sign(GenerateToken(row.id, "faculty"))))
    ensures UniqueFacultyNames(old(db.faculty)) ==> UniqueFacultyNames(db.faculty)
  {
    var existing := FacultyByLastName(db.faculty, db.facultySerial, body.lastName);
    if existing.Some? {
      return Error(400, "Faculty already exists");
    }
    var hashed := hash(body.password);
    if body.birthday.None? {
      return Error(500, "Internal server error");
    }
    var row := db.InsertFaculty(body.firstName, body.lastName, body.department, hashed, body.birthday.value, now);
    var token := sign(GenerateToken(row.id, "faculty"));
    r := Reply(201, Issued("Faculty registered successfully", FacultyView(row), token));
  }

  method RegisterStudent(db: Database, body: StudentRegistration, hash: string -> string,
                         sign: TokenPayload -> string, now: int) returns (r: Http<Issued>)
    requires db.Valid()
    modifies db
    ensures db.Valid()
    ensures db.faculty == old(db.faculty) && db.facultySerial == old(db.facultySerial)
    ensures db.subjects == old(db.subjects) && db.subjectSerial == old(db.subjectSerial)
    ensures (exists k :: k in old(db.students) && old(db.students)[k].lastName == body.lastName) ==>
      r == Error(400, "Student already exists")
    ensures (forall k :: k in old(db.students) ==> old(db.students)[k].lastName != body.lastName) && body.birthday.None? ==>
      r == Error(500, "Internal server error")
    ensures r.Reply? <==>
      (forall k :: k in old(db.students) ==> old(db.students)[k].lastName != body.lastName) && body.birthday.Some?
    ensures r.Error? ==> db.students == old(db.students) && db.studentSerial == old(db.studentSerial)
    ensures r.Reply? ==>
      var row := StudentRow(old(db.studentSerial), body.firstName, body.lastName,
                            hash(body.password), body.birthday.value, now, now);
      && db.students == old(db.students)[row.id := row] && db.studentSerial == old(db.studentSerial) + 1
      && r == Reply(201, Issued("Student registered successfully", StudentView(row), sign(GenerateToken(row.id, "student"))))
    ensures UniqueStudentNames(old(db.students)) ==> UniqueStudentNames(db.students)
  {
    var existing := StudentByLastName(db.students, db.studentSerial, body.lastName);
    if existing.Some? {
      return Error(400, "Student already exists");
    }
    var hashed := hash(body.password);
    if body.birthday.None? {
      return Error(500, "Internal server error");
    }
    var row := db.InsertStudent(body.firstName, body.lastName, hashed, body.birthday.value, now);
    var token := sign(GenerateToken(row.id, "student"));
    r := Reply(201, Issued("Student registered successfully", StudentView(row), token));
  }

  /**
   * Faculty login. An unknown last name and a wrong password get the same answer;
   * a success names the matched row and carries a token for its id.
   */
  function FacultyLogin(faculty: map<nat, FacultyRow>, serial: nat, body: Credentials,
                        compare: (string, string) -> bool, sign: TokenPayload -> string): (r: Http<Issued>)
    requires FacultyKeyed(faculty, serial)
    ensures r.Error? ==> r == Error(401, "Invalid credentials")
    ensures r.Reply? ==>
      var id := r.body.user.id;
      && r.status == 200 && id in faculty && faculty[id].lastName == body.lastName
      && compare(body.password, faculty[id].password)
      && r.body == Issued("Login successful", FacultyView(faculty[id]), sign(GenerateToken(id, "faculty")))
    ensures UniqueFacultyNames(faculty) ==>
      (r.Reply? <==> exists k :: k in faculty && faculty[k].lastName == body.lastName && compare(body.password, faculty[k].password))
  {
    match FacultyByLastName(faculty, serial, body.lastName)
    case None => Error(401, "Invalid credentials")
    case Some(id) =>
      if !compare(body.password, faculty[id].password) then Error(401, "Invalid credentials")
      else Reply(200, Issued("Login successful", FacultyView(faculty[id]), sign(GenerateToken(id, "faculty"))))
  }

  function StudentLogin(students: map<nat, StudentRow>, serial: nat, body: Credentials,
                        compare: (string, string) -> bool, sign: TokenPayload -> string): (r: Http<Issued>)
    requires StudentKeyed(students, serial)
    ensures r.Error? ==> r == Error(401, "Invalid credentials")
    ensures r.Reply? ==>
      var id := r.body.user.id;
      && r.status == 200 && id in students && students[id].lastName == body.lastName
      && compare(body.password, students[id].password)
      && r.body == Issued("Login successful", StudentView(students[id]), sign(GenerateToken(id, "student")))
    ensures UniqueStudentNames(students) ==>
      (r.Reply? <==> exists k :: k in students && students[k].lastName == body.lastName && compare(body.password, students[k].password))
  {
    match StudentByLastName(students, serial, body.lastName)
    case None => Error(401, "Invalid credentials")
    case Some(id) =>
      if !compare(body.password, students[id].password) then Error(401, "Invalid credentials")
      else Reply(200, Issued("Login successful", StudentView(students[id]), sign(GenerateToken(id, "student"))))
  }

  /**
   * The row a faculty registration inserts logs in with the registered password,
   * given that bcrypt accepts a password against its own hash.
   */
  lemma RegisteredFacultyCanLogIn(faculty: map<nat, FacultyRow>, serial: nat, body: FacultyRegistration,
                                  hash: string -> string, compare: (string, string) -> bool,
                                  sign: TokenPayload -> string, now: int)
    requires FacultyKeyed(faculty, serial)
    requires forall k :: k in faculty ==> faculty[k].lastName != body.lastName
    requires body.birthday.Some? && compare(body.password, hash(body.password))
    ensures var row := FacultyRow(serial, body.firstName, body.lastName, body.department,
                                  hash(body.password), body.birthday.value, now, now);
      && FacultyKeyed(faculty[serial := row], serial + 1)
      && FacultyLogin(faculty[serial := row], serial + 1, Credentials(body.lastName, body.password), compare, sign)
         == Reply(200, Issued("Login successful", FacultyView(row), sign(GenerateToken(serial, "faculty"))))
  {
    var row := FacultyRow(serial, body.firstName, body.lastName, body.department,
                          hash(body.password), body.birthday.value, now, now);
    var m := faculty[serial := row];
    assert FacultyKeyed(m, serial + 1);
    var found := FacultyByLastName(m, serial + 1, body.lastName);
    assert m[serial].lastName == body.lastName;
    assert found == Some(serial);
  }

  lemma RegisteredStudentCanLogIn(students: map<nat, StudentRow>, serial: nat, body: StudentRegistration,
                                  hash: string -> string, compare: (string, string) -> bool,
                                  sign: TokenPayload -> string, now: int)
    requires StudentKeyed(students, serial)
    requires forall k :: k in students ==> students[k].lastName != body.lastName
    requires body.birthday.Some? && compare(body.password, hash(body.password))
    ensures var row := StudentRow(serial, body.firstName, body.lastName,
                                  hash(body.password), body.birthday.value, now, now);
      && StudentKeyed(students[serial := row], serial + 1)
      && StudentLogin(students[serial := row], serial + 1, Credentials(body.lastName, body.password), compare, sign)
         == Reply(200, Issued("Login successful", StudentView(row), sign(GenerateToken(serial, "student"))))
  {
    var row := StudentRow(serial, body.firstName, body.lastName,
                          hash(body.password), body.birthday.value, now, now);
    var m := students[serial := row];
    assert StudentKeyed(m, serial + 1);
    var found := StudentByLastName(m, serial + 1, body.lastName);
    assert m[serial].lastName == body.lastName;
    assert found == Some(serial);
  }
}
