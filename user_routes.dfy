/**
 * The user handlers: reading and updating one's own profile, changing one's
 * password, the public faculty list and the faculty-only student list. The profile
 * and password handlers update the row of the authenticated user in the table its
 * role names.
 */
module UserRoutes {
  import opened Common
  import opened Sql
  import opened Tables
  import opened Middleware

  /** A row without its password. */
  datatype Profile =
    | FacultyProfile(id: nat, firstName: string, lastName: string, department: string,
                     birthday: int, createdAt: int, updatedAt: int)
    | StudentProfile(id: nat, firstName: string, lastName: string,
                     birthday: int, createdAt: int, updatedAt: int)

  function FacultyProfileOf(row: FacultyRow): Profile {
    FacultyProfile(row.id, row.firstName, row.lastName, row.department, row.birthday, row.createdAt, row.updatedAt)
  }

  function StudentProfileOf(row: StudentRow): Profile {
    StudentProfile(row.id, row.firstName, row.lastName, row.birthday, row.createdAt, row.updatedAt)
  }

  function ProfileOf(user: RequestUser): Profile {
    match user
    case FacultyUser(row) => FacultyProfileOf(row)
    case StudentUser(row) => StudentProfileOf(row)
  }

  /** Puts a password back into a profile: the inverse of removing it. */
  function WithPassword(p: Profile, password: string): RequestUser {
    match p
    case FacultyProfile(id, first, last, dept, birthday, created, updated) =>
      FacultyUser(FacultyRow(id, first, last, dept, password, birthday, created, updated))
    case StudentProfile(id, first, last, birthday, created, updated) =>
      StudentUser(StudentRow(id, first, last, password, birthday, created, updated))
  }

  /** The body of GET `/profile`: the request's user without its password, with its role. */
  datatype UserProfile = UserProfile(profile: Profile, role: string)

  /** GET `/profile`: only the password is dropped; putting it back gives the request's user. */
  function GetProfile(user: RequestUser): (r: Http<UserProfile>)
    ensures r.Reply? && r.status == 200
    ensures r.body.role == user.Role()
    ensures WithPassword(r.body.profile, user.Password()) == user
  {
    Reply(200, UserProfile(ProfileOf(user), user.Role()))
  }

  /** Two users whose profiles agree differ at most in their passwords. */
  lemma ProfileForgetsOnlyPassword(u: RequestUser, v: RequestUser)
    requires GetProfile(u).body == GetProfile(v).body
    ensures u.Password() == v.Password() ==> u == v
    ensures u.Role() == v.Role() && u.Id() == v.Id()
  {
    assert WithPassword(GetProfile(u).body.profile, u.Password()) == u;
    assert WithPassword(GetProfile(v).body.profile, v.Password()) == v;
  }

  /** The body of PUT `/profile`; a missing field is `None`, and a missing or invalid birthday is `None` too. */
  datatype ProfileUpdate = ProfileUpdate(firstName: Option<string>, lastName: Option<string>, birthday: Option<int>)

  /** The reply of PUT `/profile`: the updated row without password (and without role). */
  datatype ProfileReply = ProfileReply(message: string, user: Profile)

  function Or(field: Option<string>, current: string): string {
    if field.Some? then field.value else current
  }

  function UpdateFacultyRow(row: FacultyRow, body: ProfileUpdate, birthday: int, now: int): (updated: FacultyRow)
    ensures updated == row.(firstName := updated.firstName, lastName := updated.lastName,
                            birthday := birthday, updatedAt := now)
    ensures updated.firstName == (if body.firstName.Some? then body.firstName.value else row.firstName)
    ensures updated.lastName == (if body.lastName.Some? then body.lastName.value else row.lastName)
  {
    row.(firstName := Or(body.firstName, row.firstName), lastName := Or(body.lastName, row.lastName),
         birthday := birthday, updatedAt := now)
  }

  function UpdateStudentRow(row: StudentRow, body: ProfileUpdate, birthday: int, now: int): (updated: StudentRow)
    ensures updated == row.(firstName := updated.firstName, lastName := updated.lastName,
                            birthday := birthday, updatedAt := now)
    ensures updated.firstName == (if body.firstName.Some? then body.firstName.value else row.firstName)
    ensures updated.lastName == (if body.lastName.Some? then body.lastName.value else row.lastName)
  {
    row.(firstName := Or(body.firstName, row.firstName), lastName := Or(body.lastName, row.lastName),
         birthday := birthday, updatedAt := now)
  }

  /**
   * PUT `/profile`: the row of the request's user, in the faculty table for a
   * faculty user and in the students table otherwise, gets the given names, the
   * birthday and `updatedAt`. A bad birthday, or a row that is gone, is a 500.
   */
  method UpdateProfile(db: Database, user: RequestUser, body: ProfileUpdate, now: int) returns (r: Http<ProfileReply>)
    requires db.Valid()
    modifies db`faculty, db`students
    ensures db.Valid()
    ensures r.Error? ==> r == Error(500, "Internal server error") && db.faculty == old(db.faculty) && db.students == old(db.students)
    ensures body.birthday.None? ==> r.Error?
    ensures user.FacultyUser? ==> db.students == old(db.students)
    ensures user.StudentUser? ==> db.faculty == old(db.faculty)
    ensures user.FacultyUser? && body.birthday.Some? && user.Id() in old(db.faculty) ==>
      var updated := UpdateFacultyRow(old(db.faculty)[user.Id()], body, body.birthday.value, now);
      db.faculty == old(db.faculty)[user.Id() := updated]
      && r == Reply(200, ProfileReply("Profile updated successfully", FacultyProfileOf(updated)))
    ensures user.StudentUser? && body.birthday.Some? && user.Id() in old(db.students) ==>
      var updated := UpdateStudentRow(old(db.students)[user.Id()], body, body.birthday.value, now);
      db.students == old(db.students)[user.Id() := updated]
      && r == Reply(200, ProfileReply("Profile updated successfully", StudentProfileOf(updated)))
    ensures r.Error? <==> (body.birthday.None? ||
      (user.FacultyUser? && user.Id() !in old(db.faculty)) || (user.StudentUser? && user.Id() !in old(db.students)))
  {
    if body.birthday.None? {
      return Error(500, "Internal server error");
    }
    var id := user.Id();
    if user.Role() == "faculty" {
      if id !in db.faculty {
        return Error(500, "Internal server error");
      }
      var updated := UpdateFacultyRow(db.faculty[id], body, body.birthday.value, now);
      db.faculty := db.faculty[id := updated];
      r := Reply(200, ProfileReply("Profile updated successfully", FacultyProfileOf(updated)));
    } else {
      if id !in db.students {
        return Error(500, "Internal server error");
      }
      var updated := UpdateStudentRow(db.students[id], body, body.birthday.value, now);
      db.students := db.students[id := updated];
      r := Reply(200, ProfileReply("Profile updated successfully", StudentProfileOf(updated)));
    }
  }

  /**
   * A profile update can give a faculty member the last name of another, which
   * registration never allows, after which login by that name reaches only one of them.
   */
  lemma ProfileUpdateCanDuplicateLastName(a: FacultyRow, b: FacultyRow, now: int)
    requires a.id == 1 && b.id == 2 && a.lastName != b.lastName
    ensures UniqueFacultyNames(map[1 := a, 2 := b])
    ensures !UniqueFacultyNames(map[1 := a, 2 := UpdateFacultyRow(b, ProfileUpdate(None, Some(a.lastName), Some(0)), 0, now)])
  {
    var m := map[1 := a, 2 := UpdateFacultyRow(b, ProfileUpdate(None, Some(a.lastName), Some(0)), 0, now)];
    assert m[1].lastName == m[2].lastName;
  }

  /** The body of PUT `/password`; a missing field is `None`. */
  datatype PasswordChange = PasswordChange(currentPassword: Option<string>, newPassword: Option<string>)

  /**
   * PUT `/password`. bcrypt throws on a missing argument, so a missing current
   * password, or a missing new password after a right current one, is a 500. A
   * wrong current password is a 401. Errors change nothing; a success replaces the
   * stored hash of the user's row (if the row still exists) and its `updatedAt`.
   */
  method ChangePassword(db: Database, user: RequestUser, body: PasswordChange,
                        compare: (string, string) -> bool, hash: string -> string, now: int) returns (r: Http<string>)
    requires db.Valid()
    modifies db`faculty, db`students
    ensures db.Valid()
    ensures r.Error? ==> db.faculty == old(db.faculty) && db.students == old(db.students)
    ensures body.currentPassword.None? ==> r == Error(500, "Internal server error")
    ensures body.currentPassword.Some? && !compare(body.currentPassword.value, user.Password()) ==>
      r == Error(401, "Current password is incorrect")
    ensures body.currentPassword.Some? && compare(body.currentPassword.value, user.Password()) && body.newPassword.None? ==>
      r == Error(500, "Internal server error")
    ensures r.Reply? <==>
      body.currentPassword.Some? && compare(body.currentPassword.value, user.Password()) && body.newPassword.Some?
    ensures r.Reply? ==> r == Reply(200, "Password updated successfully")
    ensures r.Reply? && user.FacultyUser? ==>
      db.students == old(db.students) &&
      db.faculty == if user.Id() in old(db.faculty)
                    then old(db.faculty)[user.Id() := old(db.faculty)[user.Id()].(password := hash(body.newPassword.value), updatedAt := now)]
                    else old(db.faculty)
    ensures r.Reply? && user.StudentUser? ==>
      db.faculty == old(db.faculty) &&
      db.students == if user.Id() in old(db.students)
                     then old(db.students)[user.Id() := old(db.students)[user.Id()].(password := hash(body.newPassword.value), updatedAt := now)]
                     else old(db.students)
  {
    if body.currentPassword.None? {
      return Error(500, "Internal server error");
    }
    if !compare(body.currentPassword.value, user.Password()) {
      return Error(401, "Current password is incorrect");
    }
    if body.newPassword.None? {
      return Error(500, "Internal server error");
    }
    var hashed := hash(body.newPassword.value);
    var id := user.Id();
    if user.Role() == "faculty" {
      if id in db.faculty {
        db.faculty := db.faculty[id := db.faculty[id].(password := hashed, updatedAt := now)];
      }
    } else {
      if id in db.students {
        db.students := db.students[id := db.students[id].(password := hashed, updatedAt := now)];
      }
    }
    r := Reply(200, "Password updated successfully");
  }

  /** A password change leaves every last name, and so last-name uniqueness, as it was. */
  lemma PasswordChangeKeepsNames(faculty: map<nat, FacultyRow>, id: nat, hashed: string, now: int)
    requires id in faculty && UniqueFacultyNames(faculty)
    ensures UniqueFacultyNames(faculty[id := faculty[id].(password := hashed, updatedAt := now)])
  {
    var m := faculty[id := faculty[id].(password := hashed, updatedAt := now)];
    forall j, k | j in m && k in m && m[j].lastName == m[k].lastName ensures j == k {
      assert m[j].lastName == faculty[j].lastName && m[k].lastName == faculty[k].lastName;
    }
  }

  /** An entry of GET `/faculty`. */
  datatype FacultyListing = FacultyListing(id: nat, firstName: string, lastName: string, department: string, createdAt: int)

  /** An entry of GET `/students`. */
  datatype StudentListing = StudentListing(id: nat, firstName: string, lastName: string, birthday: int, createdAt: int)

  function FacultyListingOf(row: FacultyRow): FacultyListing {
    FacultyListing(row.id, row.firstName, row.lastName, row.department, row.createdAt)
  }

  function StudentListingOf(row: StudentRow): StudentListing {
    StudentListing(row.id, row.firstName, row.lastName, row.birthday, row.createdAt)
  }

  /** GET `/faculty`: every faculty member once, without password, ordered by last name. */
  function ListFaculty(faculty: map<nat, FacultyRow>, serial: nat): (listing: seq<FacultyListing>)
    requires FacultyKeyed(faculty, serial)
    ensures |listing| == |faculty|
    ensures multiset(listing) == multiset(ProjectRows(faculty, serial, FacultyListingOf))
    ensures forall k :: k in faculty ==> FacultyListingOf(faculty[k]) in listing
    ensures forall i :: 0 <= i < |listing| ==>
      listing[i].id in faculty && listing[i] == FacultyListingOf(faculty[listing[i].id])
    ensures forall i, j :: 0 <= i <= j < |listing| ==> LexLe(listing[i].lastName, listing[j].lastName)
  {
    var listing := OrderedRows(faculty, serial, FacultyListingOf, (l: FacultyListing) => l.lastName);
    assert forall i :: 0 <= i < |listing| ==>
      listing[i].id in faculty && listing[i] == FacultyListingOf(faculty[listing[i].id]) by {
      forall i | 0 <= i < |listing|
        ensures listing[i].id in faculty && listing[i] == FacultyListingOf(faculty[listing[i].id])
      {
        var k := ProjectedFrom(faculty, serial, FacultyListingOf, listing[i]);
        assert faculty[k].id == k;
      }
    }
    listing
  }

  /** The body of GET `/students`: every student once, without password, ordered by last name. */
  function StudentsByLastName(students: map<nat, StudentRow>, serial: nat): (listing: seq<StudentListing>)
    requires StudentKeyed(students, serial)
    ensures |listing| == |students|
    ensures multiset(listing) == multiset(ProjectRows(students, serial, StudentListingOf))
    ensures forall k :: k in students ==> StudentListingOf(students[k]) in listing
    ensures forall i :: 0 <= i < |listing| ==>
      listing[i].id in students && listing[i] == StudentListingOf(students[listing[i].id])
    ensures forall i, j :: 0 <= i <= j < |listing| ==> LexLe(listing[i].lastName, listing[j].lastName)
  {
    var listing := OrderedRows(students, serial, StudentListingOf, (l: StudentListing) => l.lastName);
    assert forall i :: 0 <= i < |listing| ==>
      listing[i].id in students && listing[i] == StudentListingOf(students[listing[i].id]) by {
      forall i | 0 <= i < |listing|
        ensures listing[i].id in students && listing[i] == StudentListingOf(students[listing[i].id])
      {
        var k := ProjectedFrom(students, serial, StudentListingOf, listing[i]);
        assert students[k].id == k;
      }
    }
    listing
  }

  /** GET `/students`: faculty only. */
  function ListStudents(user: RequestUser, students: map<nat, StudentRow>, serial: nat): (r: Http<seq<StudentListing>>)
    requires StudentKeyed(students, serial)
    ensures user.Role() != "faculty" <==> r == Error(403, "Only faculty can view students")
    ensures user.Role() == "faculty" <==> r == Reply(200, StudentsByLastName(students, serial))
  {
    if user.Role() != "faculty" then Error(403, "Only faculty can view students")
    else Reply(200, StudentsByLastName(students, serial))
  }
}
