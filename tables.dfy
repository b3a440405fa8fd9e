/**
 * The backend's three tables — faculty, students, subjects — each a map from a
 * serial id to its row, held by one `Database` object the handlers update in place.
 * Times (`birthday`, `createdAt`, `updatedAt`) are milliseconds on the server clock.
 */
module Tables {
  import opened Common
  import opened Sql

  datatype FacultyRow = FacultyRow(
    id: nat, firstName: string, lastName: string, department: string,
    password: string, birthday: int, createdAt: int, updatedAt: int)

  datatype StudentRow = StudentRow(
    id: nat, firstName: string, lastName: string,
    password: string, birthday: int, createdAt: int, updatedAt: int)

  /** `teacherId` is a nullable reference to a faculty id. */
  datatype SubjectRow = SubjectRow(
    id: nat, name: string, teacherId: Option<nat>, day: string, time: string, color: string,
    createdAt: int, updatedAt: int)

  /** Every row sits under its own id, and every id is below the next serial value. */
  predicate FacultyKeyed(m: map<nat, FacultyRow>, serial: nat) {
    forall k :: k in m ==> k < serial && m[k].id == k
  }

  predicate StudentKeyed(m: map<nat, StudentRow>, serial: nat) {
    forall k :: k in m ==> k < serial && m[k].id == k
  }

  predicate SubjectKeyed(m: map<nat, SubjectRow>, serial: nat) {
    forall k :: k in m ==> k < serial && m[k].id == k
  }

  /** No two faculty members share a last name. */
  predicate UniqueFacultyNames(m: map<nat, FacultyRow>) {
    forall j, k :: j in m && k in m && m[j].lastName == m[k].lastName ==> j == k
  }

  predicate UniqueStudentNames(m: map<nat, StudentRow>) {
    forall j, k :: j in m && k in m && m[j].lastName == m[k].lastName ==> j == k
  }

  /** `select … where lastName = name limit 1` on the faculty table, taken as the least id. */
  function FacultyByLastName(m: map<nat, FacultyRow>, serial: nat, name: string): (found: Option<nat>)
    requires FacultyKeyed(m, serial)
    ensures found.Some? ==> found.value in m && m[found.value].lastName == name
    ensures found.None? <==> forall k :: k in m ==> m[k].lastName != name
    ensures UniqueFacultyNames(m) && found.Some? ==> forall k :: k in m && m[k].lastName == name ==> k == found.value
  {
    FirstKey(m, (r: FacultyRow) => r.lastName == name, 0, serial)
  }

  function StudentByLastName(m: map<nat, StudentRow>, serial: nat, name: string): (found: Option<nat>)
    requires StudentKeyed(m, serial)
    ensures found.Some? ==> found.value in m && m[found.value].lastName == name
    ensures found.None? <==> forall k :: k in m ==> m[k].lastName != name
    ensures UniqueStudentNames(m) && found.Some? ==> forall k :: k in m && m[k].lastName == name ==> k == found.value
  {
    FirstKey(m, (r: StudentRow) => r.lastName == name, 0, serial)
  }

  class Database {
    var faculty: map<nat, FacultyRow>
    var facultySerial: nat
    var students: map<nat, StudentRow>
    var studentSerial: nat
    var subjects: map<nat, SubjectRow>
    var subjectSerial: nat

    ghost predicate Valid()
      reads this
    {
      FacultyKeyed(faculty, facultySerial) && StudentKeyed(students, studentSerial)
      && SubjectKeyed(subjects, subjectSerial)
    }

    /** Empty tables; serial columns start at 1. */
    constructor ()
      ensures Valid()
      ensures faculty == map[] && students == map[] && subjects == map[]
      ensures facultySerial == 1 && studentSerial == 1 && subjectSerial == 1
    {
      faculty, students, subjects := map[], map[], map[];
      facultySerial, studentSerial, subjectSerial := 1, 1, 1;
    }

    /** `insert into faculty … returning`: the row gets the next serial id and both timestamps `now`. */
    method InsertFaculty(firstName: string, lastName: string, department: string, password: string,
                         birthday: int, now: int) returns (row: FacultyRow)
      requires Valid()
      modifies this`faculty, this`facultySerial
      ensures Valid()
      ensures row == FacultyRow(old(facultySerial), firstName, lastName, department, password, birthday, now, now)
      ensures row.id !in old(faculty)
      ensures faculty == old(faculty)[row.id := row] && facultySerial == old(facultySerial) + 1
    {
      row := FacultyRow(facultySerial, firstName, lastName, department, password, birthday, now, now);
      faculty := faculty[facultySerial := row];
      facultySerial := facultySerial + 1;
    }

    method InsertStudent(firstName: string, lastName: string, password: string, birthday: int, now: int)
      returns (row: StudentRow)
      requires Valid()
      modifies this`students, this`studentSerial
      ensures Valid()
      ensures row == StudentRow(old(studentSerial), firstName, lastName, password, birthday, now, now)
      ensures row.id !in old(students)
      ensures students == old(students)[row.id := row] && studentSerial == old(studentSerial) + 1
    {
      row := StudentRow(studentSerial, firstName, lastName, password, birthday, now, now);
      students := students[studentSerial := row];
      studentSerial := studentSerial + 1;
    }

    method InsertSubject(name: string, teacherId: Option<nat>, day: string, time: string, color: string, now: int)
      returns (row: SubjectRow)
      requires Valid()
      modifies this`subjects, this`subjectSerial
      ensures Valid()
      ensures row == SubjectRow(old(subjectSerial), name, teacherId, day, time, color, now, now)
      ensures row.id !in old(subjects)
      ensures subjects == old(subjects)[row.id := row] && subjectSerial == old(subjectSerial) + 1
    {
      row := SubjectRow(subjectSerial, name, teacherId, day, time, color, now, now);
      subjects := subjects[subjectSerial := row];
      subjectSerial := subjectSerial + 1;
    }
  }

  /** Adding a row whose last name is new keeps last names unique. */
  lemma InsertKeepsFacultyNamesUnique(m: map<nat, FacultyRow>, row: FacultyRow)
    requires UniqueFacultyNames(m)
    requires row.id !in m
    requires forall k :: k in m ==> m[k].lastName != row.lastName
    ensures UniqueFacultyNames(m[row.id := row])
  {
  }

  lemma InsertKeepsStudentNamesUnique(m: map<nat, StudentRow>, row: StudentRow)
    requires UniqueStudentNames(m)
    requires row.id !in m
    requires forall k :: k in m ==> m[k].lastName != row.lastName
    ensures UniqueStudentNames(m[row.id := row])
  {
  }
}
