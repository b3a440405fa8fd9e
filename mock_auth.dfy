/**
 * The mock authentication store used when the app runs without a backend: a fixed
 * list of users, a login that looks a user up by email and password and keeps it
 * without its password, a logout, and a profile update that merges fields.
 */
module MockAuth {
  import opened Common

  type Record = map<string, Json>

  const StudentPermissions: Record := map[
    "can_view_schedule" := JBool(true),
    "can_edit_schedule" := JBool(false),
    "can_view_profile" := JBool(true),
    "can_edit_profile" := JBool(true),
    "can_manage_users" := JBool(false),
    "can_manage_events" := JBool(false),
    "can_manage_system" := JBool(false)
  ]

  const AdminPermissions: Record := map[
    "can_view_schedule" := JBool(true),
    "can_edit_schedule" := JBool(true),
    "can_view_profile" := JBool(true),
    "can_edit_profile" := JBool(true),
    "can_manage_users" := JBool(true),
    "can_manage_events" := JBool(true),
    "can_manage_system" := JBool(true)
  ]

  const StudentSubjects: seq<Json> := [
    JStr("Physical Education and Health 4"),
    JStr("Computer/Web Programming 6"),
    JStr("Mobile App Programming 2"),
    JStr("Contemporary Arts from the regions"),
    JStr("Homeroom"),
    JStr("Work Immersion-Practicum Type"),
    JStr("Inquiries Investigation and Immersion"),
    JStr("Empowerment Technologies: ICT"),
    JStr("Entrepreneurship")
  ]

  const MockStudent: Record := map[
    "id" := JStr("mock_user_1"),
    "email" := JStr("testaccount123"),
    "password" := JStr("123123"),
    "firstName" := JStr("Test"),
    "lastName" := JStr("Account"),
    "role" := JStr("student"),
    "profileImage" := JNull,
    "permissions" := JObj(StudentPermissions),
    "subjects" := JArr(StudentSubjects)
  ]

  const MockAdmin: Record := map[
    "id" := JStr("mock_admin_1"),
    "email" := JStr("admin"),
    "password" := JStr("admin123"),
    "firstName" := JStr("Admin"),
    "lastName" := JStr("User"),
    "role" := JStr("faculty"),
    "profileImage" := JNull,
    "permissions" := JObj(AdminPermissions),
    "department" := JStr("Computer Science"),
    "subjects" := JArr([])
  ]

  const MockUsers: seq<Record> := [MockStudent, MockAdmin]

  /** `u.email === email && u.password === password`. */
  predicate Matches(u: Record, email: string, password: string) {
    "email" in u && u["email"] == JStr(email) && "password" in u && u["password"] == JStr(password)
  }

  /** `users.find(...)` from index `from` on: the first matching index, if any. */
  function FindUser(users: seq<Record>, email: string, password: string, from: nat): (found: Option<nat>)
    requires from <= |users|
    ensures found.Some? ==>
      from <= found.value < |users| && Matches(users[found.value], email, password)
      && forall j :: from <= j < found.value ==> !Matches(users[j], email, password)
    ensures found.None? <==> forall j :: from <= j < |users| ==> !Matches(users[j], email, password)
    decreases |users| - from
  {
    if from == |users| then None
    else if Matches(users[from], email, password) then Some(from)
    else FindUser(users, email, password, from + 1)
  }

  /** `const { password, ...rest } = user`: every field but the password. */
  function StripPassword(u: Record): (rest: Record)
    ensures "password" !in rest
    ensures rest.Keys == u.Keys - {"password"}
    ensures forall k :: k in rest ==> rest[k] == u[k]
  {
    u - {"password"}
  }

  /** `{ ...prev, ...data }`: spreading `null` adds nothing, and later fields win. */
  function Merge(prev: Option<Record>, data: Record): (merged: Record)
    ensures merged.Keys == data.Keys + (if prev.Some? then prev.value.Keys else {})
    ensures forall k :: k in data ==> merged[k] == data[k]
    ensures prev.Some? ==> forall k :: k in prev.value && k !in data ==> merged[k] == prev.value[k]
  {
    (if prev.Some? then prev.value else map[]) + data
  }

  /** What a mock call resolves to; `user` is set only by a successful login. */
  datatype MockReply = MockReply(success: bool, user: Option<Record>, message: string)

  /** The test student cannot edit schedules; the admin holds all seven permissions. */
  lemma MockPermissions()
    ensures MockUsers[0]["permissions"] == JObj(StudentPermissions)
    ensures StudentPermissions["can_edit_schedule"] == JBool(false)
    ensures MockUsers[1]["permissions"] == JObj(AdminPermissions)
    ensures |AdminPermissions.Keys| == 7
    ensures forall p :: p in AdminPermissions ==> AdminPermissions[p] == JBool(true)
    ensures AdminPermissions.Keys == StudentPermissions.Keys
  {
    assert AdminPermissions.Keys == {"can_view_schedule", "can_edit_schedule", "can_view_profile",
      "can_edit_profile", "can_manage_users", "can_manage_events", "can_manage_system"};
  }

  /** Each mock account logs in with its own password only. */
  lemma MockCredentials()
    ensures FindUser(MockUsers, "testaccount123", "123123", 0) == Some(0)
    ensures FindUser(MockUsers, "admin", "admin123", 0) == Some(1)
    ensures FindUser(MockUsers, "admin", "123123", 0).None?
    ensures FindUser(MockUsers, "Admin", "admin123", 0).None?
  {
    assert Matches(MockUsers[0], "testaccount123", "123123");
    assert !Matches(MockUsers[0], "admin", "admin123");
    assert Matches(MockUsers[1], "admin", "admin123");
    assert MockUsers[1]["email"] == JStr("admin");
    assert MockUsers[0]["email"] == JStr("testaccount123");
    assert JStr("Admin") != JStr("admin") by { assert "Admin"[0] != "admin"[0]; }
  }

  class MockAuthProvider {
    var mockUser: Option<Record>
    var isMockAuthenticated: bool
    var useMockAuth: bool

    constructor ()
      ensures mockUser.None? && !isMockAuthenticated && !useMockAuth
    {
      mockUser := None;
      isMockAuthenticated := false;
      useMockAuth := false;
    }

    method MockLogin(email: string, password: string) returns (r: MockReply)
      modifies this
      ensures FindUser(MockUsers, email, password, 0).None? ==>
        r == MockReply(false, None, "Invalid mock credentials") && unchanged(this)
      ensures FindUser(MockUsers, email, password, 0).Some? ==>
        var u := StripPassword(MockUsers[FindUser(MockUsers, email, password, 0).value]);
        && r == MockReply(true, Some(u), "Mock login successful")
        && mockUser == Some(u) && isMockAuthenticated && useMockAuth
    {
      var found := FindUser(MockUsers, email, password, 0);
      if found.Some? {
        var u := StripPassword(MockUsers[found.value]);
        mockUser := Some(u);
        isMockAuthenticated := true;
        useMockAuth := true;
        r := MockReply(true, Some(u), "Mock login successful");
      } else {
        r := MockReply(false, None, "Invalid mock credentials");
      }
    }

    method MockLogout() returns (r: MockReply)
      modifies this
      ensures r == MockReply(true, None, "Mock logout successful")
      ensures mockUser.None? && !isMockAuthenticated && !useMockAuth
    {
      mockUser := None;
      isMockAuthenticated := false;
      useMockAuth := false;
      r := MockReply(true, None, "Mock logout successful");
    }

    /** Merges `profileData` into the stored user (creating one when there is none); the flags stay. */
    method MockUpdateProfile(profileData: Record) returns (r: MockReply)
      modifies this`mockUser
      ensures r == MockReply(true, None, "Mock profile updated")
      ensures mockUser == Some(Merge(old(mockUser), profileData))
    {
      mockUser := Some(Merge(mockUser, profileData));
      r := MockReply(true, None, "Mock profile updated");
    }

    method SetUseMockAuth(value: bool)
      modifies this`useMockAuth
      ensures useMockAuth == value
    {
      useMockAuth := value;
    }
  }
}
