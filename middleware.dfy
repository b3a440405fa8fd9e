/**
 * Request authentication for the backend: reading the bearer token from the
 * `Authorization` header, verifying it, and resolving its user id to a faculty or
 * student row, which the handlers then see as the request's user.
 *
 * JWT signing and verification are parameters: `sign` maps a payload to a token and
 * `verify` maps a token to its claims, or to `None` when verification throws.
 */
module Middleware {
  import opened Common
  import opened Tables

  /** Tokens expire 24 hours after they are issued. */
  const TokenLifetime: nat := 24 * 60 * 60

  datatype Claims = Claims(userId: int, role: string)

  /** What `generateToken` signs: the claims and the lifetime in seconds. */
  datatype TokenPayload = TokenPayload(claims: Claims, expiresIn: nat)

  function GenerateToken(userId: nat, role: string): (payload: TokenPayload)
    ensures payload.claims == Claims(userId, role)
    ensures payload.expiresIn == 86400
  {
    TokenPayload(Claims(userId, role), TokenLifetime)
  }

  /** The request's user: a faculty or a student row with the role its table gives it. */
  datatype RequestUser = FacultyUser(faculty: FacultyRow) | StudentUser(student: StudentRow)
  {
    function Role(): string {
      if FacultyUser? then "faculty" else "student"
    }

    function Id(): nat {
      if FacultyUser? then faculty.id else student.id
    }

    function Password(): string {
      if FacultyUser? then faculty.password else student.password
    }
  }

  /** The middleware either passes the request on (`next()`) or answers it. */
  datatype Gate = Next(user: RequestUser) | Deny(status: nat, message: string)

  /** `header && header.split(' ')[1]`: the second space-separated word, when there is a non-empty one. */
  function BearerToken(header: Option<string>): (token: Option<string>)
    ensures token.Some? ==> token.value != "" && ' ' !in token.value
    ensures token.Some? <==> header.Some? && |Split(header.value, ' ')| >= 2 && Split(header.value, ' ')[1] != ""
    ensures token.Some? ==> token.value == Split(header.value, ' ')[1]
  {
    if header.None? || header.value == "" then None
    else
      var words := Split(header.value, ' ');
      if |words| >= 2 && words[1] != "" then Some(words[1]) else None
  }

  /**
   * The word after the first space is the token, whatever the first word is and
   * whatever follows after another space.
   */
  lemma BearerTokenRoundTrip(scheme: string, token: string, rest: string)
    requires ' ' !in scheme && ' ' !in token && token != ""
    requires rest == "" || rest[0] == ' '
    ensures BearerToken(Some(scheme + " " + token + rest)) == Some(token)
  {
    assert scheme + " " + token + rest == scheme + [' '] + (token + rest);
    SplitAtFirst(scheme, ' ', token + rest);
    if rest == "" {
      assert token + rest == token;
      SplitWithoutSeparator(token, ' ');
    } else {
      assert token + rest == token + [' '] + rest[1..];
      SplitAtFirst(token, ' ', rest[1..]);
    }
  }

  /** A header without a space carries no token. */
  lemma NoSpaceNoToken(header: string)
    requires ' ' !in header
    ensures BearerToken(Some(header)).None?
  {
    SplitWithoutSeparator(header, ' ');
  }

  /**
   * `authenticateToken` as written: the faculty table is searched for the token's
   * user id first and the student table second; the `role` claim is not read.
   */
  function AuthenticateTokenAsWritten(header: Option<string>, verify: string -> Option<Claims>,
                                      faculty: map<nat, FacultyRow>, students: map<nat, StudentRow>): (gate: Gate)
    ensures BearerToken(header).None? ==> gate == Deny(401, "Access token required")
    ensures BearerToken(header).Some? && verify(BearerToken(header).value).None? ==> gate == Deny(403, "Invalid token")
    ensures gate.Next? ==>
      BearerToken(header).Some? && verify(BearerToken(header).value).Some?
      && var id := verify(BearerToken(header).value).value.userId;
      && (gate.user.FacultyUser? <==> id >= 0 && id in faculty)
      && (gate.user.FacultyUser? ==> gate.user.faculty == faculty[id])
      && (gate.user.StudentUser? ==> id >= 0 && id in students && gate.user.student == students[id])
    ensures gate.Deny? && BearerToken(header).Some? && verify(BearerToken(header).value).Some? ==>
      var id := verify(BearerToken(header).value).value.userId;
      gate == Deny(401, "Invalid token - user not found") && !(id >= 0 && (id in faculty || id in students))
  {
    match BearerToken(header)
    case None => Deny(401, "Access token required")
    case Some(token) =>
      match verify(token)
      case None => Deny(403, "Invalid token")
      case Some(claims) =>
        if claims.userId >= 0 && claims.userId in faculty then Next(FacultyUser(faculty[claims.userId]))
        else if claims.userId >= 0 && claims.userId in students then Next(StudentUser(students[claims.userId]))
        else Deny(401, "Invalid token - user not found")
  }

  /**
   * A student's token whose id is also a faculty id authenticates the student as
   * that faculty member (ids are per-table serials, so both tables have an id 1).
   */
  lemma StudentTokenResolvesToFaculty(f: FacultyRow, s: StudentRow, token: string)
    requires f.id == 1 && s.id == 1 && ' ' !in token && token != ""
    ensures var verify := (t: string) => if t == token then Some(Claims(1, "student")) else None;
      AuthenticateTokenAsWritten(Some("Bearer " + token), verify, map[1 := f], map[1 := s]) == Next(FacultyUser(f))
  {
    BearerTokenRoundTrip("Bearer", token, "");
    assert "Bearer " + token == "Bearer" + " " + token + "";
  }

  /** Each row sits under its own id, as in a valid database. */
  predicate RowsUnderOwnIds(faculty: map<nat, FacultyRow>, students: map<nat, StudentRow>) {
    (forall k :: k in faculty ==> faculty[k].id == k) && (forall k :: k in students ==> students[k].id == k)
  }

  /** The table a role claim names, searched for the claimed id. */
  function Resolve(claims: Claims, faculty: map<nat, FacultyRow>, students: map<nat, StudentRow>): (user: Option<RequestUser>)
    ensures user.Some? ==> user.value.Role() == claims.role
    ensures user.Some? && RowsUnderOwnIds(faculty, students) ==> user.value.Id() as int == claims.userId
    ensures user.Some? <==> (claims.userId >= 0 &&
      ((claims.role == "faculty" && claims.userId in faculty) || (claims.role == "student" && claims.userId in students)))
    ensures user.Some? && claims.role == "faculty" ==> user.value == FacultyUser(faculty[claims.userId])
    ensures user.Some? && claims.role == "student" ==> user.value == StudentUser(students[claims.userId])
  {
    if claims.userId < 0 then None
    else if claims.role == "faculty" && claims.userId in faculty then Some(FacultyUser(faculty[claims.userId]))
    else if claims.role == "student" && claims.userId in students then Some(StudentUser(students[claims.userId]))
    else None
  }

  /**
   * `authenticateToken` with the lookup the token's role claim names: the same
   * 401 and 403 answers, and the user it passes on has the claimed role and id.
   */
  function AuthenticateToken(header: Option<string>, verify: string -> Option<Claims>,
                             faculty: map<nat, FacultyRow>, students: map<nat, StudentRow>): (gate: Gate)
    ensures BearerToken(header).None? ==> gate == Deny(401, "Access token required")
    ensures BearerToken(header).Some? && verify(BearerToken(header).value).None? ==> gate == Deny(403, "Invalid token")
    ensures gate.Next? ==>
      BearerToken(header).Some? && verify(BearerToken(header).value).Some?
      && Resolve(verify(BearerToken(header).value).value, faculty, students) == Some(gate.user)
      && gate.user.Role() == verify(BearerToken(header).value).value.role
    ensures gate.Deny? && BearerToken(header).Some? && verify(BearerToken(header).value).Some? ==>
      gate == Deny(401, "Invalid token - user not found")
  {
    match BearerToken(header)
    case None => Deny(401, "Access token required")
    case Some(token) =>
      match verify(token)
      case None => Deny(403, "Invalid token")
      case Some(claims) =>
        match Resolve(claims, faculty, students)
        case Some(user) => Next(user)
        case None => Deny(401, "Invalid token - user not found")
  }

  /** Where the claimed role names the table the id is found in first, the two lookups agree. */
  lemma AgreesWithoutCollision(header: Option<string>, verify: string -> Option<Claims>,
                               faculty: map<nat, FacultyRow>, students: map<nat, StudentRow>)
    requires BearerToken(header).Some? && verify(BearerToken(header).value).Some?
    requires var c := verify(BearerToken(header).value).value;
      c.userId >= 0 &&
      ((c.role == "faculty" && c.userId in faculty) || (c.role == "student" && c.userId !in faculty && c.userId in students))
    ensures AuthenticateTokenAsWritten(header, verify, faculty, students) == AuthenticateToken(header, verify, faculty, students)
  {
  }

  /** With the role-directed lookup, the student of the colliding ids is authenticated as the student. */
  lemma StudentTokenResolvesToStudent(f: FacultyRow, s: StudentRow, token: string)
    requires f.id == 1 && s.id == 1 && ' ' !in token && token != ""
    ensures var verify := (t: string) => if t == token then Some(Claims(1, "student")) else None;
      AuthenticateToken(Some("Bearer " + token), verify, map[1 := f], map[1 := s]) == Next(StudentUser(s))
  {
    BearerTokenRoundTrip("Bearer", token, "");
    assert "Bearer " + token == "Bearer" + " " + token + "";
  }

  /**
   * A token issued for a user, sent back as `Bearer <token>`, authenticates that
   * user, provided verification inverts signing and the user's row still exists.
   */
  lemma IssuedTokenAuthenticates(user: RequestUser, sign: TokenPayload -> string, verify: string -> Option<Claims>,
                                 faculty: map<nat, FacultyRow>, students: map<nat, StudentRow>)
    requires var t := sign(GenerateToken(user.Id(), user.Role()));
      ' ' !in t && t != "" && verify(t) == Some(Claims(user.Id(), user.Role()))
    requires user.FacultyUser? ==> user.Id() in faculty && faculty[user.Id()] == user.faculty
    requires user.StudentUser? ==> user.Id() in students && students[user.Id()] == user.student
    ensures AuthenticateToken(Some("Bearer " + sign(GenerateToken(user.Id(), user.Role()))), verify, faculty, students)
      == Next(user)
  {
    var t := sign(GenerateToken(user.Id(), user.Role()));
    BearerTokenRoundTrip("Bearer", t, "");
    assert "Bearer " + t == "Bearer" + " " + t + "";
  }
}
