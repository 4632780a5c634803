/** Staff accounts: registration, login, profile update (with its
    dynamically built `SET` clause) and password change. Password hashing
    (bcrypt) is outside the model: `hash` stands for `bcrypt.hash` and
    `matches(password, storedHash)` for `bcrypt.compare`. */
module Auth {
  import opened Common
  import opened Seqs
  import opened Store

  const ValidRoles: seq<string> := ["manager", "security", "admin"]

  const InvalidRole := Failure(400, "Invalid role specified.")
  const EmailTaken := Failure(400, "Email already registered.")
  const InvalidDepartment := Failure(400, "Invalid department ID.")
  const InvalidCredentials := Failure(401, "Invalid email or password")
  const UserNotFound := Failure(404, "User not found.")
  const NoFieldsGiven := Failure(400, "No fields provided for update.")
  const WrongOldPassword := Failure(401, "Old password is incorrect.")

  const UserUpdated := "User updated successfully."
  const PasswordChanged := "Password changed successfully."

  predicate IsValidRole(role: string) {
    role in ValidRoles
  }

  /** `SELECT 1 FROM vms_departments WHERE department_id = $1` finds a row. */
  predicate DepartmentExists(departments: seq<Department>, departmentId: string) {
    exists i :: 0 <= i < |departments| && departments[i].departmentId == departmentId
  }

  /** `SELECT ... FROM vms_users WHERE user_id = $1`, first row. */
  function FindUserById(users: seq<User>, userId: string): (r: Option<nat>)
    ensures r.Some? ==> r.value < |users| && users[r.value].userId == userId
    ensures r.None? <==> forall i :: 0 <= i < |users| ==> users[i].userId != userId
  {
    FindFirst(users, (u: User) => u.userId == userId)
  }

  /** `SELECT ... FROM vms_users WHERE email = $1`, first row. */
  function FindUserByEmail(users: seq<User>, email: string): (r: Option<nat>)
    ensures r.Some? ==> r.value < |users| && users[r.value].email == email
    ensures r.Some? ==> forall j :: 0 <= j < r.value ==> users[j].email != email
    ensures r.None? <==> forall i :: 0 <= i < |users| ==> users[i].email != email
  {
    FindFirst(users, (u: User) => u.email == email)
  }

  // ---------------------------------------------------------------------
  // register

  /** The body of `register` (`POST /ceat/auth/register`). */
  datatype Registration = Registration(
    firstName: string, lastName: string, email: string, role: string, phone: string,
    departmentId: string, password: string, designation: string, status: string)

  /** The row `register` inserts, with the hash of the password. */
  function NewUser(userId: string, reg: Registration, passwordHash: string): User {
    User(userId, reg.firstName, reg.lastName, reg.email, reg.role, reg.phone, reg.departmentId,
         passwordHash, reg.designation, reg.status)
  }

  /** `register`: the role, then the email, then the department
      are checked, in that order; on success one user is added under a
      fresh id, storing `hash(password)` and never the password. */
  method Register(db: Db, reg: Registration, hash: string -> string) returns (reply: Result<string>)
    requires db.Valid()
    modifies db`users
    ensures db.Valid()
    ensures !IsValidRole(reg.role) ==> reply == Err(InvalidRole)
    ensures IsValidRole(reg.role) && FindUserByEmail(old(db.users), reg.email).Some? ==> reply == Err(EmailTaken)
    ensures (IsValidRole(reg.role) && FindUserByEmail(old(db.users), reg.email).None?
             && !DepartmentExists(db.departments, reg.departmentId)) ==> reply == Err(InvalidDepartment)
    ensures reply.Err? ==> db.users == old(db.users)
    ensures reply.Ok? ==>
              && IsValidRole(reg.role)
              && FindUserByEmail(old(db.users), reg.email).None?
              && DepartmentExists(db.departments, reg.departmentId)
              && reply.value !in UserIds(old(db.users))
              && db.users == old(db.users) + [NewUser(reply.value, reg, hash(reg.password))]
    ensures (IsValidRole(reg.role) && FindUserByEmail(old(db.users), reg.email).None?
             && DepartmentExists(db.departments, reg.departmentId)) ==> reply.Ok?
  {
    if !IsValidRole(reg.role) {
      return Err(InvalidRole);
    }
    if FindUserByEmail(db.users, reg.email).Some? {
      return Err(EmailTaken);
    }
    if !DepartmentExists(db.departments, reg.departmentId) {
      return Err(InvalidDepartment);
    }
    var userId := FreshId(UserIds(db.users));
    var row := NewUser(userId, reg, hash(reg.password));
    assert UserIds(db.users + [row]) == UserIds(db.users) + [userId];
    db.users := db.users + [row];
    reply := Ok(userId);
  }

  // ---------------------------------------------------------------------
  // login

  /** The claims signed into the login token. */
  datatype TokenPayload = TokenPayload(userId: string, email: string, role: string, designation: string,
                                       departmentId: string)

  /** `login` (`POST /ceat/auth/login`); the token's signing is outside the model, so a
      success carries the payload that would be signed. An unknown email
      and a wrong password give the very same reply. */
  function Login(users: seq<User>, email: string, password: string, matches: (string, string) -> bool)
    : (r: Result<TokenPayload>)
    ensures r.Err? ==> r.failure == InvalidCredentials
    ensures r.Ok? <==> FindUserByEmail(users, email).Some?
                       && matches(password, users[FindUserByEmail(users, email).value].passwordHash)
    ensures r.Ok? ==>
              var u := users[FindUserByEmail(users, email).value];
              r.value == TokenPayload(u.userId, u.email, u.role, u.designation, u.departmentId)
  {
    match FindUserByEmail(users, email)
    case None => Err(InvalidCredentials)
    case Some(i) =>
      var u := users[i];
      if !matches(password, u.passwordHash) then Err(InvalidCredentials)
      else Ok(TokenPayload(u.userId, u.email, u.role, u.designation, u.departmentId))
  }

  /** A user just registered can log in with the password given at
      registration, provided bcrypt accepts a password against its own
      hash; the token then carries the registered identity. */
  lemma {:induction false} RegisterThenLogin(users: seq<User>, userId: string, reg: Registration,
                                             hash: string -> string, matches: (string, string) -> bool)
    requires FindUserByEmail(users, reg.email).None?
    requires matches(reg.password, hash(reg.password))
    ensures Login(users + [NewUser(userId, reg, hash(reg.password))], reg.email, reg.password, matches)
            == Ok(TokenPayload(userId, reg.email, reg.role, reg.designation, reg.departmentId))
  {
    var row := NewUser(userId, reg, hash(reg.password));
    FindFirstAppend(users, row, (u: User) => u.email == reg.email);
    assert FindUserByEmail(users + [row], reg.email) == Some(|users|);
  }

  // ---------------------------------------------------------------------
  // updateUser

  /** The body of `updateUser`; `None` or "" is a field not given. */
  datatype UserUpdate = UserUpdate(
    firstName: Option<string>, lastName: Option<string>, role: Option<string>, phone: Option<string>,
    departmentId: Option<string>, password: Option<string>, designation: Option<string>,
    email: Option<string>, status: Option<string>)

  /** The columns `updateUser` may set. */
  datatype Column = FirstName | LastName | Role | Phone | DepartmentId | Designation | Status | Email
                  | PasswordHash

  /** One column in the order the handler tests them: whether its field was
      given (truthy) and the value it would store. */
  datatype Candidate = Candidate(column: Column, given: bool, value: string)

  /** `column = $placeholder` in the `SET` clause. */
  datatype Assignment = Assignment(column: Column, placeholder: nat)

  /** The nine tests of `updateUser`, in its fixed order; the password is
      stored as its hash. */
  function Candidates(upd: UserUpdate, hash: string -> string): seq<Candidate> {
    [ Candidate(FirstName, Truthy(upd.firstName), upd.firstName.GetOr("")),
      Candidate(LastName, Truthy(upd.lastName), upd.lastName.GetOr("")),
      Candidate(Role, Truthy(upd.role), upd.role.GetOr("")),
      Candidate(Phone, Truthy(upd.phone), upd.phone.GetOr("")),
      Candidate(DepartmentId, Truthy(upd.departmentId), upd.departmentId.GetOr("")),
      Candidate(Designation, Truthy(upd.designation), upd.designation.GetOr("")),
      Candidate(Status, Truthy(upd.status), upd.status.GetOr("")),
      Candidate(Email, Truthy(upd.email), upd.email.GetOr("")),
      Candidate(PasswordHash, Truthy(upd.password), hash(upd.password.GetOr(""))) ]
  }

  /** The candidates whose field was given, in order. */
  function Given(cs: seq<Candidate>): (r: seq<Candidate>)
    ensures |r| <= |cs|
    ensures forall i :: 0 <= i < |r| ==> r[i].given
    ensures r == [] <==> forall i :: 0 <= i < |cs| ==> !cs[i].given
  {
    if cs == [] then []
    else (if cs[0].given then [cs[0]] else []) + Given(cs[1..])
  }

  /** No given candidate is dropped and none is added: each given candidate
      occurs as often as in `cs`, every other not at all. */
  lemma {:induction false} GivenMultiset(cs: seq<Candidate>)
    ensures forall c :: multiset(Given(cs))[c] == if c.given then multiset(cs)[c] else 0
  {
    if cs != [] {
      GivenMultiset(cs[1..]);
      assert cs == [cs[0]] + cs[1..];
    }
  }

  /** Appending a candidate appends it to the given ones exactly when it is
      given; with `Given([]) == []` this fixes the order: the given
      candidates appear in the order of `cs`. */
  lemma {:induction false} GivenAppend(cs: seq<Candidate>, c: Candidate)
    ensures Given(cs + [c]) == Given(cs) + (if c.given then [c] else [])
  {
    if cs != [] {
      assert (cs + [c])[1..] == cs[1..] + [c];
      GivenAppend(cs[1..], c);
    }
  }

  /** The `SET` clause and its parameter list as built: the k-th given field
      (from 0) is `column = $(base + k + 1)` and its value is that parameter. */
  predicate Binds(fields: seq<Assignment>, values: seq<string>, given: seq<Candidate>, base: nat) {
    && |fields| == |given|
    && base + |fields| <= |values|
    && forall k :: 0 <= k < |fields| ==>
         fields[k] == Assignment(given[k].column, base + k + 1) && values[base + k] == given[k].value
  }

  /** Builds `fields` and `values` with the running placeholder counter
      `idx`: each given field pushes `column = $idx` and its value, and
      `idx` then names the next free placeholder (the one `WHERE` uses). */
  method BuildSetClause(cs: seq<Candidate>) returns (fields: seq<Assignment>, values: seq<string>, idx: nat)
    ensures Binds(fields, values, Given(cs), 0) && |values| == |fields|
    ensures idx == |fields| + 1
    ensures fields == [] <==> forall i :: 0 <= i < |cs| ==> !cs[i].given
  {
    fields, values, idx := [], [], 1;
    for i := 0 to |cs|
      invariant idx == |fields| + 1 && |values| == |fields|
      invariant Binds(fields, values, Given(cs[..i]), 0)
    {
      assert cs[..i + 1] == cs[..i] + [cs[i]];
      GivenAppend(cs[..i], cs[i]);
      if cs[i].given {
        fields := fields + [Assignment(cs[i].column, idx)];
        values := values + [cs[i].value];
        idx := idx + 1;
      }
    }
    assert cs[..|cs|] == cs;
  }

  function SetColumn(u: User, column: Column, value: string): User {
    match column
    case FirstName => u.(firstName := value)
    case LastName => u.(lastName := value)
    case Role => u.(role := value)
    case Phone => u.(phone := value)
    case DepartmentId => u.(departmentId := value)
    case Designation => u.(designation := value)
    case Status => u.(status := value)
    case Email => u.(email := value)
    case PasswordHash => u.(passwordHash := value)
  }

  /** What the database does with `SET c1 = $p1, c2 = $p2, ...` given the
      parameter list: each column receives the parameter its placeholder
      names. */
  function ApplySetClause(u: User, fields: seq<Assignment>, values: seq<string>): User
    decreases |fields|
  {
    if fields == [] then u
    else
      var p := fields[0].placeholder;
      var u' := if 1 <= p <= |values| then SetColumn(u, fields[0].column, values[p - 1]) else u;
      ApplySetClause(u', fields[1..], values)
  }

  /** One candidate applied: its column takes the candidate's value when
      given and keeps its own otherwise. */
  function Step(u: User, c: Candidate): User {
    var given := c.given;
    match c.column
    case FirstName => u.(firstName := if given then c.value else u.firstName)
    case LastName => u.(lastName := if given then c.value else u.lastName)
    case Role => u.(role := if given then c.value else u.role)
    case Phone => u.(phone := if given then c.value else u.phone)
    case DepartmentId => u.(departmentId := if given then c.value else u.departmentId)
    case Designation => u.(designation := if given then c.value else u.designation)
    case Status => u.(status := if given then c.value else u.status)
    case Email => u.(email := if given then c.value else u.email)
    case PasswordHash => u.(passwordHash := if given then c.value else u.passwordHash)
  }

  lemma StepIsSetColumn(u: User, c: Candidate)
    ensures c.given ==> Step(u, c) == SetColumn(u, c.column, c.value)
    ensures !c.given ==> Step(u, c) == u
  {
  }

  /** Applies the given candidates' values in order. */
  function ApplyGiven(u: User, cs: seq<Candidate>): User
    decreases |cs|
  {
    if cs == [] then u else ApplyGiven(Step(u, cs[0]), cs[1..])
  }

  /** The reference meaning of an update: every given field replaces its
      column (the password by its hash), every other column is kept. */
  function UpdatedUser(u: User, upd: UserUpdate, hash: string -> string): User {
    u.(firstName := if Truthy(upd.firstName) then upd.firstName.value else u.firstName,
       lastName := if Truthy(upd.lastName) then upd.lastName.value else u.lastName,
       role := if Truthy(upd.role) then upd.role.value else u.role,
       phone := if Truthy(upd.phone) then upd.phone.value else u.phone,
       departmentId := if Truthy(upd.departmentId) then upd.departmentId.value else u.departmentId,
       designation := if Truthy(upd.designation) then upd.designation.value else u.designation,
       status := if Truthy(upd.status) then upd.status.value else u.status,
       email := if Truthy(upd.email) then upd.email.value else u.email,
       passwordHash := if Truthy(upd.password) then hash(upd.password.value) else u.passwordHash)
  }

  /** A built `SET` clause, run with its parameter list, stores exactly the
      given values: the placeholders line up with the parameters. */
  lemma {:induction false} SetClauseStoresGiven(u: User, fields: seq<Assignment>, values: seq<string>,
                                                cs: seq<Candidate>, base: nat)
    requires Binds(fields, values, Given(cs), base)
    ensures ApplySetClause(u, fields, values) == ApplyGiven(u, cs)
    decreases |cs|
  {
    if cs != [] {
      StepIsSetColumn(u, cs[0]);
      assert ApplyGiven(u, cs) == ApplyGiven(Step(u, cs[0]), cs[1..]);
      if cs[0].given {
        var g := Given(cs[1..]);
        assert Given(cs) == [cs[0]] + g;
        assert fields[0] == Assignment(cs[0].column, base + 1) && values[base] == cs[0].value;
        assert ApplySetClause(u, fields, values)
               == ApplySetClause(SetColumn(u, cs[0].column, cs[0].value), fields[1..], values);
        forall k | 0 <= k < |fields[1..]|
          ensures fields[1..][k] == Assignment(g[k].column, base + 1 + k + 1)
          ensures values[base + 1 + k] == g[k].value
        {
          assert fields[1..][k] == fields[k + 1] && Given(cs)[k + 1] == g[k];
        }
        SetClauseStoresGiven(SetColumn(u, cs[0].column, cs[0].value), fields[1..], values, cs[1..], base + 1);
      } else {
        assert Given(cs) == Given(cs[1..]);
        SetClauseStoresGiven(u, fields, values, cs[1..], base);
      }
    }
  }

  /** Applying the nine candidates of an update in order is the reference
      update. */
  lemma {:induction false} CandidatesMeanUpdate(u: User, upd: UserUpdate, hash: string -> string)
    ensures ApplyGiven(u, Candidates(upd, hash)) == UpdatedUser(u, upd, hash)
  {
    var c0 := Candidate(FirstName, Truthy(upd.firstName), upd.firstName.GetOr(""));
    var c1 := Candidate(LastName, Truthy(upd.lastName), upd.lastName.GetOr(""));
    var c2 := Candidate(Role, Truthy(upd.role), upd.role.GetOr(""));
    var c3 := Candidate(Phone, Truthy(upd.phone), upd.phone.GetOr(""));
    var c4 := Candidate(DepartmentId, Truthy(upd.departmentId), upd.departmentId.GetOr(""));
    var c5 := Candidate(Designation, Truthy(upd.designation), upd.designation.GetOr(""));
    var c6 := Candidate(Status, Truthy(upd.status), upd.status.GetOr(""));
    var c7 := Candidate(Email, Truthy(upd.email), upd.email.GetOr(""));
    var c8 := Candidate(PasswordHash, Truthy(upd.password), hash(upd.password.GetOr("")));
    var t8 := [c8];
    var t7 := [c7] + t8;
    var t6 := [c6] + t7;
    var t5 := [c5] + t6;
    var t4 := [c4] + t5;
    var t3 := [c3] + t4;
    var t2 := [c2] + t3;
    var t1 := [c1] + t2;
    var t0 := [c0] + t1;
    assert Candidates(upd, hash) == t0;
    var u1 := Step(u, c0);
    var u2 := Step(u1, c1);
    var u3 := Step(u2, c2);
    var u4 := Step(u3, c3);
    var u5 := Step(u4, c4);
    var u6 := Step(u5, c5);
    var u7 := Step(u6, c6);
    var u8 := Step(u7, c7);
    var u9 := Step(u8, c8);
    ApplyGivenCons(u8, c8, []);
    assert t8 == [c8] + [];
    ApplyGivenCons(u7, c7, t8);
    ApplyGivenCons(u6, c6, t7);
    ApplyGivenCons(u5, c5, t6);
    ApplyGivenCons(u4, c4, t5);
    ApplyGivenCons(u3, c3, t4);
    ApplyGivenCons(u2, c2, t3);
    ApplyGivenCons(u1, c1, t2);
    ApplyGivenCons(u, c0, t1);
    assert ApplyGiven(u, t0) == u9;
    StepsMeanUpdate(u, upd, hash);
  }

  lemma ApplyGivenCons(u: User, c: Candidate, rest: seq<Candidate>)
    ensures ApplyGiven(u, [c] + rest) == ApplyGiven(Step(u, c), rest)
  {
    assert ([c] + rest)[1..] == rest;
  }

  /** The nine steps, one column each, make the reference update. */
  lemma StepsMeanUpdate(u: User, upd: UserUpdate, hash: string -> string)
    ensures
      var u1 := Step(u, Candidate(FirstName, Truthy(upd.firstName), upd.firstName.GetOr("")));
      var u2 := Step(u1, Candidate(LastName, Truthy(upd.lastName), upd.lastName.GetOr("")));
      var u3 := Step(u2, Candidate(Role, Truthy(upd.role), upd.role.GetOr("")));
      var u4 := Step(u3, Candidate(Phone, Truthy(upd.phone), upd.phone.GetOr("")));
      var u5 := Step(u4, Candidate(DepartmentId, Truthy(upd.departmentId), upd.departmentId.GetOr("")));
      var u6 := Step(u5, Candidate(Designation, Truthy(upd.designation), upd.designation.GetOr("")));
      var u7 := Step(u6, Candidate(Status, Truthy(upd.status), upd.status.GetOr("")));
      var u8 := Step(u7, Candidate(Email, Truthy(upd.email), upd.email.GetOr("")));
      Step(u8, Candidate(PasswordHash, Truthy(upd.password), hash(upd.password.GetOr("")))) == UpdatedUser(u, upd, hash)
  {
  }

  /** `UPDATE vms_users SET <clause> WHERE user_id = $where` run with the
      parameter list `params`. */
  function ExecuteUpdate(users: seq<User>, fields: seq<Assignment>, params: seq<string>, where: nat)
    : (r: seq<User>)
    requires 1 <= where <= |params|
    ensures |r| == |users|
  {
    seq(|users|, i requires 0 <= i < |users| =>
      if users[i].userId == params[where - 1] then ApplySetClause(users[i], fields, params) else users[i])
  }

  /** The users table after a successful update of user `id`: that user's
      row becomes the reference update, every other row is kept. */
  function UpdateRows(users: seq<User>, id: string, upd: UserUpdate, hash: string -> string): (r: seq<User>)
    ensures |r| == |users| && UserIds(r) == UserIds(users)
  {
    seq(|users|, i requires 0 <= i < |users| =>
      if users[i].userId == id then UpdatedUser(users[i], upd, hash) else users[i])
  }

  /** The statement `updateUser` sends, with the id as the last parameter
      and `WHERE user_id = $(n+1)`, performs the reference update. */
  lemma UpdateStatementMeansUpdate(users: seq<User>, id: string, upd: UserUpdate, hash: string -> string,
                                   fields: seq<Assignment>, values: seq<string>)
    requires Binds(fields, values, Given(Candidates(upd, hash)), 0) && |values| == |fields|
    ensures ExecuteUpdate(users, fields, values + [id], |fields| + 1) == UpdateRows(users, id, upd, hash)
  {
    var params := values + [id];
    var cs := Candidates(upd, hash);
    assert params[|fields|] == id;
    assert Binds(fields, params, Given(cs), 0);
    var updated := ExecuteUpdate(users, fields, params, |fields| + 1);
    forall i | 0 <= i < |users| && users[i].userId == id
      ensures updated[i] == UpdatedUser(users[i], upd, hash)
    {
      SetClauseStoresGiven(users[i], fields, params, cs, 0);
      CandidatesMeanUpdate(users[i], upd, hash);
    }
  }

  /** `updateUser`. The guards run in order: an invalid role given,
      then an unknown user, then an unknown department given, then no field
      given at all; none changes the table. Nothing stops the new email
      from belonging to another user. */
  method UpdateUser(db: Db, id: string, upd: UserUpdate, hash: string -> string) returns (reply: Result<string>)
    requires db.Valid()
    modifies db`users
    ensures db.Valid()
    ensures Truthy(upd.role) && !IsValidRole(upd.role.value) ==> reply == Err(InvalidRole)
    ensures (Truthy(upd.role) ==> IsValidRole(upd.role.value)) && FindUserById(old(db.users), id).None?
            ==> reply == Err(UserNotFound)
    ensures (Truthy(upd.role) ==> IsValidRole(upd.role.value)) && FindUserById(old(db.users), id).Some?
            && Truthy(upd.departmentId) && !DepartmentExists(db.departments, upd.departmentId.value)
            ==> reply == Err(InvalidDepartment)
    ensures reply.Ok? ==> exists i :: 0 <= i < 9 && Candidates(upd, hash)[i].given
    ensures (forall i :: 0 <= i < 9 ==> !Candidates(upd, hash)[i].given) ==> reply.Err?
    ensures (Truthy(upd.role) ==> IsValidRole(upd.role.value)) && FindUserById(old(db.users), id).Some?
            && (Truthy(upd.departmentId) ==> DepartmentExists(db.departments, upd.departmentId.value))
            ==> if exists i :: 0 <= i < 9 && Candidates(upd, hash)[i].given then reply.Ok?
                else reply == Err(NoFieldsGiven)
    ensures reply.Err? ==> db.users == old(db.users)
    ensures reply.Ok? ==> reply.value == UserUpdated && db.users == UpdateRows(old(db.users), id, upd, hash)
  {
    if Truthy(upd.role) && !IsValidRole(upd.role.value) {
      return Err(InvalidRole);
    }
    if FindUserById(db.users, id).None? {
      return Err(UserNotFound);
    }
    if Truthy(upd.departmentId) && !DepartmentExists(db.departments, upd.departmentId.value) {
      return Err(InvalidDepartment);
    }
    var cs := Candidates(upd, hash);
    var fields, values, idx := BuildSetClause(cs);
    if |fields| == 0 {
      return Err(NoFieldsGiven);
    }
    var params := values + [id];
    UpdateStatementMeansUpdate(db.users, id, upd, hash, fields, values);
    db.users := ExecuteUpdate(db.users, fields, params, idx);
    reply := Ok(UserUpdated);
  }

  // ---------------------------------------------------------------------
  // changePassword

  /** `UPDATE vms_users SET password_hash = $1 WHERE user_id = $2`. */
  function SetPasswordHash(users: seq<User>, userId: string, newHash: string): (r: seq<User>)
    ensures |r| == |users| && UserIds(r) == UserIds(users)
    ensures forall i :: 0 <= i < |users| && users[i].userId != userId ==> r[i] == users[i]
    ensures forall i :: 0 <= i < |users| && users[i].userId == userId ==>
              r[i].passwordHash == newHash && r[i].(passwordHash := users[i].passwordHash) == users[i]
  {
    seq(|users|, i requires 0 <= i < |users| =>
      if users[i].userId == userId then users[i].(passwordHash := newHash) else users[i])
  }

  /** `changePassword` for the authenticated user `userId`: an unknown
      user, then a wrong old password, are refused without change; otherwise
      only that user's hash is replaced. The confirmation field of the
      request is never read. */
  method ChangePassword(db: Db, userId: string, oldPassword: string, newPassword: string,
                        hash: string -> string, matches: (string, string) -> bool)
    returns (reply: Result<string>)
    requires db.Valid()
    modifies db`users
    ensures db.Valid()
    ensures FindUserById(old(db.users), userId).None? ==> reply == Err(UserNotFound)
    ensures FindUserById(old(db.users), userId).Some?
            && !matches(oldPassword, old(db.users)[FindUserById(old(db.users), userId).value].passwordHash)
            ==> reply == Err(WrongOldPassword)
    ensures reply.Err? ==> db.users == old(db.users)
    ensures reply.Ok? ==> reply.value == PasswordChanged
                          && db.users == SetPasswordHash(old(db.users), userId, hash(newPassword))
    ensures FindUserById(old(db.users), userId).Some?
            && matches(oldPassword, old(db.users)[FindUserById(old(db.users), userId).value].passwordHash)
            ==> reply.Ok?
  {
    var found := FindUserById(db.users, userId);
    if found.None? {
      return Err(UserNotFound);
    }
    if !matches(oldPassword, db.users[found.value].passwordHash) {
      return Err(WrongOldPassword);
    }
    db.users := SetPasswordHash(db.users, userId, hash(newPassword));
    reply := Ok(PasswordChanged);
  }

  /** After a password change the new password logs in (when bcrypt
      accepts a password against its own hash) for the user the email
      finds, and no other user's login is affected. */
  lemma {:induction false} ChangedPasswordLogsIn(users: seq<User>, userId: string, email: string,
                                                 newPassword: string, hash: string -> string,
                                                 matches: (string, string) -> bool)
    requires FindUserByEmail(users, email).Some?
    requires users[FindUserByEmail(users, email).value].userId == userId
    requires matches(newPassword, hash(newPassword))
    ensures Login(SetPasswordHash(users, userId, hash(newPassword)), email, newPassword, matches).Ok?
  {
    var after := SetPasswordHash(users, userId, hash(newPassword));
    FindFirstSame(users, after, (u: User) => u.email == email);
  }
}
