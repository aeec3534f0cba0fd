/** The decisions of the employee handlers in server.js (POST /employees,
    PUT /employees/reset, PUT /employees): the outcome for a snapshot of the
    "User" table and a request, and the row written when it is Ok. */
module Employees {
  import opened JsValues
  import opened Records

  /** The fields an employee handler takes from `req.body`. */
  datatype EmployeeBody = EmployeeBody(
    id: JsVal,
    username: JsVal,
    name: JsVal,
    password: JsVal,
    user_role: JsVal,
    status: JsVal,
    team_id: JsVal,
    is_first_login: JsVal)

  // -----------------------------------------------------------------------
  // POST /employees

  /** bcrypt hashes only strings: any other username makes `bcrypt.hash`
      throw before the team id is parsed, and the handler answers 500. */
  function CreateEmployeeVerdict(b: EmployeeBody): Status {
    if !Truthy(b.username) || !Truthy(b.name) || !Truthy(b.team_id) then BadRequest
    else if !b.username.Str? then ServerError
    else if ParseInt(b.team_id).None? then BadRequest
    else Ok
  }

  /** Creation needs a username, a name and a team id, and a team id that
      parses as an integer; a username that is not a string is a 500. */
  lemma CreateEmployeeOutcome(b: EmployeeBody)
    ensures !Truthy(b.username) || !Truthy(b.name) || !Truthy(b.team_id) ==> CreateEmployeeVerdict(b) == BadRequest
    ensures Truthy(b.username) && Truthy(b.name) && Truthy(b.team_id) && b.username.Str? && ParseInt(b.team_id).None? ==>
      CreateEmployeeVerdict(b) == BadRequest
    ensures CreateEmployeeVerdict(b) == Ok <==>
      Truthy(b.username) && Truthy(b.name) && Truthy(b.team_id) && b.username.Str? && ParseInt(b.team_id).Some?
  {
  }

  /** The inserted row: the initial password is a hash of the username, the
      role comes from the strings "0" and "1", and the status defaults to "1". */
  function NewEmployee(b: EmployeeBody, now: int): User
    requires ParseInt(b.team_id).Some?
  {
    User(
      username := b.username,
      name := b.name,
      password := Hash(b.username),
      is_admin := b.user_role == Str("0"),
      is_team_lead := b.user_role == Str("1"),
      is_first_login := Bool(true),
      status := if Truthy(b.status) then b.status else Str("1"),
      team_id := Num(ParseInt(b.team_id).value),
      created_by := Null,
      updated_by := Null,
      updated_at := Num(now))
  }

  // -----------------------------------------------------------------------
  // PUT /employees/reset

  function ResetVerdict(users: map<int, User>, id: JsVal): Status {
    if !Truthy(id) then BadRequest
    else match BindInt(id)
      case SqlError => ServerError
      case SqlNull => NotFound
      case Int(k) => if k in users then Ok else NotFound
  }

  /** The password becomes a hash of the username and the user must change it again. */
  function ResetRow(u: User): User {
    u.(password := Hash(u.username), is_first_login := Bool(true))
  }

  // -----------------------------------------------------------------------
  // PUT /employees  (`actor` is the authenticated user id)

  /** Some field that the handler copies into the UPDATE is truthy. */
  predicate AnyPatchField(b: EmployeeBody) {
    Truthy(b.name) || Truthy(b.username) || Truthy(b.password) ||
    Truthy(b.team_id) || Truthy(b.status) || Truthy(b.is_first_login)
  }

  /** An unknown acting user reads as neither admin nor team lead. */
  predicate ActorPrivileged(users: map<int, User>, actor: int) {
    actor in users && Privileged(users[actor])
  }

  function UpdateEmployeeVerdict(users: map<int, User>, actor: int, b: EmployeeBody): Status {
    if !Truthy(b.id) || NumberIsNaN(b.id) then BadRequest
    else match BindInt(b.id)
      case SqlError => ServerError
      case SqlNull => NotFound
      case Int(k) =>
        if k !in users then NotFound
        else if !ActorPrivileged(users, actor) && ParseInt(b.id) != Some(actor) then Forbidden
        else if !AnyPatchField(b) then BadRequest
        else Ok
  }

  /** Each truthy field of the body replaces the stored one; the password is
      stored as sent, without hashing. */
  function PatchFields(u: User, b: EmployeeBody): User {
    u.(
      name := if Truthy(b.name) then b.name else u.name,
      username := if Truthy(b.username) then b.username else u.username,
      password := if Truthy(b.password) then Plain(b.password) else u.password,
      team_id := if Truthy(b.team_id) then b.team_id else u.team_id,
      status := if Truthy(b.status) then b.status else u.status,
      is_first_login := if Truthy(b.is_first_login) then b.is_first_login else u.is_first_login)
  }

  /** The row after an accepted update: the patch, stamped with the acting
      user and the time. */
  function Patched(u: User, b: EmployeeBody, actor: int, now: int): User {
    PatchFields(u, b).(updated_at := Num(now), updated_by := Num(actor))
  }

  // -----------------------------------------------------------------------
  // Properties

  /** A new employee is admin exactly for role "0", team lead exactly for
      role "1", never both, and must change the initial password. */
  lemma NewEmployeeRole(b: EmployeeBody, now: int)
    requires CreateEmployeeVerdict(b) == Ok
    ensures NewEmployee(b, now).is_admin <==> b.user_role == Str("0")
    ensures NewEmployee(b, now).is_team_lead <==> b.user_role == Str("1")
    ensures !(NewEmployee(b, now).is_admin && NewEmployee(b, now).is_team_lead)
    ensures NewEmployee(b, now).is_first_login == Bool(true)
    ensures NewEmployee(b, now).status == if Truthy(b.status) then b.status else Str("1")
    ensures Truthy(NewEmployee(b, now).status)
  {
  }

  /** A team id sent as a number or as its decimal text is stored as that number. */
  lemma NewEmployeeTeam(b: EmployeeBody, now: int, team: int)
    requires b.username.Str? && Truthy(b.username) && Truthy(b.name) && team != 0
    requires b.team_id == Num(team) || b.team_id == Str(DecimalText(team))
    ensures CreateEmployeeVerdict(b) == Ok
    ensures NewEmployee(b, now).team_id == Num(team)
  {
    ParseIntOfNumber(team);
  }

  /** A reset of an existing employee is accepted, forces a new first login
      and changes nothing but the password and that flag; an unknown id is
      not found. */
  lemma ResetExisting(users: map<int, User>, k: int)
    requires k != 0
    ensures ResetVerdict(users, Num(k)) == if k in users then Ok else NotFound
    ensures k in users ==> ResetRow(users[k]).is_first_login == Bool(true)
    ensures k in users ==> ResetRow(users[k]).password == Hash(users[k].username)
    ensures k in users ==>
      ResetRow(users[k]).(password := users[k].password, is_first_login := users[k].is_first_login) == users[k]
  {
  }

  /** An actor who is neither admin nor team lead may not update another
      employee, whatever the body holds. */
  lemma UpdateOthersForbidden(users: map<int, User>, actor: int, b: EmployeeBody, k: int)
    requires !ActorPrivileged(users, actor)
    requires b.id == Num(k) && k != 0 && k in users && k != actor
    ensures UpdateEmployeeVerdict(users, actor, b) == Forbidden
  {
    ParseIntOfNumber(k);
  }

  /** An id that no row has answers 404, whoever asks. */
  lemma UpdateMissingTarget(users: map<int, User>, actor: int, b: EmployeeBody, k: int)
    requires b.id == Num(k) && k != 0 && k !in users
    ensures UpdateEmployeeVerdict(users, actor, b) == NotFound
  {
  }

  /** An admin or a team lead may update any existing employee, given some
      truthy field. */
  lemma UpdatePrivilegedAllowed(users: map<int, User>, actor: int, b: EmployeeBody, k: int)
    requires ActorPrivileged(users, actor)
    requires b.id == Num(k) && k != 0 && k in users
    requires AnyPatchField(b)
    ensures UpdateEmployeeVerdict(users, actor, b) == Ok
  {
    ParseIntOfNumber(k);
  }

  /** Editing one's own row needs no privilege. */
  lemma UpdateSelfAllowed(users: map<int, User>, actor: int, b: EmployeeBody)
    requires actor in users && actor != 0 && b.id == Num(actor)
    requires AnyPatchField(b)
    ensures UpdateEmployeeVerdict(users, actor, b) == Ok
  {
    ParseIntOfNumber(actor);
  }

  /** A permitted request (a privileged actor, or anyone on their own row)
      with no truthy field is refused. */
  lemma UpdateNothingRefused(users: map<int, User>, actor: int, b: EmployeeBody, k: int)
    requires b.id == Num(k) && k != 0 && k in users && (ActorPrivileged(users, actor) || k == actor)
    requires !AnyPatchField(b)
    ensures UpdateEmployeeVerdict(users, actor, b) == BadRequest
  {
    ParseIntOfNumber(k);
  }

  /** An accepted update changes only the supplied fields plus `updated_at`,
      records the acting user in `updated_by`, and never changes the role flags:
      no employee can make itself admin or team lead this way. */
  lemma PatchedChangesOnlySupplied(u: User, b: EmployeeBody, actor: int, now: int)
    ensures Patched(u, b, actor, now).is_admin == u.is_admin
    ensures Patched(u, b, actor, now).is_team_lead == u.is_team_lead
    ensures Patched(u, b, actor, now).created_by == u.created_by
    ensures Patched(u, b, actor, now).updated_by == Num(actor)
    ensures Patched(u, b, actor, now).updated_at == Num(now)
    ensures Truthy(b.name) || Patched(u, b, actor, now).name == u.name
    ensures Truthy(b.username) || Patched(u, b, actor, now).username == u.username
    ensures Truthy(b.password) || Patched(u, b, actor, now).password == u.password
    ensures Truthy(b.team_id) || Patched(u, b, actor, now).team_id == u.team_id
    ensures Truthy(b.status) || Patched(u, b, actor, now).status == u.status
    ensures Truthy(b.is_first_login) || Patched(u, b, actor, now).is_first_login == u.is_first_login
  {
  }

  /** A password sent to the update is stored as sent, not hashed. */
  lemma PatchedPasswordUnhashed(u: User, b: EmployeeBody, actor: int, now: int)
    requires Truthy(b.password)
    ensures !Patched(u, b, actor, now).password.Hash?
    ensures Patched(u, b, actor, now).password == Plain(b.password)
  {
  }
}
