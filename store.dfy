/** The database the handlers of server.js work on: the "Customer", "User"
    and "Team" tables as maps from id to row, and the id sequences that the
    INSERTs draw from. Each method performs one handler's checks in the order
    the handler makes them, then writes; a method changes its table only when
    it returns Ok, and its contract ties the outcome and the new table to the
    decision functions of Customers, Employees and Teams. */
module Store {
  import opened JsValues
  import opened Records
  import opened Customers
  import opened Employees
  import opened Teams

  /** The columns `PUT /employees` may list in its SET clause. */
  datatype UserColumn = NameColumn | UsernameColumn | PasswordColumn | TeamColumn | StatusColumn | FirstLoginColumn

  /** `if (field) updateFields.push(column)`. */
  method Push(updateFields: seq<UserColumn>, field: JsVal, column: UserColumn) returns (r: seq<UserColumn>)
    ensures forall c :: c in r <==> c in updateFields || (c == column && Truthy(field))
    ensures |r| == 0 <==> |updateFields| == 0 && !Truthy(field)
  {
    r := updateFields;
    if Truthy(field) {
      r := r + [column];
    }
  }

  /** The SET list and the row `PUT /employees` builds: one column for each
      truthy field of the body, in the handler's order. */
  method BuildUpdate(u: User, b: EmployeeBody) returns (updateFields: seq<UserColumn>, row: User)
    ensures row == PatchFields(u, b)
    ensures |updateFields| == 0 <==> !AnyPatchField(b)
    ensures NameColumn in updateFields <==> Truthy(b.name)
    ensures UsernameColumn in updateFields <==> Truthy(b.username)
    ensures PasswordColumn in updateFields <==> Truthy(b.password)
    ensures TeamColumn in updateFields <==> Truthy(b.team_id)
    ensures StatusColumn in updateFields <==> Truthy(b.status)
    ensures FirstLoginColumn in updateFields <==> Truthy(b.is_first_login)
  {
    updateFields := Push([], b.name, NameColumn);
    updateFields := Push(updateFields, b.username, UsernameColumn);
    updateFields := Push(updateFields, b.password, PasswordColumn);
    updateFields := Push(updateFields, b.team_id, TeamColumn);
    updateFields := Push(updateFields, b.status, StatusColumn);
    updateFields := Push(updateFields, b.is_first_login, FirstLoginColumn);
    row := u;
    if Truthy(b.name) {
      row := row.(name := b.name);
    }
    if Truthy(b.username) {
      row := row.(username := b.username);
    }
    if Truthy(b.password) {
      row := row.(password := Plain(b.password));
    }
    if Truthy(b.team_id) {
      row := row.(team_id := b.team_id);
    }
    if Truthy(b.status) {
      row := row.(status := b.status);
    }
    if Truthy(b.is_first_login) {
      row := row.(is_first_login := b.is_first_login);
    }
  }

  class Database {
    var customers: map<int, Customer>
    var users: map<int, User>
    var teams: map<int, Team>
    var nextCustomerId: int
    var nextUserId: int
    var nextTeamId: int

    /** Every id sequence is past the ids its table holds. */
    ghost predicate Valid()
      reads this
    {
      && (forall k | k in customers :: k < nextCustomerId)
      && (forall k | k in users :: k < nextUserId)
      && (forall k | k in teams :: k < nextTeamId)
    }

    constructor ()
      ensures Valid()
      ensures customers == map[] && users == map[] && teams == map[]
      ensures nextCustomerId == 1 && nextUserId == 1 && nextTeamId == 1
    {
      customers, users, teams := map[], map[], map[];
      nextCustomerId, nextUserId, nextTeamId := 1, 1, 1;
    }

    // ---------------------------------------------------------------------
    // Customers

    /** POST /customers. */
    method CreateCustomer(b: CustomerBody, now: int) returns (r: Status)
      requires Valid()
      modifies this
      ensures Valid()
      ensures r == CreateVerdict(old(customers), b)
      ensures customers == if r == Ok then old(customers)[old(nextCustomerId) := NewCustomer(b, now)] else old(customers)
      ensures r == Ok ==> old(nextCustomerId) !in old(customers) && |customers| == |old(customers)| + 1
      ensures UniquePhones(old(customers)) ==> UniquePhones(customers)
      ensures users == old(users) && teams == old(teams)
      ensures r != Ok ==> nextCustomerId == old(nextCustomerId)
      ensures nextUserId == old(nextUserId) && nextTeamId == old(nextTeamId)
    {
      if !Truthy(b.phone_number) {
        return BadRequest;
      }
      if PhoneTaken(customers, b.phone_number) {
        return BadRequest;
      }
      if !CreateFieldsBound(b) {
        return ServerError;
      }
      if UniquePhones(customers) {
        CreateKeepsPhonesUnique(customers, nextCustomerId, b, now);
      }
      customers := customers[nextCustomerId := NewCustomer(b, now)];
      nextCustomerId := nextCustomerId + 1;
      r := Ok;
    }

    /** PUT /customers/:id: overwrites every column, with no role or phone check. */
    method UpdateCustomer(id: string, b: CustomerBody, now: int) returns (r: Status)
      requires Valid()
      modifies this
      ensures Valid()
      ensures r == FullUpdateVerdict(old(customers), id, b)
      ensures r == Ok ==> customers == old(customers)[BindInt(Str(id)).i := FullyUpdated(old(customers)[BindInt(Str(id)).i], b, now)]
      ensures r != Ok ==> customers == old(customers)
      ensures users == old(users) && teams == old(teams) && nextCustomerId == old(nextCustomerId)
      ensures nextUserId == old(nextUserId) && nextTeamId == old(nextTeamId)
    {
      if id == "" {
        return BadRequest;
      }
      if !Truthy(b.updated_by) {
        return BadRequest;
      }
      var key := BindInt(Str(id));
      if !key.Int? {
        return ServerError;
      }
      if key.i !in customers {
        return NotFound;
      }
      if !FullUpdateFieldsBound(b) {
        return ServerError;
      }
      customers := customers[key.i := FullyUpdated(customers[key.i], b, now)];
      r := Ok;
    }

    /** PUT /customers: the status update. */
    method UpdateCustomerStatus(actor: int, b: CustomerBody) returns (r: Status)
      requires Valid()
      modifies this
      ensures Valid()
      ensures r == StatusVerdict(old(customers), users, actor, b)
      ensures r == Ok ==> (StatusBodyNumeric(b) && BindInt(b.id).Int? &&
        customers == old(customers)[BindInt(b.id).i := StatusUpdated(old(customers)[BindInt(b.id).i], b)])
      ensures r != Ok ==> customers == old(customers)
      ensures users == old(users) && teams == old(teams) && nextCustomerId == old(nextCustomerId)
      ensures nextUserId == old(nextUserId) && nextTeamId == old(nextTeamId)
    {
      if !Truthy(b.id) || b.status == Undefined || !Truthy(b.updated_by) {
        return BadRequest;
      }
      var updatedByInt := ParseInt(b.updated_by);
      var statusInt := ParseInt(b.status);
      if updatedByInt.None? || statusInt.None? {
        return BadRequest;
      }
      assert StatusBodyPresent(b) && StatusBodyNumeric(b);
      if actor !in users {
        return Forbidden;
      }
      var isAdmin := users[actor].is_admin;
      var isTeamLead := users[actor].is_team_lead;
      var key := BindInt(b.id);
      if key.SqlError? {
        return ServerError;
      }
      if key.SqlNull? || key.i !in customers {
        return NotFound;
      }
      var currentStatus := StoredStatus(customers[key.i]);
      var writer := Num(updatedByInt.value);
      if currentStatus == Some(2) {
        writer := Null;
      }
      if !isAdmin && !isTeamLead && currentStatus == Some(2) {
        return Forbidden;
      }
      // The handler's second guard, refusing 2 -> 1 to the same actors, can
      // no longer fire here: the guard above has already returned.
      assert !(currentStatus == Some(2) && statusInt == Some(1) && !isAdmin && !isTeamLead);
      assert writer == StatusWriter(customers[key.i], b);
      if !StatusFieldsBound(b) {
        return ServerError;
      }
      customers := customers[key.i := customers[key.i].(
        full_name := b.full_name,
        year_of_birth := b.year_of_birth,
        note := b.note,
        role_note := b.role_note,
        team_id := b.team_id,
        status := b.status,
        updated_by := writer,
        updated_at := b.updated_at)];
      r := Ok;
    }

    /** DELETE /customers/:id. */
    method DeleteCustomer(actor: int, id: string) returns (r: Status)
      requires Valid()
      modifies this
      ensures Valid()
      ensures r == DeleteVerdict(old(customers), users, actor, id)
      ensures customers == if r == Ok then AfterDelete(old(customers), id) else old(customers)
      ensures users == old(users) && teams == old(teams) && nextCustomerId == old(nextCustomerId)
      ensures nextUserId == old(nextUserId) && nextTeamId == old(nextTeamId)
    {
      if id == "" {
        return BadRequest;
      }
      if actor !in users {
        return ServerError;
      }
      var isAdmin := users[actor].is_admin;
      var key := BindInt(Str(id));
      if !isAdmin {
        if !key.Int? {
          return ServerError;
        }
        if key.i in customers && TextOf(customers[key.i].status) == Some("2") {
          return BadRequest;
        }
      }
      if !key.Int? {
        return ServerError;
      }
      customers := customers - {key.i};
      r := Ok;
    }

    // ---------------------------------------------------------------------
    // Employees

    /** POST /employees. */
    method CreateEmployee(b: EmployeeBody, now: int) returns (r: Status)
      requires Valid()
      modifies this
      ensures Valid()
      ensures r == CreateEmployeeVerdict(b)
      ensures r == Ok ==> (ParseInt(b.team_id).Some? && old(nextUserId) !in old(users) &&
        users == old(users)[old(nextUserId) := NewEmployee(b, now)])
      ensures r != Ok ==> users == old(users)
      ensures r != Ok ==> nextUserId == old(nextUserId)
      ensures customers == old(customers) && teams == old(teams)
      ensures nextCustomerId == old(nextCustomerId) && nextTeamId == old(nextTeamId)
    {
      if !Truthy(b.username) || !Truthy(b.name) || !Truthy(b.team_id) {
        return BadRequest;
      }
      if !b.username.Str? {
        return ServerError;
      }
      var hashedPassword := Hash(b.username);
      var isAdmin := b.user_role == Str("0");
      var isTeamLead := b.user_role == Str("1");
      var teamIdAsInt := ParseInt(b.team_id);
      if teamIdAsInt.None? {
        return BadRequest;
      }
      var status := if Truthy(b.status) then b.status else Str("1");
      users := users[nextUserId := User(
        username := b.username,
        name := b.name,
        password := hashedPassword,
        is_admin := isAdmin,
        is_team_lead := isTeamLead,
        is_first_login := Bool(true),
        status := status,
        team_id := Num(teamIdAsInt.value),
        created_by := Null,
        updated_by := Null,
        updated_at := Num(now))];
      nextUserId := nextUserId + 1;
      r := Ok;
    }

    /** PUT /employees/reset. */
    method ResetEmployee(id: JsVal) returns (r: Status)
      requires Valid()
      modifies this
      ensures Valid()
      ensures r == ResetVerdict(old(users), id)
      ensures r == Ok ==> BindInt(id).Int? && users == old(users)[BindInt(id).i := ResetRow(old(users)[BindInt(id).i])]
      ensures r != Ok ==> users == old(users)
      ensures customers == old(customers) && teams == old(teams) && nextUserId == old(nextUserId)
      ensures nextCustomerId == old(nextCustomerId) && nextTeamId == old(nextTeamId)
    {
      if !Truthy(id) {
        return BadRequest;
      }
      var key := BindInt(id);
      if key.SqlError? {
        return ServerError;
      }
      if key.SqlNull? || key.i !in users {
        return NotFound;
      }
      var username := users[key.i].username;
      users := users[key.i := users[key.i].(password := Hash(username), is_first_login := Bool(true))];
      r := Ok;
    }

    /** PUT /employees: the SET clause is grown one truthy field at a time. */
    method UpdateEmployee(actor: int, b: EmployeeBody, now: int) returns (r: Status)
      requires Valid()
      modifies this
      ensures Valid()
      ensures r == UpdateEmployeeVerdict(old(users), actor, b)
      ensures r == Ok ==> (BindInt(b.id).Int? &&
        users == old(users)[BindInt(b.id).i := Patched(old(users)[BindInt(b.id).i], b, actor, now)])
      ensures r != Ok ==> users == old(users)
      ensures customers == old(customers) && teams == old(teams) && nextUserId == old(nextUserId)
      ensures nextCustomerId == old(nextCustomerId) && nextTeamId == old(nextTeamId)
    {
      if !Truthy(b.id) || NumberIsNaN(b.id) {
        return BadRequest;
      }
      var key := BindInt(b.id);
      if key.SqlError? {
        return ServerError;
      }
      if key.SqlNull? || key.i !in users {
        return NotFound;
      }
      var isAdmin := actor in users && users[actor].is_admin;
      var isTeamLead := actor in users && users[actor].is_team_lead;
      if !isAdmin && !isTeamLead && ParseInt(b.id) != Some(actor) {
        return Forbidden;
      }
      var updateFields, row := BuildUpdate(users[key.i], b);
      if |updateFields| == 0 {
        return BadRequest;
      }
      users := users[key.i := row.(updated_at := Num(now), updated_by := Num(actor))];
      r := Ok;
    }

    // ---------------------------------------------------------------------
    // Teams

    /** POST /teams. */
    method CreateTeam(b: TeamBody, now: int) returns (r: Status)
      requires Valid()
      modifies this
      ensures Valid()
      ensures r == CreateTeamVerdict(old(teams), b)
      ensures r == Ok ==> b.team_name.Str? && teams == old(teams)[old(nextTeamId) := NewTeam(b.team_name.s, now)]
      ensures r != Ok ==> teams == old(teams)
      ensures UniqueNames(old(teams)) ==> UniqueNames(teams)
      ensures r != Ok ==> nextTeamId == old(nextTeamId)
      ensures customers == old(customers) && users == old(users)
      ensures nextCustomerId == old(nextCustomerId) && nextUserId == old(nextUserId)
    {
      if !b.team_name.Str? || b.team_name.s == "" {
        return BadRequest;
      }
      if NameHeldByOther(teams, b.team_name.s, None) {
        return BadRequest;
      }
      if UniqueNames(teams) {
        CreateKeepsNamesUnique(teams, nextTeamId, b, now);
      }
      teams := teams[nextTeamId := NewTeam(b.team_name.s, now)];
      nextTeamId := nextTeamId + 1;
      r := Ok;
    }

    /** PUT /teams/:id. */
    method RenameTeam(id: string, b: TeamBody, now: int) returns (r: Status)
      requires Valid()
      modifies this
      ensures Valid()
      ensures r == RenameVerdict(old(teams), id, b)
      ensures r == Ok ==> (b.team_name.Str? && TeamIdParam(id).Some? &&
        teams == old(teams)[TeamIdParam(id).value := Renamed(old(teams)[TeamIdParam(id).value], b.team_name.s, b, now)])
      ensures r != Ok ==> teams == old(teams)
      ensures UniqueNames(old(teams)) ==> UniqueNames(teams)
      ensures customers == old(customers) && users == old(users) && nextTeamId == old(nextTeamId)
      ensures nextCustomerId == old(nextCustomerId) && nextUserId == old(nextUserId)
    {
      var teamId := ParseIntText(id);
      if teamId.None? || teamId.value == 0 {
        return BadRequest;
      }
      if !b.team_name.Str? || b.team_name.s == "" {
        return BadRequest;
      }
      if teamId.value !in teams {
        return NotFound;
      }
      if NameHeldByOther(teams, b.team_name.s, teamId) {
        return BadRequest;
      }
      if b.updated_by == Undefined {
        return ServerError;
      }
      if UniqueNames(teams) {
        RenameKeepsNamesUnique(teams, id, b, now);
      }
      teams := teams[teamId.value := Renamed(teams[teamId.value], b.team_name.s, b, now)];
      r := Ok;
    }
  }
}
