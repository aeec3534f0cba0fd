/** The rows of the three tables the handlers read and write, and the outcome
    of a handler. Every column holds the value the handler bound into its
    INSERT or UPDATE, exactly as it was bound. */
module Records {
  import opened JsValues

  /** The HTTP outcome of a handler: 200/201, 400, 403, 404 or 500. */
  datatype Status = Ok | BadRequest | Forbidden | NotFound | ServerError

  /** A row of "Customer". `status` is a text column: it is read back as the
      text of the value written into it. Timestamps hold either a value taken
      from a request body or `Num(now)` for the database's NOW(). */
  datatype Customer = Customer(
    full_name: JsVal,
    year_of_birth: JsVal,
    phone_number: JsVal,
    note: JsVal,
    role_note: JsVal,
    status: JsVal,
    team_id: JsVal,
    created_by: JsVal,
    created_at: JsVal,
    updated_by: JsVal,
    updated_at: JsVal)

  /** A stored password: a bcrypt hash of some input (the hash is opaque, so
      only its input is kept) or a value stored as it was sent. */
  datatype Password = Hash(input: JsVal) | Plain(value: JsVal)

  /** A row of "User" (an employee). */
  datatype User = User(
    username: JsVal,
    name: JsVal,
    password: Password,
    is_admin: bool,
    is_team_lead: bool,
    is_first_login: JsVal,
    status: JsVal,
    team_id: JsVal,
    created_by: JsVal,
    updated_by: JsVal,
    updated_at: JsVal)

  /** A row of "Team". Only strings are ever written as a team name. */
  datatype Team = Team(
    team_name: string,
    created_by: JsVal,
    updated_by: JsVal,
    updated_at: JsVal)

  /** The status a customer row holds, as `parseInt(row.status, 10)` reads it. */
  function StoredStatus(c: Customer): Option<int> {
    ParseInt(FromText(TextOf(c.status)))
  }

  /** The acting user is an admin or a team lead. */
  predicate Privileged(u: User) {
    u.is_admin || u.is_team_lead
  }
}
