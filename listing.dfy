/** The read side of server.js: which rows the listing endpoints select for
    an acting user, the role label they print for a row's author, and their
    pagination arithmetic. Ordering, the page window itself and the JSON shape
    of the answer are not modelled; a listing is the set of ids it selects. */
module Listing {
  import opened JsValues
  import opened Records

  /** The ids a listing selects, or the failure it reports. */
  datatype Selection = Rows(ids: set<int>) | Failure(status: Status)

  // -----------------------------------------------------------------------
  // Role label: CASE WHEN is_admin THEN 'Quản lý' WHEN is_team_lead THEN
  // 'Tổ trưởng' ELSE 'Nhân viên' END, over a LEFT JOIN on the author column.

  datatype RoleLabel = Manager | TeamLeader | Staff

  /** The row `LEFT JOIN "User" u ON c.created_by = u.id` joins, if any. */
  function Referenced(users: map<int, User>, author: JsVal): Option<User> {
    if BindInt(author).Int? && BindInt(author).i in users then Some(users[BindInt(author).i]) else None
  }

  /** With no joined row both WHEN tests are NULL and the ELSE applies. */
  function LabelOf(u: Option<User>): RoleLabel {
    match u
    case None => Staff
    case Some(x) => if x.is_admin then Manager else if x.is_team_lead then TeamLeader else Staff
  }

  /** Only an author naming an existing user gets a label other than staff:
      Manager for an admin, TeamLeader for a team lead who is not admin. */
  function AuthorLabel(users: map<int, User>, author: JsVal): (r: RoleLabel)
    ensures r != Staff ==> BindInt(author).Int? && BindInt(author).i in users
    ensures r == Manager ==> users[BindInt(author).i].is_admin
    ensures r == TeamLeader ==> !users[BindInt(author).i].is_admin && users[BindInt(author).i].is_team_lead
  {
    LabelOf(Referenced(users, author))
  }

  /** Admin takes precedence over team lead; everyone else is staff. */
  lemma LabelPrecedence(u: User)
    ensures LabelOf(Some(u)) == Manager <==> u.is_admin
    ensures LabelOf(Some(u)) == TeamLeader <==> !u.is_admin && u.is_team_lead
    ensures LabelOf(Some(u)) == Staff <==> !u.is_admin && !u.is_team_lead
  {
  }

  /** An author that is NULL, or names no user, is labelled staff. */
  lemma UnknownAuthorIsStaff(users: map<int, User>, author: JsVal)
    requires !BindInt(author).Int? || BindInt(author).i !in users
    ensures AuthorLabel(users, author) == Staff
  {
  }

  // -----------------------------------------------------------------------
  // Pagination of /customers, /customers/check and /employees

  /** `parseInt(q) || d`: NaN and 0 both fall back to d. */
  function IntOr(q: JsVal, d: int): int {
    var p := ParseInt(q);
    if p.Some? && p.value != 0 then p.value else d
  }

  datatype Window = Window(page: int, limit: int, offset: int)

  /** `page = parseInt(page) || 1`, `limit = parseInt(limit) || 10`,
      `offset = (page - 1) * limit`. */
  function PageWindow(pageQ: JsVal, limitQ: JsVal): (w: Window)
    ensures w.page != 0 && w.limit != 0
    ensures pageQ == Undefined ==> w.page == 1
    ensures limitQ == Undefined ==> w.limit == 10
  {
    var page := IntOr(pageQ, 1);
    var limit := IntOr(limitQ, 10);
    Window(page, limit, (page - 1) * limit)
  }

  /** `Math.ceil(a / b)` for integers, b not zero. */
  function CeilDiv(a: int, b: int): int
    requires b != 0
  {
    if b > 0 then -((-a) / b) else -(a / (-b))
  }

  /** `totalPages: Math.ceil(total / limit)`: with a positive limit, the
      fewest pages that hold every row. */
  function TotalPages(total: nat, limit: int): (r: int)
    requires limit != 0
    ensures limit > 0 ==> (r - 1) * limit < total <= r * limit
  {
    if limit > 0 then
      CeilDivPositive(total, limit);
      CeilDiv(total, limit)
    else
      CeilDiv(total, limit)
  }

  /** Absent, non-numeric and zero parameters give page 1 of 10 rows at offset 0;
      the limit is never 0, so the page count is always defined. */
  lemma PageWindowDefaults(pageQ: JsVal, limitQ: JsVal)
    requires ParseInt(pageQ).None? || ParseInt(pageQ) == Some(0)
    requires ParseInt(limitQ).None? || ParseInt(limitQ) == Some(0)
    ensures PageWindow(pageQ, limitQ) == Window(1, 10, 0)
  {
  }

  lemma PageWindowLimit(pageQ: JsVal, limitQ: JsVal)
    ensures PageWindow(pageQ, limitQ).limit != 0
    ensures ParseInt(limitQ).Some? && ParseInt(limitQ).value != 0 ==> PageWindow(pageQ, limitQ).limit == ParseInt(limitQ).value
  {
  }

  lemma NextOffset(n: int, limit: int)
    ensures (n + 1 - 1) * limit == (n - 1) * limit + limit
  {
  }

  /** Consecutive pages are consecutive windows: when the page parameters
      read as n and n+1, page n+1 starts where page n ends. */
  lemma PagesAdjoin(pageQ: JsVal, nextQ: JsVal, limitQ: JsVal)
    requires IntOr(nextQ, 1) == IntOr(pageQ, 1) + 1
    ensures PageWindow(nextQ, limitQ).offset == PageWindow(pageQ, limitQ).offset + PageWindow(pageQ, limitQ).limit
  {
    NextOffset(IntOr(pageQ, 1), IntOr(limitQ, 10));
  }

  /** CeilDiv is the ceiling: for a positive limit, the pages hold every row
      and the last page is not empty. */
  lemma CeilDivPositive(a: int, b: int)
    requires b > 0
    ensures (CeilDiv(a, b) - 1) * b < a <= CeilDiv(a, b) * b
  {
    var q := (-a) / b;
    var r := (-a) % b;
    assert -a == q * b + r && 0 <= r < b;
    assert CeilDiv(a, b) == -q;
    assert (-q) * b == a + r;
    assert (-q - 1) * b == a + r - b;
  }

  /** With a positive limit the page count covers exactly the rows counted. */
  lemma TotalPagesCover(total: nat, limit: int)
    requires limit > 0
    ensures TotalPages(total, limit) >= 0
    ensures TotalPages(total, limit) * limit >= total
    ensures (TotalPages(total, limit) - 1) * limit < total
    ensures total == 0 <==> TotalPages(total, limit) == 0
  {
    CeilDivPositive(total, limit);
  }

  // -----------------------------------------------------------------------
  // Pagination of /teams: `Math.max(parseInt(q, 10), 1)`, where NaN stays NaN

  function AtLeastOne(q: JsVal): Option<int> {
    match ParseInt(q)
    case None => None
    case Some(x) => Some(if x < 1 then 1 else x)
  }

  /** A number is raised to at least 1; a missing parameter gives NaN (None). */
  lemma TeamsPageNumber(q: JsVal)
    ensures AtLeastOne(q).Some? ==> AtLeastOne(q).value >= 1
    ensures ParseInt(q).Some? && ParseInt(q).value >= 1 ==> AtLeastOne(q) == ParseInt(q)
    ensures q == Undefined ==> AtLeastOne(q).None?
  {
    if q == Undefined {
      assert JsString(q) == "undefined";
      assert LeadingDigits("undefined") == [];
    }
  }

  // -----------------------------------------------------------------------
  // GET /customers

  function IsSubstring(p: string, t: string): bool
    decreases |t|
  {
    p <= t || (t != [] && IsSubstring(p, t[1..]))
  }

  /** `col ILIKE '%term%'` is TRUE (case folding is not modelled). */
  predicate ILike(col: JsVal, term: string) {
    TextOf(col).Some? && IsSubstring(term, TextOf(col).value)
  }

  /** `c.team_id = :team_id` with the acting user's team is TRUE. */
  predicate SameTeam(team: JsVal, actor: User) {
    SqlIntEq(team, actor.team_id)
  }

  /** `WHERE 1=1 AND c.full_name ILIKE :search OR c.phone_number ILIKE :search
      AND c.team_id = :team_id`, with each optional part present as the
      handler adds it. AND binds tighter than OR, so with both parts present
      the clause reads `(name matches) OR (phone matches AND same team)`. */
  predicate CustomerSelected(actor: User, search: string, c: Customer) {
    var nameHit := ILike(c.full_name, search);
    var phoneHit := ILike(c.phone_number, search);
    var teamHit := SameTeam(c.team_id, actor);
    if search == "" then actor.is_admin || teamHit
    else if actor.is_admin then nameHit || phoneHit
    else nameHit || (phoneHit && teamHit)
  }

  /** An unknown acting user makes `userResult[0].is_admin` throw; otherwise
      the rows are customers, and without a search term a member's rows are
      all of their own team. */
  function ListCustomers(customers: map<int, Customer>, users: map<int, User>, actor: int, search: string): (r: Selection)
    ensures r.Failure? <==> actor !in users
    ensures r.Failure? ==> r.status == ServerError
    ensures r.Rows? ==> r.ids <= customers.Keys
    ensures r.Rows? && search == "" && !users[actor].is_admin ==>
      forall k | k in r.ids :: SameTeam(customers[k].team_id, users[actor])
  {
    if actor !in users then Failure(ServerError)
    else Rows(set k | k in customers && CustomerSelected(users[actor], search, customers[k]))
  }

  /** `SELECT COUNT(*) FROM "Customer" AS c WHERE 1=1 ${addFilter}`: the
      total counts the team scope and ignores the search term. */
  function CustomerTotal(customers: map<int, Customer>, actor: User): nat {
    |set k | k in customers && (actor.is_admin || SameTeam(customers[k].team_id, actor))|
  }

  /** Without a search term the total is exactly the number of rows selected. */
  lemma TotalMatchesUnsearched(customers: map<int, Customer>, users: map<int, User>, actor: int)
    requires actor in users
    ensures |ListCustomers(customers, users, actor, "").ids| == CustomerTotal(customers, users[actor])
  {
    var u := users[actor];
    var scoped := set k | k in customers && (u.is_admin || SameTeam(customers[k].team_id, u));
    forall k | k in customers
      ensures CustomerSelected(u, "", customers[k]) == (u.is_admin || SameTeam(customers[k].team_id, u))
    {
    }
    assert ListCustomers(customers, users, actor, "").ids == scoped;
  }

  /** The evidently intended filter: the search narrows the team scope. */
  predicate CustomerSelectedIntended(actor: User, search: string, c: Customer) {
    && (search == "" || ILike(c.full_name, search) || ILike(c.phone_number, search))
    && (actor.is_admin || SameTeam(c.team_id, actor))
  }

  /** As written: a member's search by name lists customers of other teams. */
  lemma SearchLeaksOtherTeams()
    ensures exists actor: User, c: Customer ::
      && !actor.is_admin
      && CustomerSelected(actor, "Lan", c)
      && !SameTeam(c.team_id, actor)
  {
    var actor := User(Str("an"), Str("An"), Hash(Str("an")), false, false, Bool(false), Str("1"), Num(1), Null, Null, Null);
    var c := Customer(Str("Lan"), Null, Str("0900000000"), Null, Null, Str("0"), Num(2), Null, Null, Null, Null);
    assert IsSubstring("Lan", "Lan");
    assert ILike(c.full_name, "Lan");
    assert CustomerSelected(actor, "Lan", c);
  }

  /** As written, the only way a member sees another team's customer is a
      name match. */
  lemma SearchLeakIsByName(actor: User, search: string, c: Customer)
    requires !actor.is_admin && CustomerSelected(actor, search, c) && !SameTeam(c.team_id, actor)
    ensures search != "" && ILike(c.full_name, search)
  {
  }

  /** Corrected: a member sees only customers of their own team. */
  lemma IntendedStaysInTeam(actor: User, search: string, c: Customer)
    requires !actor.is_admin && CustomerSelectedIntended(actor, search, c)
    ensures SameTeam(c.team_id, actor)
  {
  }

  /** The corrected listing. */
  function ListCustomersIntended(customers: map<int, Customer>, users: map<int, User>, actor: int, search: string): Selection {
    if actor !in users then Failure(ServerError)
    else Rows(set k | k in customers && CustomerSelectedIntended(users[actor], search, customers[k]))
  }

  /** Corrected, the listing of a member is the matching part of their team's
      customers, and it is never larger than the listing as written. */
  lemma IntendedListingScope(customers: map<int, Customer>, users: map<int, User>, actor: int, search: string)
    requires actor in users && !users[actor].is_admin
    ensures forall k | k in ListCustomersIntended(customers, users, actor, search).ids ::
      k in customers && SameTeam(customers[k].team_id, users[actor])
    ensures ListCustomersIntended(customers, users, actor, search).ids <= ListCustomers(customers, users, actor, search).ids
  {
    forall k | k in customers && CustomerSelectedIntended(users[actor], search, customers[k])
      ensures CustomerSelected(users[actor], search, customers[k])
    {
    }
  }

  /** Corrected, a search never selects more rows than the total reports. */
  lemma IntendedWithinTotal(customers: map<int, Customer>, users: map<int, User>, actor: int, search: string)
    requires actor in users
    ensures |ListCustomersIntended(customers, users, actor, search).ids| <= CustomerTotal(customers, users[actor])
  {
    var u := users[actor];
    var scoped := set k | k in customers && (u.is_admin || SameTeam(customers[k].team_id, u));
    forall k | k in ListCustomersIntended(customers, users, actor, search).ids
      ensures k in scoped
    {
      assert CustomerSelectedIntended(u, search, customers[k]);
    }
    SubsetCard(ListCustomersIntended(customers, users, actor, search).ids, scoped);
  }

  /** The two filters agree for admins and when there is no search term. */
  lemma IntendedAgreesOtherwise(actor: User, search: string, c: Customer)
    requires actor.is_admin || search == ""
    ensures CustomerSelected(actor, search, c) == CustomerSelectedIntended(actor, search, c)
  {
  }

  // -----------------------------------------------------------------------
  // GET /customers/check: the team filter is built but never placed in the
  // query, so only the search applies.

  predicate CheckSelected(search: string, c: Customer) {
    search == "" || ILike(c.full_name, search) || ILike(c.phone_number, search)
  }

  /** An unknown acting user makes the handler answer 500; otherwise every
      customer whose name or phone matches is listed, whatever its team. */
  function ListCheck(customers: map<int, Customer>, users: map<int, User>, actor: int, search: string): (r: Selection)
    ensures r.Failure? <==> actor !in users
    ensures r.Failure? ==> r.status == ServerError
    ensures r.Rows? ==> r.ids <= customers.Keys
    ensures r.Rows? ==> forall k | k in customers && ILike(customers[k].full_name, search) :: k in r.ids
  {
    if actor !in users then Failure(ServerError)
    else Rows(set k | k in customers && CheckSelected(search, customers[k]))
  }

  /** Every known acting user gets the same rows, whatever their role or team. */
  lemma CheckIgnoresActor(customers: map<int, Customer>, users: map<int, User>, a1: int, a2: int, search: string)
    requires a1 in users && a2 in users
    ensures ListCheck(customers, users, a1, search) == ListCheck(customers, users, a2, search)
  {
  }

  /** Without a search term a member is shown every customer of every team. */
  lemma CheckShowsAllTeams(customers: map<int, Customer>, users: map<int, User>, actor: int)
    requires actor in users
    ensures ListCheck(customers, users, actor, "") == Rows(customers.Keys)
  {
    assert (set k | k in customers && CheckSelected("", customers[k])) == customers.Keys;
  }

  // -----------------------------------------------------------------------
  // GET /employees

  /** `WHERE u.is_admin = false [AND u.team_id = :team_id]`. */
  predicate EmployeeSelected(actor: User, u: User) {
    !u.is_admin && (actor.is_admin || SameTeam(u.team_id, actor))
  }

  /** An unknown acting user is answered 404; otherwise the rows are users
      who are not admins. */
  function ListEmployees(users: map<int, User>, actor: int): (r: Selection)
    ensures r.Failure? <==> actor !in users
    ensures r.Failure? ==> r.status == NotFound
    ensures r.Rows? ==> forall k | k in r.ids :: k in users && !users[k].is_admin
  {
    if actor !in users then Failure(NotFound)
    else Rows(set k | k in users && EmployeeSelected(users[actor], users[k]))
  }

  /** Admins are never listed; a non-admin sees only their own team; an admin
      sees every non-admin. */
  lemma EmployeeListingScope(users: map<int, User>, actor: int)
    requires actor in users
    ensures forall k | k in ListEmployees(users, actor).ids :: k in users && !users[k].is_admin
    ensures !users[actor].is_admin ==>
      forall k | k in ListEmployees(users, actor).ids :: SameTeam(users[k].team_id, users[actor])
    ensures users[actor].is_admin ==>
      forall k | k in users && !users[k].is_admin :: k in ListEmployees(users, actor).ids
  {
  }

  // -----------------------------------------------------------------------
  // GET /teams: `INNER JOIN user_team ut ON (ut.is_admin = true OR t.id = ut.team_id)`

  predicate TeamSelected(actor: User, team: int) {
    actor.is_admin || BindInt(actor.team_id) == Int(team)
  }

  /** An unknown acting user joins no row, so the list is empty (not an error). */
  function ListTeams(users: map<int, User>, teams: map<int, Team>, actor: int): (r: set<int>)
    ensures r <= teams.Keys
    ensures actor !in users ==> r == {}
  {
    if actor !in users then {}
    else set k | k in teams && TeamSelected(users[actor], k)
  }

  /** An admin sees every team; anyone else at most their own one. */
  lemma TeamListingScope(users: map<int, User>, teams: map<int, Team>, actor: int)
    ensures actor in users && users[actor].is_admin ==> ListTeams(users, teams, actor) == teams.Keys
    ensures actor in users && !users[actor].is_admin ==>
      ListTeams(users, teams, actor) <= (if BindInt(users[actor].team_id).Int? then {BindInt(users[actor].team_id).i} else {})
    ensures |ListTeams(users, teams, actor)| <= 1 || (actor in users && users[actor].is_admin)
  {
    if actor in users && !users[actor].is_admin {
      var s := ListTeams(users, teams, actor);
      var bound := if BindInt(users[actor].team_id).Int? then {BindInt(users[actor].team_id).i} else {};
      assert s <= bound;
      assert |bound| <= 1;
      SubsetCard(s, bound);
    }
  }

  lemma SubsetCard(s: set<int>, t: set<int>)
    requires s <= t
    ensures |s| <= |t|
  {
    assert t == s + (t - s);
  }
}
