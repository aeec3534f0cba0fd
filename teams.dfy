/** The decisions of the team handlers in server.js (POST /teams and
    PUT /teams/:id): the outcome for a snapshot of the "Team" table and a
    request, and the row written when it is Ok. */
module Teams {
  import opened JsValues
  import opened Records

  /** The fields a team handler takes from `req.body`. */
  datatype TeamBody = TeamBody(team_name: JsVal, updated_by: JsVal)

  /** No two teams share a name. */
  ghost predicate UniqueNames(teams: map<int, Team>) {
    forall i, j | i in teams && j in teams && i != j :: teams[i].team_name != teams[j].team_name
  }

  /** `!team_name || typeof team_name !== "string"` does not reject the name. */
  predicate NameGiven(v: JsVal) {
    v.Str? && v.s != ""
  }

  /** Some team other than `except` is named `name`. */
  predicate NameHeldByOther(teams: map<int, Team>, name: string, except: Option<int>) {
    exists k | k in teams && Some(k) != except :: teams[k].team_name == name
  }

  // -----------------------------------------------------------------------
  // POST /teams

  function CreateTeamVerdict(teams: map<int, Team>, b: TeamBody): Status {
    if !NameGiven(b.team_name) then BadRequest
    else if NameHeldByOther(teams, b.team_name.s, None) then BadRequest
    else Ok
  }

  function NewTeam(name: string, now: int): Team {
    Team(team_name := name, created_by := Null, updated_by := Null, updated_at := Num(now))
  }

  // -----------------------------------------------------------------------
  // PUT /teams/:id  (`id` is the route parameter)

  /** `parseInt(req.params.id, 10)`, where NaN and 0 are both refused. */
  function TeamIdParam(id: string): Option<int> {
    var t := ParseIntText(id);
    if t.Some? && t.value != 0 then t else None
  }

  function RenameVerdict(teams: map<int, Team>, id: string, b: TeamBody): Status {
    if TeamIdParam(id).None? then BadRequest
    else if !NameGiven(b.team_name) then BadRequest
    else if TeamIdParam(id).value !in teams then NotFound
    else if NameHeldByOther(teams, b.team_name.s, TeamIdParam(id)) then BadRequest
    else if b.updated_by == Undefined then ServerError  // `:updated_by` has no value
    else Ok
  }

  function Renamed(t: Team, name: string, b: TeamBody, now: int): Team {
    t.(team_name := name, updated_at := Num(now), updated_by := b.updated_by)
  }

  // -----------------------------------------------------------------------
  // Properties

  /** An accepted creation keeps team names unique. */
  lemma CreateKeepsNamesUnique(teams: map<int, Team>, newId: int, b: TeamBody, now: int)
    requires UniqueNames(teams) && newId !in teams
    requires CreateTeamVerdict(teams, b) == Ok
    ensures UniqueNames(teams[newId := NewTeam(b.team_name.s, now)])
  {
    var after := teams[newId := NewTeam(b.team_name.s, now)];
    forall i, j | i in after && j in after && i != j
      ensures after[i].team_name != after[j].team_name
    {
      if i == newId {
        assert teams[j].team_name != b.team_name.s;
      } else if j == newId {
        assert teams[i].team_name != b.team_name.s;
      }
    }
  }

  /** A name held by any team is refused at creation. */
  lemma CreateRefusesTakenName(teams: map<int, Team>, b: TeamBody, k: int)
    requires k in teams && b.team_name == Str(teams[k].team_name)
    ensures CreateTeamVerdict(teams, b) == BadRequest
  {
  }

  /** An accepted rename keeps team names unique. */
  lemma RenameKeepsNamesUnique(teams: map<int, Team>, id: string, b: TeamBody, now: int)
    requires UniqueNames(teams)
    requires RenameVerdict(teams, id, b) == Ok
    ensures UniqueNames(teams[TeamIdParam(id).value := Renamed(teams[TeamIdParam(id).value], b.team_name.s, b, now)])
  {
    var k := TeamIdParam(id).value;
    var after := teams[k := Renamed(teams[k], b.team_name.s, b, now)];
    forall i, j | i in after && j in after && i != j
      ensures after[i].team_name != after[j].team_name
    {
      if i == k {
        assert teams[j].team_name != b.team_name.s;
      } else if j == k {
        assert teams[i].team_name != b.team_name.s;
      }
    }
  }

  /** The rename excludes the team's own row from the duplicate check, so a
      team may be "renamed" to its current name, given that the name is not
      empty and the UPDATE has an `updated_by`. */
  lemma RenameToOwnName(teams: map<int, Team>, k: int, b: TeamBody)
    requires UniqueNames(teams) && k in teams && k != 0
    ensures RenameVerdict(teams, DecimalText(k), b.(team_name := Str(teams[k].team_name))) == Ok <==>
      teams[k].team_name != "" && b.updated_by != Undefined
  {
    DecimalTextThenText(k, []);
    assert DecimalText(k) + [] == DecimalText(k);
    assert TeamIdParam(DecimalText(k)) == Some(k);
  }

  /** A name held by another team is refused. */
  lemma RenameDuplicateCheck(teams: map<int, Team>, k: int, b: TeamBody, other: int)
    requires k in teams && k != 0
    requires other in teams && other != k
    ensures RenameVerdict(teams, DecimalText(k), b.(team_name := Str(teams[other].team_name))) == BadRequest
  {
    DecimalTextThenText(k, []);
    assert DecimalText(k) + [] == DecimalText(k);
    assert TeamIdParam(DecimalText(k)) == Some(k);
  }
}
