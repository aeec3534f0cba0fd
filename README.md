# Customer-management back end: a Dafny model of `server.js`

`server.js` is an Express service over PostgreSQL. Teams of employees use it
to keep a shared list of customers, each with a phone number, notes and a
call status. It has three tables: "Customer", "User" (employees, flagged
admin or team lead) and "Team". This project models the handlers that
write those tables and the filters the listing endpoints apply. It proves
the rules they enforce and the gaps they leave.

* `js_values.dfy` (module `JsValues`) models the JavaScript values a request
  body carries. It also models the conversions the handlers rely on:
  truthiness, `String(v)`, `parseInt(v, 10)` and `isNaN(v)`. Finally it
  models what the database makes of a value bound where an integer or a
  text is expected, where NULL never compares equal.
* `records.dfy` (module `Records`) defines the rows of the three tables and
  the status a handler answers with.
* `customers.dfy`, `employees.dfy` and `teams.dfy` hold one decision function
  per write handler. Each gives the status for a snapshot of the tables and
  a request, and each comes with the row the handler writes. Lemmas state
  the rules and the gaps.
* `store.dfy` (module `Store`) has the class `Database`. Its fields are the
  three tables and their id sequences. Each method runs one handler's checks
  in the handler's order and then writes. Its contract ties the status and
  the new tables to the decision function and keeps `Valid()`. The customer
  creation keeps phone numbers unique, and the team writes keep names unique.
  The full customer update does not keep phone numbers unique.
* `listing.dfy` (module `Listing`) models which rows `GET /customers`,
  `GET /customers/check`, `GET /employees` and `GET /teams` select. It also
  models the role label they print and their pagination arithmetic.

The authenticated user id (`req.userId`, taken from the bearer token in the `Authorization` header) is a
parameter named `actor`. The database clock (`NOW()`) is a parameter named
`now`. A bcrypt hash is the value `Hash(input)`, so it stands for "some
hash of input".

Where the code and the documented behaviour disagree, the model follows the
code:

* A non-admin deleting a customer whose status is the text "2" gets 400, not 403.
* The status-transition table is commented out, so any integer target is accepted.
* A phone number some customer already holds makes `POST /customers` answer
  400. There is no separate conflict answer.
* The author columns are taken from the request body, not from the acting
  user. `updated_by` comes from the body in every customer write and in the
  team rename, and the customer creation copies it into `created_by`. The
  status update writes NULL instead when the stored status reads as 2.
* Some time columns come from the body, not from the clock: `created_at` in
  the customer creation and `updated_at` in the status update.
* A value the SQL text names that is `undefined` makes the query library
  throw, and the handler answers 500. This happens, for example, when a
  customer body leaves out `note`, or a rename leaves out `updated_by`.
* `POST /customers`, `PUT /customers/:id`, `POST /employees`,
  `PUT /employees/reset`, `POST /teams` and `PUT /teams/:id` are mounted
  without `extractUserId`, so they check no caller at all. Anyone may create
  an admin (`user_role: "0"`), reset any employee's password or rename a
  team. The decision functions of these handlers take no acting user, as
  the code does.
* An unknown acting user does not get one single answer. The status update
  answers 403 and the employee listing 404. The delete and the customer
  listings answer 500, because `userInfo[0]` (server.js:771) and
  `userResult[0]` (server.js:243, 425) are undefined. The team
  listing returns an empty list.

## Model

| member | source | states |
|---|---|---|
| JsValues.ParseInt | server.js:933 | `parseInt` gives NaN for undefined, null and the booleans, and reads a string that is a whole integer as that integer |
| JsValues.NumberIsNaN | server.js:1012 | `isNaN` is true for undefined and false for a digit string; a non-blank string it accepts is a whole integer that `parseInt` reads the same way |
| JsValues.BindInt | server.js:510-516 | only null binds as NULL; a number binds as itself; a string the database accepts as an integer is the integer `parseInt` reads from it |
| JsValues.DecimalTextThenText | server.js:645-646 | `parseInt` reads back the number `String(n)` prints, whatever non-digit text follows it |
| JsValues.ParseIntOfNumber | server.js:933 | `parseInt` of a number is that number |
| JsValues.BindDecimalText | server.js:510-516 | the database reads the text of n bound as `:id` as the integer n |
| JsValues.IntLiteralOfDigits | server.js:1012 | a non-empty digit string denotes its decimal value, so `isNaN` accepts it |
| Customers.CreateRefusesTakenPhone | server.js:577-588 | a phone number held by any row makes the creation answer 400 |
| Customers.CreateKeepsPhonesUnique | server.js:573-616 | an accepted creation adds exactly one row and keeps phone numbers unique |
| Customers.CreateOutcome | server.js:573-616 | creation succeeds exactly with a phone number no row holds and every field the INSERT names defined; 400 for a missing or taken phone number; 500 when a named field is undefined; `created_by` and `updated_by` are both the body's `updated_by` |
| Customers.FullUpdateOutcome | server.js:501-549 | with a truthy `updated_by`, an existing row is overwritten exactly when every field the UPDATE names is defined, and 500 otherwise; phone number and status come from the body, and the creation columns are kept |
| Customers.FullUpdateCanDuplicatePhone | server.js:487-551 | the full update has no uniqueness check: it accepts a body that gives a second row an existing phone number |
| Customers.StatusCheckOrder | server.js:641-679 | 400 for a missing field, then 400 for a non-numeric `updated_by` or status, then 403 for an unknown actor, then 404 for an unknown customer |
| Customers.StatusOutcome | server.js:669-744 | for a complete, numeric body, a known actor and an existing row, the update is accepted exactly when the stored status does not read as 2 or the actor is admin or team lead, and every field the UPDATE names is defined |
| Customers.StatusClosedNeedsPrivilege | server.js:681-693 | a stored status that parses as 2 with an actor neither admin nor team lead gives 403, whatever the target |
| Customers.StatusTargetUnchecked | server.js:695-714 | the target status does not affect the decision: an accepted update stays accepted with any integer target |
| Customers.StoredStatusOfText | server.js:669-681 | a status column holding n, as text or number, is read back as n |
| Customers.AdminReopensToNew | server.js:684-744 | an admin may move a customer from status 2 to 0 when every field the UPDATE names is defined, and gets 500 otherwise; the row gets status 0 and `updated_by` NULL |
| Customers.StatusAttribution | server.js:645-726 | the row records the number from the body's `updated_by` (not the actor), or NULL when the stored status is 2 |
| Customers.StatusWriterIgnoresSuffix | server.js:645 | `updated_by: "7 (Lan)"` is recorded as 7 |
| Customers.StatusKeepsPhone | server.js:717-728 | the status update leaves the phone number and the creation columns unchanged, and takes `updated_at` from the body |
| Customers.AdminDeletes | server.js:754-794 | an admin deletes any integer id: that row is gone and every other row stays |
| Customers.DeleteMissingSucceeds | server.js:789-794 | deleting an id that no row has answers success and changes nothing |
| Customers.NonAdminDelete | server.js:773-794 | a non-admin gets 400 exactly when the stored status is the text "2", and success otherwise |
| Customers.DeleteAndStatusGuardsDisagree | server.js:681-781 | status text "02" blocks a plain member's status update but not their delete |
| Employees.CreateEmployeeOutcome | server.js:920-936 | a missing username, name or team id answers 400, a team id that does not parse answers 400, and creation is accepted exactly when all three are present, the username is a string and the team id parses |
| Employees.NewEmployeeRole | server.js:920-958 | admin exactly for role "0", team lead exactly for role "1", never both; first login forced; the status is the body's when truthy and "1" otherwise |
| Employees.NewEmployeeTeam | server.js:924-956 | a team id sent as a number or as its decimal text is accepted and stored as that number |
| Employees.ResetExisting | server.js:974-993 | resetting an integer id succeeds exactly when the employee exists and answers 404 otherwise; only the password, now a hash of the username, and the first-login flag change |
| Employees.UpdateOthersForbidden | server.js:1027-1041 | an actor neither admin nor team lead gets 403 when updating another employee |
| Employees.UpdateMissingTarget | server.js:1018-1025 | updating an id no row has answers 404, whoever asks |
| Employees.UpdatePrivilegedAllowed | server.js:1027-1073 | an admin or team lead may update any existing employee when some field is truthy |
| Employees.UpdateSelfAllowed | server.js:1012-1073 | an employee may update their own row without privilege when some field is truthy |
| Employees.UpdateNothingRefused | server.js:1027-1073 | an update by a privileged actor, or by the employee themselves, with no truthy field answers 400 |
| Employees.PatchedChangesOnlySupplied | server.js:1043-1083 | only supplied fields change, `updated_by` is the actor, `updated_at` is now, and the role flags never change |
| Employees.PatchedPasswordUnhashed | server.js:1055-1058 | a password sent to the update is stored as sent, not hashed |
| Teams.CreateKeepsNamesUnique | server.js:1230-1257 | an accepted team creation keeps team names unique |
| Teams.CreateRefusesTakenName | server.js:1237-1248 | a name held by any team makes the creation answer 400 |
| Teams.RenameKeepsNamesUnique | server.js:1273-1325 | an accepted rename keeps team names unique |
| Teams.RenameToOwnName | server.js:1275-1325 | renaming a team to its own current name succeeds exactly when that name is not empty and `updated_by` is defined, whatever other teams exist |
| Teams.RenameDuplicateCheck | server.js:1297-1310 | renaming a team to a name another team holds answers 400 |
| Store.Push | server.js:1047-1050 | the column joins the list exactly when its field is truthy; no other column is added or removed |
| Store.BuildUpdate | server.js:1043-1070 | the SET list has a column exactly for each truthy field, is empty exactly when nothing is supplied, and the row is the patch |
| Store.Database.CreateCustomer | server.js:559-623 | status as `CreateVerdict`, including 500 for an undefined field; on success one row under a fresh id; unique phones preserved; other tables and id sequences unchanged |
| Store.Database.UpdateCustomer | server.js:487-556 | status as `FullUpdateVerdict`, including 500 for an undefined field; on success the row with that id is overwritten, otherwise nothing changes |
| Store.Database.UpdateCustomerStatus | server.js:625-751 | status as `StatusVerdict`, including 500 for an undefined field; on success the row becomes `StatusUpdated`; the second 403 guard is shown unreachable |
| Store.Database.DeleteCustomer | server.js:754-799 | status as `DeleteVerdict`; on success the table is `AfterDelete` |
| Store.Database.CreateEmployee | server.js:920-968 | status as `CreateEmployeeVerdict`, including 500 for a username bcrypt cannot hash; on success `NewEmployee` under a fresh id |
| Store.Database.ResetEmployee | server.js:974-1000 | status as `ResetVerdict`; on success only that user's password and first-login flag change |
| Store.Database.UpdateEmployee | server.js:1005-1090 | status as `UpdateEmployeeVerdict`; on success the row becomes `Patched` |
| Store.Database.CreateTeam | server.js:1230-1267 | status as `CreateTeamVerdict`; on success `NewTeam` under a fresh id; unique names preserved |
| Store.Database.RenameTeam | server.js:1273-1335 | status as `RenameVerdict`, including 500 for an undefined `updated_by`; on success the team becomes `Renamed`; unique names preserved |
| Listing.AuthorLabel | server.js:265-278 | only an author naming an existing user is labelled other than 'Nhân viên': 'Quản lý' for an admin, 'Tổ trưởng' for a team lead who is not admin |
| Listing.LabelPrecedence | server.js:265-274 | 'Quản lý' exactly for admins, 'Tổ trưởng' for team leads who are not admins, 'Nhân viên' otherwise |
| Listing.UnknownAuthorIsStaff | server.js:277-278 | an author column that is NULL or names no user is labelled 'Nhân viên' |
| Listing.PageWindow | server.js:227-232 | page and limit are never 0; a missing page is 1 and a missing limit is 10 |
| Listing.PageWindowDefaults | server.js:227-232 | a missing, non-numeric or zero page or limit gives page 1 of 10 rows at offset 0 |
| Listing.PageWindowLimit | server.js:228 | the limit is never 0 and is the parsed value when that is a non-zero number |
| Listing.PagesAdjoin | server.js:227-232 | when the page parameters read as n and n+1, page n+1 starts where page n ends, for any limit |
| Listing.CeilDivPositive | server.js:317 | `Math.ceil` of a division by a positive limit is the ceiling |
| Listing.TotalPages | server.js:317 | with a positive limit the page count is the fewest pages that hold every row |
| Listing.TotalPagesCover | server.js:317 | with a positive limit the pages hold every counted row, the last page is not empty, and 0 rows give 0 pages |
| Listing.TeamsPageNumber | server.js:1164-1165 | a team page number is at least 1, a valid one is kept, and a missing one is NaN |
| Listing.ListCustomers | server.js:248-283 | 500 exactly for an unknown actor; otherwise customers only, and without a search term a member's rows are all of their own team |
| Listing.TotalMatchesUnsearched | server.js:256-286 | without a search term the reported total is the number of rows selected |
| Listing.SearchLeaksOtherTeams | server.js:248-283 | as written, a member's name search lists another team's customer |
| Listing.SearchLeakIsByName | server.js:248-283 | as written, a member sees another team's customer only through a name match |
| Listing.IntendedStaysInTeam | server.js:256-259 | with the corrected filter, a member sees only their own team's customers |
| Listing.IntendedListingScope | server.js:248-283 | the corrected listing keeps to the member's team and is a subset of the listing as written |
| Listing.IntendedWithinTotal | server.js:286 | with the corrected filter, a search never returns more rows than the total reports |
| Listing.IntendedAgreesOtherwise | server.js:248-259 | for admins, and without a search term, the corrected filter and the written one agree |
| Listing.ListCheck | server.js:426-458 | 500 exactly for an unknown actor; otherwise customers only, including every customer whose name matches the search |
| Listing.CheckIgnoresActor | server.js:426-454 | `/customers/check` returns the same rows to every known user, because the team filter it builds is never used |
| Listing.CheckShowsAllTeams | server.js:453-466 | without a search term `/customers/check` shows a member every customer of every team |
| Listing.ListEmployees | server.js:857-889 | 404 exactly for an unknown actor; otherwise the rows are users who are not admins |
| Listing.EmployeeListingScope | server.js:857-889 | admins are never listed; a non-admin sees only their own team; an admin sees every non-admin |
| Listing.ListTeams | server.js:1171-1188 | only existing teams are listed, and none for an unknown actor |
| Listing.TeamListingScope | server.js:1171-1187 | an admin sees every team; anyone else sees at most their own team |

## Left out

- The database connection set-up (config/database.js) and the JWT check (`extractUserId`), which reads the bearer token from the `Authorization` header. The actor id is a parameter.
- Login, logout and both password-change endpoints (server.js:38-221). They handle authentication, cookies and JWTs, which are outside the modelled core. Only login (server.js:58) and `POST /auth/update-password` (server.js:185-190) compare bcrypt hashes. Logout only clears the cookie. `PUT /auth/update-password` hashes the new password and overwrites it by username, with no old-password check and no token.
- `PUT /users` (server.js:807-845), the statistics endpoint (server.js:1097-1154) and `/customers/export` (server.js:329-390). They are outside the modelled core.
- Row order (`ORDER BY`, including the user-controlled ORDER BY text), `LIMIT`/`OFFSET` windows and the JSON shape of answers. A listing is modelled as the set of ids it selects.
- ILIKE case folding and the `%` and `_` wildcards inside a search term. A match is a plain substring test.
- `parseInt` without a radix on page and limit (server.js:227-228) reads "0x10" as 16. The model uses radix 10 throughout. Numbers of magnitude 1e21 or more, which `String` prints with an exponent, are not modelled.
- NumberIsNaN: only integer text counts as numeric. Decimal, exponent and hexadecimal strings and "Infinity"/"-Infinity" are not modelled. So `PUT /employees` with `id: "Infinity"` answers 400 in the model, where the handler passes `isNaN` and fails in the query with 500.
- ParseInt, BindInt, NumberIsNaN: white space is only space, tab, CR and LF. JavaScript also skips vertical tab, form feed and Unicode spaces (`parseInt("\v7")` is 7), and PostgreSQL's integer input skips `\v` and `\f`. The model reads such text as NaN or as a query error.
- Column types and the constraints the database enforces on writes and comparisons (type errors, foreign keys, the 32-bit range of integer columns). A stored value is the value bound, and a text column is compared with the text of the bound value. For example, a JSON number or boolean `phone_number` makes `WHERE phone_number = :phone_number` (server.js:578-584) an operator error, and the handler answers 500. `CreateVerdict` compares the number's text instead and can answer Ok.
- Any write that the database itself would reject with a 500. Modelled are the failures the handlers decide for themselves, a non-integer id in a WHERE clause, an undefined value for a name the SQL text uses, and a non-string username passed to bcrypt.
- Numbers are integers: a JSON body cannot carry a fraction in this model. A status of 2.5 would be stored as the text "2.5". The status guard would read it as 2 through `parseInt`, but the delete guard's comparison with "2" would fail. This divergence is not captured.
- Arrays and objects in a request body are not modelled. A field holds undefined, null, a boolean, an integer or a string.
- A negative page or limit makes PostgreSQL reject `LIMIT`/`OFFSET`, and the listing answers 500 before `Math.ceil` runs. So only a positive limit's page count is stated (`Listing.TotalPages`, `Listing.TotalPagesCover`).
- Logging and server start-up.
- Concurrency: each handler runs alone. The race between the phone check and the INSERT is not modelled.
- Username uniqueness is not checked by `POST /employees`. It would rest on a database constraint, which is not part of this model.
- The status column is assumed to hold text, as its comparison with the string "2" in the delete handler implies.

## Findings

| source | as written | input that shows it | evidently intended | confidence | as-written member | corrected member |
|---|---|---|---|---|---|---|
| server.js:248-283 | `WHERE 1=1 AND full_name ILIKE :search OR phone_number ILIKE :search AND team_id = :team_id`: AND binds tighter than OR, so a name match skips the team filter | a member of team 1 searching "Lan" while team 2 has a customer named "Lan" | the search narrows the member's own team: `(name OR phone) AND team` | high, not executed | Listing.SearchLeaksOtherTeams | Listing.IntendedStaysInTeam |
