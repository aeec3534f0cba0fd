/** The decisions of the customer handlers in server.js: for each handler,
    the outcome it reports for a snapshot of the tables and a request, and the
    row it writes when the outcome is Ok. The Database class (store.dfy)
    performs the same steps in place and is proved to agree with these. */
module Customers {
  import opened JsValues
  import opened Records

  /** The fields a customer handler takes from `req.body`. */
  datatype CustomerBody = CustomerBody(
    id: JsVal,
    full_name: JsVal,
    year_of_birth: JsVal,
    phone_number: JsVal,
    note: JsVal,
    role_note: JsVal,
    status: JsVal,
    team_id: JsVal,
    updated_by: JsVal,
    updated_at: JsVal,
    created_at: JsVal)

  /** No two rows hold the same phone number. */
  ghost predicate UniquePhones(customers: map<int, Customer>) {
    forall i, j | i in customers && j in customers && i != j ::
      !SqlTextEq(customers[i].phone_number, customers[j].phone_number)
  }

  // -----------------------------------------------------------------------
  // POST /customers

  /** `SELECT * FROM "Customer" WHERE phone_number = :phone_number` finds a row. */
  predicate PhoneTaken(customers: map<int, Customer>, phone: JsVal) {
    exists k | k in customers :: SqlTextEq(customers[k].phone_number, phone)
  }

  /** Every field the INSERT names has a value: the query library refuses a
      named replacement that is undefined, and the handler answers 500. */
  predicate CreateFieldsBound(b: CustomerBody) {
    && b.full_name != Undefined && b.year_of_birth != Undefined && b.note != Undefined
    && b.role_note != Undefined && b.status != Undefined && b.team_id != Undefined
    && b.updated_by != Undefined && b.created_at != Undefined
  }

  function CreateVerdict(customers: map<int, Customer>, b: CustomerBody): Status {
    if !Truthy(b.phone_number) then BadRequest
    else if PhoneTaken(customers, b.phone_number) then BadRequest
    else if !CreateFieldsBound(b) then ServerError
    else Ok
  }

  /** The inserted row: `created_by` is bound to the body's `updated_by`. */
  function NewCustomer(b: CustomerBody, now: int): Customer {
    Customer(
      full_name := b.full_name,
      year_of_birth := b.year_of_birth,
      phone_number := b.phone_number,
      note := b.note,
      role_note := b.role_note,
      status := b.status,
      team_id := b.team_id,
      created_by := b.updated_by,
      created_at := b.created_at,
      updated_by := b.updated_by,
      updated_at := Num(now))
  }

  // -----------------------------------------------------------------------
  // PUT /customers/:id  (full update; `id` is the route parameter)

  /** Every field the UPDATE names has a value. */
  predicate FullUpdateFieldsBound(b: CustomerBody) {
    && b.full_name != Undefined && b.year_of_birth != Undefined && b.phone_number != Undefined
    && b.note != Undefined && b.role_note != Undefined && b.status != Undefined
    && b.team_id != Undefined
  }

  function FullUpdateVerdict(customers: map<int, Customer>, id: string, b: CustomerBody): Status {
    if id == "" then BadRequest
    else if !Truthy(b.updated_by) then BadRequest
    else match BindInt(Str(id))
      case Int(k) =>
        if k !in customers then NotFound
        else if !FullUpdateFieldsBound(b) then ServerError
        else Ok
      case _ => ServerError
  }

  /** Every column is overwritten from the body, phone number and status included. */
  function FullyUpdated(row: Customer, b: CustomerBody, now: int): Customer {
    row.(
      full_name := b.full_name,
      year_of_birth := b.year_of_birth,
      phone_number := b.phone_number,
      note := b.note,
      role_note := b.role_note,
      status := b.status,
      team_id := b.team_id,
      updated_by := b.updated_by,
      updated_at := Num(now))
  }

  // -----------------------------------------------------------------------
  // PUT /customers  (status update; `actor` is the authenticated user id)

  /** The body carries what the status handler needs, in the order it checks. */
  predicate StatusBodyPresent(b: CustomerBody) {
    Truthy(b.id) && b.status != Undefined && Truthy(b.updated_by)
  }

  predicate StatusBodyNumeric(b: CustomerBody) {
    ParseInt(b.updated_by).Some? && ParseInt(b.status).Some?
  }

  /** Every field the status UPDATE names has a value (`status` is checked
      earlier, and the written `updated_by` is a number or null). */
  predicate StatusFieldsBound(b: CustomerBody) {
    && b.full_name != Undefined && b.year_of_birth != Undefined && b.note != Undefined
    && b.role_note != Undefined && b.team_id != Undefined && b.updated_at != Undefined
  }

  /** The outcome of the status handler. No transition table is consulted:
      the only rule is that a row whose stored status reads as 2 may only be
      updated by an admin or a team lead. */
  function StatusVerdict(customers: map<int, Customer>, users: map<int, User>, actor: int, b: CustomerBody): Status {
    if !StatusBodyPresent(b) then BadRequest
    else if !StatusBodyNumeric(b) then BadRequest
    else if actor !in users then Forbidden
    else match BindInt(b.id)
      case SqlError => ServerError
      case SqlNull => NotFound
      case Int(k) =>
        if k !in customers then NotFound
        else if StoredStatus(customers[k]) == Some(2) && !Privileged(users[actor]) then Forbidden
        else if !StatusFieldsBound(b) then ServerError
        else Ok
  }

  /** The `updated_by` the status handler writes: the integer parsed from the
      body's `updated_by`, or NULL when the stored status reads as 2. */
  function StatusWriter(row: Customer, b: CustomerBody): JsVal
    requires StatusBodyNumeric(b)
  {
    if StoredStatus(row) == Some(2) then Null else Num(ParseInt(b.updated_by).value)
  }

  /** The row after an accepted status update: the status is written as sent,
      `updated_at` comes from the body, and phone number and creation columns
      are left alone. */
  function StatusUpdated(row: Customer, b: CustomerBody): Customer
    requires StatusBodyNumeric(b)
  {
    row.(
      full_name := b.full_name,
      year_of_birth := b.year_of_birth,
      note := b.note,
      role_note := b.role_note,
      team_id := b.team_id,
      status := b.status,
      updated_by := StatusWriter(row, b),
      updated_at := b.updated_at)
  }

  // -----------------------------------------------------------------------
  // DELETE /customers/:id

  /** A non-admin is refused when the stored status is the text "2". An
      unknown acting user makes `userInfo[0].is_admin` throw. */
  function DeleteVerdict(customers: map<int, Customer>, users: map<int, User>, actor: int, id: string): Status {
    if id == "" then BadRequest
    else if actor !in users then ServerError
    else match BindInt(Str(id))
      case Int(k) =>
        if !users[actor].is_admin && k in customers && TextOf(customers[k].status) == Some("2")
        then BadRequest
        else Ok
      case _ => ServerError
  }

  /** `DELETE FROM "Customer" WHERE id = :id`. */
  function AfterDelete(customers: map<int, Customer>, id: string): map<int, Customer> {
    match BindInt(Str(id))
    case Int(k) => customers - {k}
    case _ => customers
  }

  // -----------------------------------------------------------------------
  // Properties of creation

  /** A phone number already held by any row is refused, whatever else the body says. */
  lemma CreateRefusesTakenPhone(customers: map<int, Customer>, k: int, b: CustomerBody)
    requires k in customers && SqlTextEq(customers[k].phone_number, b.phone_number)
    ensures CreateVerdict(customers, b) == BadRequest
  {
  }

  /** An accepted creation adds exactly one row and never introduces a
      duplicate phone number. */
  lemma CreateKeepsPhonesUnique(customers: map<int, Customer>, newId: int, b: CustomerBody, now: int)
    requires UniquePhones(customers) && newId !in customers
    requires CreateVerdict(customers, b) == Ok
    ensures |customers[newId := NewCustomer(b, now)]| == |customers| + 1
    ensures UniquePhones(customers[newId := NewCustomer(b, now)])
  {
    var after := customers[newId := NewCustomer(b, now)];
    forall i, j | i in after && j in after && i != j
      ensures !SqlTextEq(after[i].phone_number, after[j].phone_number)
    {
      if i == newId {
        assert !SqlTextEq(customers[j].phone_number, b.phone_number);
      } else if j == newId {
        assert !SqlTextEq(customers[i].phone_number, b.phone_number);
      }
    }
  }

  /** Creation succeeds exactly when a phone number is given, no row holds
      it and every field the INSERT names is present. A missing or taken
      phone answers 400; a missing field otherwise answers 500. The new row
      is attributed to the body's `updated_by` as creator and last writer. */
  lemma CreateOutcome(customers: map<int, Customer>, b: CustomerBody, now: int)
    ensures CreateVerdict(customers, b) == Ok <==>
      Truthy(b.phone_number) && !PhoneTaken(customers, b.phone_number) && CreateFieldsBound(b)
    ensures CreateVerdict(customers, b) == BadRequest <==>
      !Truthy(b.phone_number) || PhoneTaken(customers, b.phone_number)
    ensures CreateVerdict(customers, b) == ServerError <==>
      Truthy(b.phone_number) && !PhoneTaken(customers, b.phone_number) && !CreateFieldsBound(b)
    ensures NewCustomer(b, now).created_by == b.updated_by && NewCustomer(b, now).updated_by == b.updated_by
    ensures NewCustomer(b, now).phone_number == b.phone_number
  {
  }

  /** The full update of an existing row checks nothing but a truthy
      `updated_by`: no role, phone or status rule applies. It succeeds when
      every column it writes is present in the body and answers 500
      otherwise. It takes phone number and status from the body and keeps
      the creation columns. */
  lemma FullUpdateOutcome(customers: map<int, Customer>, k: int, b: CustomerBody, now: int)
    requires k in customers && Truthy(b.updated_by)
    ensures FullUpdateVerdict(customers, DecimalText(k), b) == if FullUpdateFieldsBound(b) then Ok else ServerError
    ensures FullyUpdated(customers[k], b, now).phone_number == b.phone_number
    ensures FullyUpdated(customers[k], b, now).status == b.status
    ensures FullyUpdated(customers[k], b, now).created_by == customers[k].created_by
    ensures FullyUpdated(customers[k], b, now).created_at == customers[k].created_at
  {
    BindDecimalText(k);
    DecimalTextNonEmpty(k);
  }

  /** The full update has no uniqueness check: two rows with distinct phone
      numbers, and overwriting the second with the first's number is accepted. */
  lemma FullUpdateCanDuplicatePhone()
    ensures exists customers: map<int, Customer>, b: CustomerBody, now: int ::
      && UniquePhones(customers)
      && FullUpdateVerdict(customers, "2", b) == Ok
      && !UniquePhones(customers[2 := FullyUpdated(customers[2], b, now)])
  {
    var a := Customer(Null, Null, Str("0900000000"), Null, Null, Str("0"), Num(1), Num(1), Null, Num(1), Null);
    var c := a.(phone_number := Str("0911111111"));
    var customers := map[1 := a, 2 := c];
    var b := CustomerBody(Num(2), Null, Null, Str("0900000000"), Null, Null, Str("0"), Num(1), Num(1), Null, Null);
    assert UniquePhones(customers) by {
      assert "0900000000" != "0911111111" by {
        assert "0900000000"[2] != "0911111111"[2];
      }
    }
    var after := customers[2 := FullyUpdated(customers[2], b, 0)];
    assert !UniquePhones(after) by {
      assert SqlTextEq(after[1].phone_number, after[2].phone_number);
    }
    assert FullUpdateVerdict(customers, "2", b) == Ok by {
      assert DecimalText(2) == "2";
      BindDecimalText(2);
      assert FullUpdateFieldsBound(b);
    }
  }

  // -----------------------------------------------------------------------
  // Properties of the status update

  /** The checks run in a fixed order, each regardless of what the later
      ones would find: a missing field, then a non-numeric field, then an
      unknown acting user, then an unknown customer. */
  lemma StatusCheckOrder(customers: map<int, Customer>, users: map<int, User>, actor: int, b: CustomerBody)
    ensures !StatusBodyPresent(b) ==> StatusVerdict(customers, users, actor, b) == BadRequest
    ensures StatusBodyPresent(b) && !StatusBodyNumeric(b) ==> StatusVerdict(customers, users, actor, b) == BadRequest
    ensures StatusBodyPresent(b) && StatusBodyNumeric(b) && actor !in users ==>
      StatusVerdict(customers, users, actor, b) == Forbidden
    ensures StatusBodyPresent(b) && StatusBodyNumeric(b) && actor in users && BindInt(b.id).Int? && BindInt(b.id).i !in customers ==>
      StatusVerdict(customers, users, actor, b) == NotFound
  {
  }

  /** A stored status of 2 and an actor who is neither admin nor team lead:
      refused, whatever status is requested. */
  lemma StatusClosedNeedsPrivilege(customers: map<int, Customer>, users: map<int, User>, actor: int, b: CustomerBody, k: int)
    requires StatusBodyPresent(b) && StatusBodyNumeric(b)
    requires actor in users && !Privileged(users[actor])
    requires BindInt(b.id) == Int(k) && k in customers && StoredStatus(customers[k]) == Some(2)
    ensures StatusVerdict(customers, users, actor, b) == Forbidden
  {
  }

  /** Once the body is complete and numeric, the actor known and the row
      found, the update is accepted exactly when the stored status does not
      read as 2 or the actor is an admin or a team lead, and every column the
      UPDATE names has a value. */
  lemma StatusOutcome(customers: map<int, Customer>, users: map<int, User>, actor: int, b: CustomerBody, k: int)
    requires StatusBodyPresent(b) && StatusBodyNumeric(b)
    requires actor in users && BindInt(b.id) == Int(k) && k in customers
    ensures StatusVerdict(customers, users, actor, b) == Ok <==>
      (StoredStatus(customers[k]) != Some(2) || Privileged(users[actor])) && StatusFieldsBound(b)
  {
  }

  /** The target status takes no part in the decision: an accepted update is
      accepted with any other target that parses as an integer. */
  lemma StatusTargetUnchecked(customers: map<int, Customer>, users: map<int, User>, actor: int, b: CustomerBody, target: JsVal)
    requires StatusVerdict(customers, users, actor, b) == Ok
    requires target != Undefined && ParseInt(target).Some?
    ensures StatusVerdict(customers, users, actor, b.(status := target)) == Ok
  {
    var b' := b.(status := target);
    assert StatusBodyPresent(b) && StatusBodyNumeric(b);
    assert StatusBodyPresent(b') && StatusBodyNumeric(b');
    assert BindInt(b'.id) == BindInt(b.id);
  }

  /** A status column holding the text of n reads back as n. */
  lemma StoredStatusOfText(row: Customer, n: int)
    requires row.status == Str(DecimalText(n)) || row.status == Num(n)
    ensures StoredStatus(row) == Some(n)
  {
    DecimalTextThenText(n, []);
    assert DecimalText(n) + [] == DecimalText(n);
  }

  /** For instance, an admin may move a customer from status 2 back to 0, a
      move the declared transition table does not list. */
  lemma AdminReopensToNew(customers: map<int, Customer>, users: map<int, User>, actor: int, b: CustomerBody, k: int)
    requires actor in users && users[actor].is_admin
    requires k in customers && customers[k].status == Num(2)
    requires b.id == Num(k) && b.status == Num(0) && b.updated_by == Num(actor)
    requires k != 0 && actor != 0
    ensures StatusVerdict(customers, users, actor, b) == if StatusFieldsBound(b) then Ok else ServerError
    ensures StatusUpdated(customers[k], b).status == Num(0)
    ensures StatusUpdated(customers[k], b).updated_by == Null
  {
    ParseIntOfNumber(0);
    ParseIntOfNumber(actor);
    assert StatusBodyPresent(b) && StatusBodyNumeric(b);
    StoredStatusOfText(customers[k], 2);
    assert StatusWriter(customers[k], b) == Null;
  }

  /** Attribution: the writer is the number sent in the body's `updated_by`
      (not the authenticated actor), or NULL when the stored status reads as 2. */
  lemma StatusAttribution(row: Customer, b: CustomerBody, writer: int)
    requires StatusBodyNumeric(b)
    requires b.updated_by == Num(writer) || b.updated_by == Str(DecimalText(writer))
    ensures StoredStatus(row) == Some(2) ==> StatusUpdated(row, b).updated_by == Null
    ensures StoredStatus(row) != Some(2) ==> StatusUpdated(row, b).updated_by == Num(writer)
  {
    ParseIntOfNumber(writer);
  }

  /** `parseInt` ignores trailing text, so `updated_by: "7 (Lan)"` is written as 7. */
  lemma StatusWriterIgnoresSuffix(row: Customer, b: CustomerBody, writer: int, rest: string)
    requires rest == [] || !IsDigit(rest[0])
    requires b.updated_by == Str(DecimalText(writer) + rest) && ParseInt(b.status).Some?
    requires StoredStatus(row) != Some(2)
    ensures StatusBodyNumeric(b)
    ensures StatusUpdated(row, b).updated_by == Num(writer)
  {
    DecimalTextThenText(writer, rest);
  }

  /** An accepted status update leaves the phone number and the creation
      columns of the row as they were, and takes `updated_at` from the body. */
  lemma StatusKeepsPhone(row: Customer, b: CustomerBody)
    requires StatusBodyNumeric(b)
    ensures StatusUpdated(row, b).phone_number == row.phone_number
    ensures StatusUpdated(row, b).created_by == row.created_by
    ensures StatusUpdated(row, b).created_at == row.created_at
    ensures StatusUpdated(row, b).updated_at == b.updated_at
  {
  }

  // -----------------------------------------------------------------------
  // Properties of deletion

  /** An admin deletes any id that the database reads as an integer; no row
      with that id remains, and every other row is kept. */
  lemma AdminDeletes(customers: map<int, Customer>, users: map<int, User>, actor: int, k: int)
    requires actor in users && users[actor].is_admin
    ensures DeleteVerdict(customers, users, actor, DecimalText(k)) == Ok
    ensures k !in AfterDelete(customers, DecimalText(k))
    ensures forall j | j in customers && j != k :: j in AfterDelete(customers, DecimalText(k))
  {
    BindDecimalText(k);
    DecimalTextNonEmpty(k);
  }

  /** Deleting an id that no row has still reports success and changes nothing. */
  lemma DeleteMissingSucceeds(customers: map<int, Customer>, users: map<int, User>, actor: int, k: int)
    requires actor in users && k !in customers
    ensures DeleteVerdict(customers, users, actor, DecimalText(k)) == Ok
    ensures AfterDelete(customers, DecimalText(k)) == customers
  {
    BindDecimalText(k);
    DecimalTextNonEmpty(k);
  }

  /** A non-admin is refused exactly when the stored status is the text "2". */
  lemma NonAdminDelete(customers: map<int, Customer>, users: map<int, User>, actor: int, k: int)
    requires actor in users && !users[actor].is_admin && k in customers
    ensures DeleteVerdict(customers, users, actor, DecimalText(k)) == BadRequest <==>
      TextOf(customers[k].status) == Some("2")
    ensures DeleteVerdict(customers, users, actor, DecimalText(k)) != BadRequest ==>
      DeleteVerdict(customers, users, actor, DecimalText(k)) == Ok
  {
    BindDecimalText(k);
    DecimalTextNonEmpty(k);
  }

  /** The delete guard compares text while the status guard parses an
      integer: a row whose status is the text "02" is closed for the status
      handler but not for the delete handler, so a plain member may delete
      a customer it may not update. */
  lemma DeleteAndStatusGuardsDisagree(customers: map<int, Customer>, users: map<int, User>, actor: int, k: int, b: CustomerBody)
    requires actor in users && !Privileged(users[actor])
    requires k in customers && customers[k].status == Str("02")
    requires StatusBodyPresent(b) && StatusBodyNumeric(b) && BindInt(b.id) == Int(k)
    ensures StatusVerdict(customers, users, actor, b) == Forbidden
    ensures DeleteVerdict(customers, users, actor, DecimalText(k)) == Ok
  {
    ZeroTwoReadsAsTwo(customers[k]);
    assert TextOf(customers[k].status) != Some("2") by {
      assert |"02"| != |"2"|;
    }
    BindDecimalText(k);
    DecimalTextNonEmpty(k);
  }

  /** `parseInt("02", 10)` is 2. */
  lemma ZeroTwoReadsAsTwo(row: Customer)
    requires row.status == Str("02")
    ensures StoredStatus(row) == Some(2)
  {
    assert TextOf(row.status) == Some("02");
    ParseDigits("02", []);
    assert "02" + [] == "02";
    assert DigitsValue("02") == 2 by {
      assert "02"[..1] == "0";
      assert "0"[..0] == "";
    }
  }
}
