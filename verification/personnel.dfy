/** The personnel table and the PersonnelController actions over it. Every action is scoped by
    the caller's `client_id`: this is the only tenant isolation the API routes get, since the
    cookie middleware skips every path under `api/`. `destroy` is a soft delete that sets
    `active` to '0'. */
module Personnel {
  import opened Wrappers
  import opened Auth
  import Query

  const Active: string := "1"
  const Inactive: string := "0"

  /** A row of the personnel table. The table has no salary and no address column, and its
      phone column is `phone_number`. `qapiPersonnelId` is the external system's id, a unique
      column; `None` is a null the column declaration does not in fact allow (see
      `PersonnelTable.Store`). Timestamps are Unix seconds. */
  datatype PersonnelRow = PersonnelRow(
    id: int,
    qapiPersonnelId: Option<int>,
    clientId: int,
    firstName: string,
    lastName: string,
    email: Option<string>,
    phoneNumber: Option<string>,
    position: Option<string>,
    department: Option<string>,
    hireDate: Option<string>,
    createdOn: int,
    updatedOn: int,
    createdBy: int,
    updatedBy: Option<int>,
    active: string)

  function RowId(p: PersonnelRow): int { p.id }
  function CreatedOn(p: PersonnelRow): int { p.createdOn }

  /** The rows of one tenant, active or not. */
  function OfClient(clientId: int): PersonnelRow -> bool {
    (p: PersonnelRow) => p.clientId == clientId
  }

  /** The rows `index` selects for a tenant. */
  function OfTenant(clientId: int): PersonnelRow -> bool {
    (p: PersonnelRow) => p.clientId == clientId && p.active == Active
  }

  /** The fields of a store or update request, after validation (so both names are present). */
  datatype PersonnelInput = PersonnelInput(
    firstName: string,
    lastName: string,
    email: Option<string>,
    position: Option<string>,
    department: Option<string>,
    hireDate: Option<string>,
    salary: Option<int>,
    phone: Option<string>,
    address: Option<string>)

  /** One entry of the `index` response (the hire date unformatted). */
  datatype PersonnelView = PersonnelView(
    id: int,
    firstName: string,
    lastName: string,
    email: string,
    position: string,
    department: string,
    hireDate: string,
    salary: int,
    status: string,
    phone: string,
    address: string)

  datatype PersonnelIndex = PersonnelIndex(personnel: seq<PersonnelView>, total: nat)

  /** The row as the frontend sees it: a stored email, position, department or hire date is
      shown as stored; a missing email, position or hire date reads "N/A", a missing department
      "General". Salary, phone and address are read from attributes the
      row does not have, so they are always 0, "N/A" and "N/A". */
  function Present(p: PersonnelRow): (v: PersonnelView)
    ensures v.id == p.id && v.firstName == p.firstName && v.lastName == p.lastName
    ensures v.status == "active" <==> p.active == Active
    ensures if p.email.Some? then v.email == p.email.value else v.email == "N/A"
    ensures if p.position.Some? then v.position == p.position.value else v.position == "N/A"
    ensures if p.department.Some? then v.department == p.department.value else v.department == "General"
    ensures if p.hireDate.Some? then v.hireDate == p.hireDate.value else v.hireDate == "N/A"
    ensures v.salary == 0 && v.phone == "N/A" && v.address == "N/A"
  {
    PersonnelView(
      p.id, p.firstName, p.lastName,
      p.email.GetOr("N/A"), p.position.GetOr("N/A"), p.department.GetOr("General"),
      p.hireDate.GetOr("N/A"),
      0,
      if p.active == Active then "active" else "inactive",
      "N/A", "N/A")
  }

  /** `Personnel::where('client_id', clientId)->where('active', '1')
      ->orderBy('created_on', 'desc')->get()`. */
  function Listed(rows: seq<PersonnelRow>, clientId: int): (r: seq<PersonnelRow>)
    ensures |r| == |Query.Where(rows, OfTenant(clientId))|
    ensures forall p :: p in r <==> p in rows && p.clientId == clientId && p.active == Active
    ensures Query.Descending(r, CreatedOn)
  {
    var selected := Query.Where(rows, OfTenant(clientId));
    var sorted := Query.OrderByDesc(selected, CreatedOn);
    assert forall p :: p in selected <==> p in rows && p.clientId == clientId && p.active == Active;
    assert forall p :: p in sorted <==> p in multiset(sorted);
    sorted
  }

  /** `index`: the caller's tenant's active personnel, newest first, as `Present` shows them. */
  function Index(rows: seq<PersonnelRow>, user: User): (r: PersonnelIndex)
    ensures r.total == |r.personnel| == |Query.Where(rows, OfTenant(user.clientId))|
    ensures forall i :: 0 <= i < |r.personnel| ==> r.personnel[i] == Present(Listed(rows, user.clientId)[i])
  {
    var listed := Listed(rows, user.clientId);
    var views := seq(|listed|, i requires 0 <= i < |listed| => Present(listed[i]));
    PersonnelIndex(views, |views|)
  }

  /** `index` lists every active row of the caller's tenant. */
  lemma IndexListsOwnActivePersonnel(rows: seq<PersonnelRow>, user: User)
    ensures forall p :: p in rows && p.clientId == user.clientId && p.active == Active ==>
              Present(p) in Index(rows, user).personnel
  {
    var listed, views := Listed(rows, user.clientId), Index(rows, user).personnel;
    forall p | p in rows && p.clientId == user.clientId && p.active == Active
      ensures Present(p) in views
    {
      assert p in listed;
      var i :| 0 <= i < |listed| && listed[i] == p;
      assert views[i] == Present(p);
    }
  }

  /** `index` lists nothing but active rows of the caller's tenant: no row of another tenant
      and no deactivated row, so every entry reads "active". */
  lemma IndexListsOnlyOwnActivePersonnel(rows: seq<PersonnelRow>, user: User)
    ensures forall v :: v in Index(rows, user).personnel ==>
              exists p :: p in rows && p.clientId == user.clientId && p.active == Active && v == Present(p)
    ensures forall v :: v in Index(rows, user).personnel ==> v.status == "active"
  {
    var listed, views := Listed(rows, user.clientId), Index(rows, user).personnel;
    forall v | v in views
      ensures exists p :: p in rows && p.clientId == user.clientId && p.active == Active && v == Present(p)
      ensures v.status == "active"
    {
      var i :| 0 <= i < |views| && views[i] == v;
      var p := listed[i];
      assert p in listed;
      assert v == Present(p);
    }
  }

  /** The rows behind `index` come newest first. */
  lemma IndexNewestFirst(rows: seq<PersonnelRow>, user: User)
    ensures forall i, j :: 0 <= i < j < |Index(rows, user).personnel| ==>
              Listed(rows, user.clientId)[i].createdOn >= Listed(rows, user.clientId)[j].createdOn
  {
    var listed := Listed(rows, user.clientId);
    forall i, j | 0 <= i < j < |listed| ensures listed[i].createdOn >= listed[j].createdOn {
      assert CreatedOn(listed[i]) >= CreatedOn(listed[j]);
    }
  }

  /** Tenant isolation of `index`: two tables that hold the same rows for the caller's tenant
      give the caller the same answer, whatever other tenants hold. */
  lemma IndexNonInterference(rows1: seq<PersonnelRow>, rows2: seq<PersonnelRow>, user: User)
    requires Query.Where(rows1, OfClient(user.clientId)) == Query.Where(rows2, OfClient(user.clientId))
    ensures Index(rows1, user) == Index(rows2, user)
  {
    var cid := user.clientId;
    Query.WhereNarrows(rows1, OfClient(cid), OfTenant(cid));
    Query.WhereNarrows(rows2, OfClient(cid), OfTenant(cid));
    assert Listed(rows1, cid) == Listed(rows2, cid);
  }

  /** `Personnel::where('id', id)->where('client_id', clientId)->where('active', '1')->first()`. */
  function FindOwnActive(rows: seq<PersonnelRow>, id: int, clientId: int): (r: Option<nat>)
    ensures r.Some? ==> r.value < |rows| && rows[r.value].id == id
                        && rows[r.value].clientId == clientId && rows[r.value].active == Active
    ensures r.None? <==> forall p :: p in rows ==> !(p.id == id && p.clientId == clientId && p.active == Active)
  {
    Query.First(rows, (p: PersonnelRow) => p.id == id && p.clientId == clientId && p.active == Active)
  }

  /** The row `update` writes: the request's fillable fields replace the stored ones (salary,
      phone, address and `updated_by` are not fillable and are dropped); `updated_on` moves to
      `now` when some column actually changed. */
  function Revised(p: PersonnelRow, input: PersonnelInput, now: int): PersonnelRow {
    var filled := p.(firstName := input.firstName, lastName := input.lastName, email := input.email,
                     position := input.position, department := input.department,
                     hireDate := input.hireDate);
    if filled == p then p else filled.(updatedOn := now)
  }

  /** The row `destroy` writes (`updated_by` is not fillable and is dropped). */
  function Deactivated(p: PersonnelRow, now: int): PersonnelRow {
    p.(active := Inactive, updatedOn := now)
  }

  /** Once deactivated, a row is neither found by `update` or `destroy` (a second `destroy`
      answers 404) nor listed by `index`. */
  lemma DeactivatedPersonnelHidden(rows: seq<PersonnelRow>, i: nat, now: int, user: User)
    requires i < |rows|
    requires Query.Unique(rows, RowId)
    ensures FindOwnActive(rows[i := Deactivated(rows[i], now)], rows[i].id, user.clientId).None?
    ensures forall v :: v in Index(rows[i := Deactivated(rows[i], now)], user).personnel ==> v.id != rows[i].id
  {
    var after := rows[i := Deactivated(rows[i], now)];
    forall p | p in after && p.id == rows[i].id ensures p.active != Active {
      var j :| 0 <= j < |after| && after[j] == p;
      assert RowId(rows[j]) == RowId(rows[i]);
    }
    IndexListsOnlyOwnActivePersonnel(after, user);
  }

  /** The responses of the store, update and destroy actions. */
  datatype PersonnelResponse =
    | Created(personnel: PersonnelRow)
    | Updated(personnel: PersonnelRow)
    | Deleted
    | NotFound
    | ServerError
  {
    function Status(): int {
      match this
      case Created(_) => 201
      case Updated(_) => 200
      case Deleted => 200
      case NotFound => 404
      case ServerError => 500
    }
  }

  /** No two rows hold the same external id (the unique index; nulls never clash). */
  ghost predicate ExternalIdsUnique(rows: seq<PersonnelRow>) {
    forall i, j ::
      (0 <= i < |rows| && 0 <= j < |rows| && rows[i].qapiPersonnelId.Some? &&
       rows[i].qapiPersonnelId == rows[j].qapiPersonnelId) ==> i == j
  }

  /** Some row already holds the external id 0. */
  predicate ZeroExternalIdTaken(rows: seq<PersonnelRow>) {
    exists i :: 0 <= i < |rows| && rows[i].qapiPersonnelId == Some(0)
  }

  /** The personnel table: rows in storage order and the next auto-increment id. */
  class PersonnelTable {
    var rows: seq<PersonnelRow>
    var nextId: int

    ghost predicate Valid()
      reads this
    {
      && 0 < nextId
      && Query.Unique(rows, RowId)
      && ExternalIdsUnique(rows)
      && forall i :: 0 <= i < |rows| ==> 0 < rows[i].id < nextId
    }

    constructor ()
      ensures Valid() && rows == [] && nextId == 1
    {
      rows := [];
      nextId := 1;
    }

    /** The row `Personnel::create` asks for: the caller's tenant, active '1', the fillable
        request fields (salary, phone and address are dropped, and so are `created_by` and
        `updated_by`, which keep their column defaults 1 and null), `created_on` and
        `updated_on` set by the database to `now`, and the given external id. */
    static function Inserted(id: int, externalId: Option<int>, user: User, input: PersonnelInput, now: int): PersonnelRow {
      PersonnelRow(id, externalId, user.clientId, input.firstName, input.lastName,
                   input.email, None, input.position, input.department, input.hireDate,
                   now, now, 1, None, Active)
    }

    method Append(row: PersonnelRow)
      requires Valid()
      requires row.id == nextId
      requires row.qapiPersonnelId.Some? ==> forall p :: p in rows ==> p.qapiPersonnelId != row.qapiPersonnelId
      modifies this
      ensures Valid()
      ensures rows == old(rows) + [row] && nextId == old(nextId) + 1
    {
      rows := rows + [row];
      nextId := nextId + 1;
      assert forall i :: 0 <= i < |rows| - 1 ==> rows[i] == old(rows)[i];
      assert rows[|rows| - 1] == row;
    }

    /** `store` as written: the insert names no `qapi_personnel_id`, a column declared NOT NULL,
        without a default, and unique. A `strict` database refuses the insert outright; a lax one
        stores 0 instead, which the unique index refuses once some row holds 0. A refused insert
        is a database exception, which the action answers with 500, and the table is unchanged. */
    method Store(user: User, input: PersonnelInput, now: int, strict: bool) returns (resp: PersonnelResponse)
      requires Valid()
      modifies this
      ensures Valid()
      ensures strict || ZeroExternalIdTaken(old(rows)) ==>
        resp == ServerError && rows == old(rows) && nextId == old(nextId)
      ensures !strict && !ZeroExternalIdTaken(old(rows)) ==>
        && rows == old(rows) + [Inserted(old(nextId), Some(0), user, input, now)]
        && nextId == old(nextId) + 1
        && resp == Created(rows[|rows| - 1]) && resp.Status() == 201
    {
      if strict || ZeroExternalIdTaken(rows) {
        return ServerError;
      }
      var row := Inserted(nextId, Some(0), user, input, now);
      Append(row);
      resp := Created(row);
    }

    /** `store` as intended: the external id left null, as the clients table declares its own
        external id nullable. The new row belongs to the caller's tenant and is active whatever
        the request says; no existing row changes. */
    method StoreWithoutExternalId(user: User, input: PersonnelInput, now: int) returns (resp: PersonnelResponse)
      requires Valid()
      modifies this
      ensures Valid() && nextId == old(nextId) + 1
      ensures |rows| == |old(rows)| + 1 && rows[..|old(rows)|] == old(rows)
      ensures var p := rows[|rows| - 1];
        && p == Inserted(old(nextId), None, user, input, now)
        && p.clientId == user.clientId && p.active == Active && p.firstName == input.firstName
        && p.phoneNumber == None && p.createdBy == 1 && p.updatedBy == None
        && resp == Created(p) && resp.Status() == 201
    {
      var row := Inserted(nextId, None, user, input, now);
      Append(row);
      assert rows[..|old(rows)|] == old(rows);
      resp := Created(row);
    }

    /** `update`: 404 and no change unless the caller's tenant has an active row with this id;
        otherwise only that row changes, and never its id, tenant, `active` flag or creation
        data. */
    method Update(user: User, id: int, input: PersonnelInput, now: int) returns (resp: PersonnelResponse)
      requires Valid()
      modifies this
      ensures Valid() && nextId == old(nextId)
      ensures FindOwnActive(old(rows), id, user.clientId).None? ==> resp == NotFound && rows == old(rows)
      ensures FindOwnActive(old(rows), id, user.clientId).Some? ==>
        var i := FindOwnActive(old(rows), id, user.clientId).value;
        && rows == old(rows)[i := Revised(old(rows)[i], input, now)]
        && resp == Updated(rows[i])
        && rows[i].id == id && rows[i].clientId == user.clientId && rows[i].active == Active
        && rows[i].createdOn == old(rows)[i].createdOn && rows[i].createdBy == old(rows)[i].createdBy
      ensures |rows| == |old(rows)|
      ensures forall j :: 0 <= j < |rows| && old(rows)[j].clientId != user.clientId ==> rows[j] == old(rows)[j]
    {
      var found := FindOwnActive(rows, id, user.clientId);
      if found.None? {
        return NotFound;
      }
      var i := found.value;
      var revised := Revised(rows[i], input, now);
      rows := rows[i := revised];
      assert forall j :: 0 <= j < |rows| ==>
        rows[j].id == old(rows)[j].id && rows[j].qapiPersonnelId == old(rows)[j].qapiPersonnelId;
      resp := Updated(revised);
    }

    /** `destroy`: 404 and no change unless the caller's tenant has an active row with this id;
        otherwise that row, and no other, becomes inactive. */
    method Destroy(user: User, id: int, now: int) returns (resp: PersonnelResponse)
      requires Valid()
      modifies this
      ensures Valid() && nextId == old(nextId)
      ensures FindOwnActive(old(rows), id, user.clientId).None? ==> resp == NotFound && rows == old(rows)
      ensures FindOwnActive(old(rows), id, user.clientId).Some? ==>
        var i := FindOwnActive(old(rows), id, user.clientId).value;
        && rows == old(rows)[i := Deactivated(old(rows)[i], now)]
        && resp == Deleted
        && FindOwnActive(rows, id, user.clientId).None?
      ensures |rows| == |old(rows)|
      ensures forall j :: 0 <= j < |rows| && old(rows)[j].clientId != user.clientId ==> rows[j] == old(rows)[j]
    {
      var found := FindOwnActive(rows, id, user.clientId);
      if found.None? {
        return NotFound;
      }
      var i := found.value;
      rows := rows[i := Deactivated(rows[i], now)];
      assert forall j :: 0 <= j < |rows| ==>
        rows[j].id == old(rows)[j].id && rows[j].qapiPersonnelId == old(rows)[j].qapiPersonnelId;
      DeactivatedPersonnelHidden(old(rows), i, now, user);
      resp := Deleted;
    }
  }

  /** Another tenant's user can neither see nor touch a row; a second destroy answers 404. */
  method TwoTenants(alice: User, mallory: User, input: PersonnelInput, now: int)
    returns (seenByOther: nat, otherDestroy: PersonnelResponse, first: PersonnelResponse, second: PersonnelResponse)
    requires alice.clientId != mallory.clientId
    ensures seenByOther == 0 && otherDestroy.Status() == 404
    ensures first == Deleted && second.Status() == 404
  {
    var table := new PersonnelTable();
    var stored := table.StoreWithoutExternalId(alice, input, now);
    assert table.rows[0].id == 1;
    IndexListsOnlyOwnActivePersonnel(table.rows, mallory);
    seenByOther := Index(table.rows, mallory).total;
    otherDestroy := table.Destroy(mallory, 1, now);
    first := table.Destroy(alice, 1, now);
    second := table.Destroy(alice, 1, now);
  }

  /** `store` as written can succeed at most once: on an empty table the first store fails
      under a strict database and the second fails under either kind. */
  method SecondStoreFails(user: User, input: PersonnelInput, now: int, strict: bool)
    returns (first: PersonnelResponse, second: PersonnelResponse)
    ensures strict ==> first.Status() == 500
    ensures !strict ==> first.Status() == 201
    ensures second.Status() == 500
  {
    var table := new PersonnelTable();
    first := table.Store(user, input, now, strict);
    if !strict {
      assert table.rows[0].qapiPersonnelId == Some(0);
    }
    second := table.Store(user, input, now, strict);
  }
}
