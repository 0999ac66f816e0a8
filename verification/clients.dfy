/** The clients (tenants) table and the ClientController actions over it. None of these actions
    is scoped to the caller's tenant: any authenticated user lists, edits and deactivates every
    client. `destroy` is a soft delete that sets `active` to '0'. */
module Clients {
  import opened Wrappers
  import opened Auth
  import Query

  const Active: string := "1"
  const Inactive: string := "0"

  /** A row of the clients table. Timestamps are Unix seconds; `createdBy` and `updatedBy` are
      never written by the controller, since neither is in the model's fillable list. */
  datatype ClientRow = ClientRow(
    id: int,
    name: string,
    contactPerson: Option<string>,
    email: Option<string>,
    phone: Option<string>,
    address: Option<string>,
    city: Option<string>,
    state: Option<string>,
    postalCode: Option<string>,
    country: Option<string>,
    createdOn: int,
    updatedOn: int,
    createdBy: int,
    updatedBy: Option<int>,
    active: string)

  function RowId(c: ClientRow): int { c.id }
  function CreatedOn(c: ClientRow): int { c.createdOn }
  predicate IsActive(c: ClientRow) { c.active == Active }

  /** The fields of a store or update request, after validation (so `company_name` is present). */
  datatype ClientInput = ClientInput(
    companyName: string,
    contactPerson: Option<string>,
    email: Option<string>,
    phone: Option<string>,
    address: Option<string>,
    city: Option<string>,
    state: Option<string>,
    postalCode: Option<string>,
    country: Option<string>)

  /** One entry of the `index` response. Dates are the raw timestamps (formatting is not
      modelled). */
  datatype ClientView = ClientView(
    id: int,
    companyName: string,
    contactPerson: string,
    email: string,
    phone: string,
    address: string,
    city: string,
    state: string,
    postalCode: string,
    country: string,
    industry: string,
    status: string,
    createdDate: int,
    lastContact: int,
    totalProjects: int,
    totalRevenue: int)

  datatype ClientIndex = ClientIndex(clients: seq<ClientView>, total: nat)

  /** The row as the frontend sees it: present fields are shown as stored and absent ones read
      "N/A"; industry is always "General", the project and revenue totals are always 0. */
  function Present(c: ClientRow): (v: ClientView)
    ensures v.id == c.id && v.companyName == c.name
    ensures v.createdDate == c.createdOn && v.lastContact == c.updatedOn
    ensures v.status == "active" <==> IsActive(c)
    ensures if c.contactPerson.Some? then v.contactPerson == c.contactPerson.value else v.contactPerson == "N/A"
    ensures if c.email.Some? then v.email == c.email.value else v.email == "N/A"
    ensures if c.phone.Some? then v.phone == c.phone.value else v.phone == "N/A"
    ensures if c.address.Some? then v.address == c.address.value else v.address == "N/A"
    ensures if c.city.Some? then v.city == c.city.value else v.city == "N/A"
    ensures if c.state.Some? then v.state == c.state.value else v.state == "N/A"
    ensures if c.postalCode.Some? then v.postalCode == c.postalCode.value else v.postalCode == "N/A"
    ensures if c.country.Some? then v.country == c.country.value else v.country == "N/A"
    ensures v.industry == "General" && v.totalProjects == 0 && v.totalRevenue == 0
  {
    ClientView(
      c.id, c.name,
      c.contactPerson.GetOr("N/A"), c.email.GetOr("N/A"), c.phone.GetOr("N/A"),
      c.address.GetOr("N/A"), c.city.GetOr("N/A"), c.state.GetOr("N/A"),
      c.postalCode.GetOr("N/A"), c.country.GetOr("N/A"),
      "General",
      if c.active == Active then "active" else "inactive",
      c.createdOn, c.updatedOn, 0, 0)
  }

  /** `Client::where('active', '1')->orderBy('created_on', 'desc')->get()`. */
  function Listed(rows: seq<ClientRow>): (r: seq<ClientRow>)
    ensures |r| == |Query.Where(rows, IsActive)|
    ensures forall c :: c in r <==> c in rows && IsActive(c)
    ensures Query.Descending(r, CreatedOn)
  {
    var sorted := Query.OrderByDesc(Query.Where(rows, IsActive), CreatedOn);
    assert forall c :: c in sorted <==> c in multiset(sorted);
    sorted
  }

  /** `index`: every active client of every tenant, newest first, as `Present` shows it. The
      caller's tenant plays no part (there is no `user` parameter to play one). */
  function Index(rows: seq<ClientRow>): (r: ClientIndex)
    ensures r.total == |r.clients| == |Query.Where(rows, IsActive)|
    ensures forall i :: 0 <= i < |r.clients| ==> r.clients[i] == Present(Listed(rows)[i])
  {
    var listed := Listed(rows);
    var views := seq(|listed|, i requires 0 <= i < |listed| => Present(listed[i]));
    ClientIndex(views, |views|)
  }

  /** `index` lists every active client, whichever tenant it is. */
  lemma IndexListsActiveClients(rows: seq<ClientRow>)
    ensures forall c :: c in rows && IsActive(c) ==> Present(c) in Index(rows).clients
  {
    var listed, views := Listed(rows), Index(rows).clients;
    forall c | c in rows && IsActive(c) ensures Present(c) in views {
      assert c in listed;
      var i :| 0 <= i < |listed| && listed[i] == c;
      assert views[i] == Present(c);
    }
  }

  /** `index` lists nothing but active clients, so every entry reads "active". */
  lemma IndexListsOnlyActiveClients(rows: seq<ClientRow>)
    ensures forall v :: v in Index(rows).clients ==> exists c :: c in rows && IsActive(c) && v == Present(c)
    ensures forall v :: v in Index(rows).clients ==> v.status == "active"
  {
    var listed, views := Listed(rows), Index(rows).clients;
    forall v | v in views
      ensures exists c :: c in rows && IsActive(c) && v == Present(c)
      ensures v.status == "active"
    {
      var i :| 0 <= i < |views| && views[i] == v;
      var c := listed[i];
      assert c in listed;
      assert v == Present(c);
    }
  }

  /** `index` is ordered by creation date, newest first. */
  lemma IndexNewestFirst(rows: seq<ClientRow>)
    ensures forall i, j :: 0 <= i < j < |Index(rows).clients| ==>
              Index(rows).clients[i].createdDate >= Index(rows).clients[j].createdDate
  {
    var listed, views := Listed(rows), Index(rows).clients;
    forall i, j | 0 <= i < j < |views| ensures views[i].createdDate >= views[j].createdDate {
      assert CreatedOn(listed[i]) >= CreatedOn(listed[j]);
    }
  }

  /** `Client::where('id', id)->where('active', '1')->first()`. */
  function FindActive(rows: seq<ClientRow>, id: int): (r: Option<nat>)
    ensures r.Some? ==> r.value < |rows| && rows[r.value].id == id && IsActive(rows[r.value])
    ensures r.None? <==> forall c :: c in rows ==> !(c.id == id && IsActive(c))
  {
    Query.First(rows, (c: ClientRow) => c.id == id && IsActive(c))
  }

  /** `Client::find(id)`: the row with that id, active or not. */
  function Find(rows: seq<ClientRow>, id: int): (r: Option<ClientRow>)
    ensures r.Some? ==> r.value in rows && r.value.id == id
    ensures r.None? <==> forall c :: c in rows ==> c.id != id
  {
    match Query.First(rows, (c: ClientRow) => c.id == id)
    case None => None
    case Some(i) => Some(rows[i])
  }

  /** `Client::where('id', id)->where('name', name)->where('active', '1')->first()`: the first
      active row with that id and name. */
  function FindActiveNamed(rows: seq<ClientRow>, id: int, name: string): (r: Option<ClientRow>)
    ensures r.Some? ==> r.value in rows && r.value.id == id && r.value.name == name && IsActive(r.value)
    ensures r.None? <==> forall c :: c in rows ==> !(c.id == id && c.name == name && IsActive(c))
  {
    match Query.First(rows, (c: ClientRow) => c.id == id && c.name == name && IsActive(c))
    case None => None
    case Some(i) => Some(rows[i])
  }

  /** The row `update` writes: the request's fields replace the fillable columns; `updated_on`
      moves to `now` when some column actually changed (the column's ON UPDATE clause). */
  function Revised(c: ClientRow, input: ClientInput, now: int): ClientRow {
    var filled := c.(name := input.companyName, contactPerson := input.contactPerson,
                     email := input.email, phone := input.phone, address := input.address,
                     city := input.city, state := input.state, postalCode := input.postalCode,
                     country := input.country);
    if filled == c then c else filled.(updatedOn := now)
  }

  /** The row `destroy` writes. */
  function Deactivated(c: ClientRow, now: int): ClientRow {
    c.(active := Inactive, updatedOn := now)
  }

  /** A deactivated client can no longer be found as active, by `update`, `destroy` or the
      middleware's cookie lookup, and `index` no longer lists it. */
  lemma DeactivatedClientHidden(rows: seq<ClientRow>, i: nat, now: int, name: string)
    requires i < |rows|
    requires Query.Unique(rows, RowId)
    ensures FindActive(rows[i := Deactivated(rows[i], now)], rows[i].id).None?
    ensures FindActiveNamed(rows[i := Deactivated(rows[i], now)], rows[i].id, name).None?
    ensures forall v :: v in Index(rows[i := Deactivated(rows[i], now)]).clients ==> v.id != rows[i].id
  {
    var after := rows[i := Deactivated(rows[i], now)];
    forall c | c in after && c.id == rows[i].id ensures !IsActive(c) {
      var j :| 0 <= j < |after| && after[j] == c;
      assert RowId(rows[j]) == RowId(rows[i]);
    }
  }

  /** The responses of the store, update and destroy actions. */
  datatype ClientResponse =
    | Created(client: ClientRow)
    | Updated(client: ClientRow)
    | Deleted
    | NotFound
    | ServerError
  {
    function Status(): int {
      match this
      case Created(_) => 201
      case Updated(_) => 200
      case Deleted => 200
      case NotFound => 404
      case ServerError => 500
    }
  }

  /** The clients table: rows in storage order and the next auto-increment id. */
  class ClientTable {
    var rows: seq<ClientRow>
    var nextId: int

    ghost predicate Valid()
      reads this
    {
      && 0 < nextId
      && Query.Unique(rows, RowId)
      && forall i :: 0 <= i < |rows| ==> 0 < rows[i].id < nextId
    }

    constructor ()
      ensures Valid() && rows == [] && nextId == 1
    {
      rows := [];
      nextId := 1;
    }

    /** The row `Client::create` inserts: the request's fields, `active` '1', `created_on` and
        `updated_on` set by the database to `now`, `created_by` left at its default 1 and
        `updated_by` at null (neither is fillable). */
    static function Inserted(id: int, input: ClientInput, now: int): ClientRow {
      ClientRow(id, input.companyName, input.contactPerson, input.email, input.phone,
                input.address, input.city, input.state, input.postalCode, input.country,
                now, now, 1, None, Active)
    }

    method Append(row: ClientRow)
      requires Valid()
      requires row.id == nextId
      modifies this
      ensures Valid()
      ensures rows == old(rows) + [row] && nextId == old(nextId) + 1
    {
      rows := rows + [row];
      nextId := nextId + 1;
      assert forall i :: 0 <= i < |rows| - 1 ==> rows[i] == old(rows)[i];
    }

    /** `store` as written: the row is inserted, then building the reply formats `created_on`,
        which the freshly created model never loaded (it is a database default and the model
        has no timestamps), so the call on null raises an error the action does not catch and
        the caller gets a server error for a client that was in fact created. */
    method Store(user: User, input: ClientInput, now: int) returns (resp: ClientResponse)
      requires Valid()
      modifies this
      ensures Valid()
      ensures rows == old(rows) + [Inserted(old(nextId), input, now)] && nextId == old(nextId) + 1
      ensures resp == ServerError
    {
      var row := Inserted(nextId, input, now);
      Append(row);
      // The in-memory model holds only the attributes given to `create` and the new id:
      // `created_on` reads null, and formatting it fails.
      resp := ServerError;
    }

    /** `store` as intended: the same insert, with the new row reloaded before the reply, which
        is then 201 with the stored client. */
    method StoreAndReload(user: User, input: ClientInput, now: int) returns (resp: ClientResponse)
      requires Valid()
      modifies this
      ensures Valid()
      ensures rows == old(rows) + [Inserted(old(nextId), input, now)] && nextId == old(nextId) + 1
      ensures resp == Created(rows[|rows| - 1]) && resp.Status() == 201
      ensures IsActive(resp.client) && resp.client.name == input.companyName
    {
      var row := Inserted(nextId, input, now);
      Append(row);
      resp := Created(row);
    }

    /** `update`: 404 and no change unless an active row has this id; otherwise only that row
        changes, and never its id, its `active` flag, its creation data or `updated_by`. */
    method Update(user: User, id: int, input: ClientInput, now: int) returns (resp: ClientResponse)
      requires Valid()
      modifies this
      ensures Valid() && nextId == old(nextId)
      ensures FindActive(old(rows), id).None? ==> resp == NotFound && rows == old(rows)
      ensures FindActive(old(rows), id).Some? ==>
        var i := FindActive(old(rows), id).value;
        && rows == old(rows)[i := Revised(old(rows)[i], input, now)]
        && resp == Updated(rows[i])
        && rows[i].id == id && rows[i].name == input.companyName && IsActive(rows[i])
        && rows[i].createdOn == old(rows)[i].createdOn && rows[i].updatedBy == old(rows)[i].updatedBy
    {
      var found := FindActive(rows, id);
      if found.None? {
        return NotFound;
      }
      var i := found.value;
      var revised := Revised(rows[i], input, now);
      rows := rows[i := revised];
      assert forall j :: 0 <= j < |rows| ==> rows[j].id == old(rows)[j].id;
      resp := Updated(revised);
    }

    /** `destroy`: 404 and no change unless an active row has this id; otherwise that row, and
        no other, becomes inactive. */
    method Destroy(user: User, id: int, now: int) returns (resp: ClientResponse)
      requires Valid()
      modifies this
      ensures Valid() && nextId == old(nextId)
      ensures FindActive(old(rows), id).None? ==> resp == NotFound && rows == old(rows)
      ensures FindActive(old(rows), id).Some? ==>
        var i := FindActive(old(rows), id).value;
        && rows == old(rows)[i := Deactivated(old(rows)[i], now)]
        && resp == Deleted
        && FindActive(rows, id).None?
    {
      var found := FindActive(rows, id);
      if found.None? {
        return NotFound;
      }
      var i := found.value;
      rows := rows[i := Deactivated(rows[i], now)];
      assert forall j :: 0 <= j < |rows| ==> rows[j].id == old(rows)[j].id;
      DeactivatedClientHidden(old(rows), i, now, "");
      resp := Deleted;
    }
  }

  /** Store as written answers 500 although the client is now in the table and listed by
      `index`; a first destroy of it succeeds and a second answers 404. */
  method StoreThenDestroyTwice(user: User, input: ClientInput, now: int)
    returns (stored: ClientResponse, listed: nat, first: ClientResponse, second: ClientResponse)
    ensures stored.Status() == 500 && listed == 1
    ensures first == Deleted && second.Status() == 404
  {
    var table := new ClientTable();
    stored := table.Store(user, input, now);
    assert |table.rows| == 1 && table.rows[0].id == 1 && IsActive(table.rows[0]);
    IndexListsActiveClients(table.rows);
    assert Present(table.rows[0]) in Index(table.rows).clients;
    listed := Index(table.rows).total;
    first := table.Destroy(user, 1, now);
    second := table.Destroy(user, 1, now);
  }
}
