# Tenant binding and tenant-scoped records, modelled in Dafny

This project models the server-side tenant-binding path of a Laravel multi-tenant
back office, and the record operations behind it:

- **`CookieSecurity`** (`cookie_security.dfy`) is the signed client cookie.
  `signClientData` produces `base64(json || "|" || hex HMAC-SHA256(json, app key))`.
  `verifyClientData` undoes it and answers null for every token it cannot authenticate.
  `createSecureClientCookie` adds a seven-day expiry. `generateNonce` and `validateNonce` make and check 32-digit hex nonces.
  base64, JSON and HMAC are parameters (the `Primitives` record of function values).
  The laws the proofs rely on are collected in the predicate `Lawful`: decode inverts encode, digests are 64 lower-case hex digits, and a few length and character facts.
- **`Middleware`** (`middleware.dfy`) is the `ValidateClientCookies` middleware.
  `Decide` is the branch structure of `handle` as a function. It returns pass on (with the client it attaches), JSON 401, or redirect home with four expired cookies.
  The classes `Request`, `Response` and `ValidateClientCookies` do the same in place.
  `Handle` adds to the request's attribute bag. `ClearInvalidCookies` queues the cookies one by one and appends the warning to a ghost log.
  Both are proved to do exactly what `Decide` and `Rejection` prescribe.
- **`Clients`** (`clients.dfy`) and **`Personnel`** (`personnel.dfy`) are the two controllers.
  Each table is a class holding its rows in storage order and the next auto-increment id.
  `index` is a function: filter, newest first, then project. `store`, `update` and `destroy` are methods that insert a row or change one in place.
  Personnel is scoped by the caller's `client_id` throughout. Clients is not scoped at all.
- **`Query`** (`query.dfy`) is the slice of the query builder these use: `where` / `first` / `orderBy desc`.
- **`Wrappers`** (`wrappers.dfy`) holds `Option` (PHP's null), and **`Auth`** (`auth.dfy`) the authenticated user.

The model follows the code where the code and its design notes differ:

- The cookie payload keys are `id`, `name` and `user_id` (plus a nonce).
- The `created_by` and `updated_by` values that `store`, `update` and `destroy` pass are dropped, because neither column is in either model's fillable list.
  The columns keep their defaults: 1 and null.
- Salary, phone and address sent to the personnel `store` and `update` are dropped too.
  The personnel table has no salary or address column, and its phone column is `phone_number`.
  So `index` always reports salary 0 and phone and address "N/A".
- The client `store` answers 500 after inserting the row, and the personnel `store` can succeed at most once (see Findings).
- Nothing in the code mints the signed cookie at login.

## Model

| member | source | states |
|---|---|---|
| Query.Where | app/Http/Controllers/PersonnelController.php:21-22 | the selected rows are exactly the rows satisfying the condition, none repeated beyond the input, never more than the input |
| Query.First | app/Http/Controllers/ClientController.php:130-132 | the index found satisfies the condition and no earlier row does; none is found iff no row satisfies it |
| Query.ConsDescending | app/Http/Controllers/ClientController.php:23 | a row whose key is at least the first key of a descending sequence can be put in front of it |
| Query.InsertDesc | app/Http/Controllers/ClientController.php:23 | inserting into a descending sequence keeps it descending, adds exactly the one row, and puts either that row or the old first row first |
| Query.OrderByDesc | app/Http/Controllers/ClientController.php:23 | the result is a permutation of the input, ordered by the key descending |
| Query.WhereNarrows | app/Http/Controllers/PersonnelController.php:21-22 | filtering by a wide condition and then a narrower one selects what the narrow one selects alone |
| CookieSecurity.SplitFirst | app/Services/CookieSecurityService.php:31-34 | the split fails iff there is no bar; otherwise the text is the first part, a bar and the rest, and the first part has no bar |
| CookieSecurity.SplitFirstAt | app/Services/CookieSecurityService.php:31 | a text assembled around a bar that the first part lacks splits back into those two parts |
| CookieSecurity.SignClientData | app/Services/CookieSecurityService.php:13-18 | the token base64-decodes to the payload's JSON, a bar and the HMAC of that JSON under the key |
| CookieSecurity.VerifyClientData | app/Services/CookieSecurityService.php:23-48 | null when base64 decoding fails, when the decoded text is falsy, or when it has no bar; a payload is returned only for an authentic token, as its JSON decodes; every failure the model represents is null (JSON of another shape is outside the model, see Left out) |
| CookieSecurity.AuthenticAccepted | app/Services/CookieSecurityService.php:36-44 | every authentic token verifies to its JSON's decoding (the converse of the last clause above) |
| CookieSecurity.ForgedSignatureRejected | app/Services/CookieSecurityService.php:36-42 | a signature part that differs from the HMAC of the data part is rejected |
| CookieSecurity.RoundTrip | app/Services/CookieSecurityService.php:13-44 | verifying a signed payload returns the payload, provided its JSON holds no bar |
| CookieSecurity.BarInJsonNeverVerifies | app/Services/CookieSecurityService.php:31-42 | if the JSON holds a bar, the split at the first bar makes the signed payload fail to verify |
| CookieSecurity.BarInNameNeverVerifies | app/Services/CookieSecurityService.php:15-42 | a payload whose client name contains a bar never verifies |
| CookieSecurity.TamperedDataRejected | app/Services/CookieSecurityService.php:36-42 | replacing the JSON but keeping the old signature is rejected |
| CookieSecurity.WrongKeyRejected | app/Services/CookieSecurityService.php:39-42 | a token signed under one key is rejected under a key whose digest differs |
| CookieSecurity.CreateSecureClientCookie | app/Services/CookieSecurityService.php:53-61 | the cookie expires exactly 604800 seconds (seven days) after `now` and carries the signed payload |
| CookieSecurity.SecureCookieVerifies | app/Services/CookieSecurityService.php:53-61 | the secure cookie's value verifies back to the payload (when its JSON holds no bar) |
| CookieSecurity.HexDigit | app/Services/CookieSecurityService.php:68 | each nibble becomes a lower-case hex digit |
| CookieSecurity.BinToHexShape | app/Services/CookieSecurityService.php:68 | hex encoding doubles the length and yields only lower-case hex digits |
| CookieSecurity.GenerateNonce | app/Services/CookieSecurityService.php:66-69 | a nonce made from 16 random bytes passes `validateNonce` and is lower-case hex |
| CookieSecurity.ValidateNonce | app/Services/CookieSecurityService.php:74-78 | the definition of the check: exactly 32 characters, each a hex digit of either case |
| CookieSecurity.ValidateNonceOfHex | app/Services/CookieSecurityService.php:66-78 | on hex encodings the check accepts exactly the encodings of 16 bytes, so every generated nonce and nothing shorter or longer |
| CookieSecurity.UpperCaseNonceAccepted | app/Services/CookieSecurityService.php:74-78 | the check is looser than the generator: a 32-digit upper-case string passes, though no encoding of bytes equals it |
| Middleware.Rejection | app/Http/Middleware/ValidateClientCookies.php:78-106 | JSON 401 iff the request expects JSON or is under `api/`, with the fixed error body; otherwise a redirect to `/` that expires `client_id`, `client_name`, `client_email` and `client_data` on path `/` |
| Middleware.Decide | app/Http/Middleware/ValidateClientCookies.php:20-73 | a request is rejected only when it is authenticated, outside `api/` and carries a truthy cookie, and then as `Rejection` says; an attached client is always a row of the table |
| Middleware.ApiPathsPassThrough | app/Http/Middleware/ValidateClientCookies.php:23-25 | paths under `api/` pass on with nothing attached, whatever the cookie |
| Middleware.GuestsPassThrough | app/Http/Middleware/ValidateClientCookies.php:28 | unauthenticated requests pass on with nothing attached |
| Middleware.UnverifiedCookieRejected | app/Http/Middleware/ValidateClientCookies.php:33-39 | a present cookie that fails verification is rejected |
| Middleware.UnknownOrInactiveClientRejected | app/Http/Middleware/ValidateClientCookies.php:42-50 | a verified cookie is rejected when no active client has both its id and its name |
| Middleware.MismatchedUserRejected | app/Http/Middleware/ValidateClientCookies.php:53-56 | a verified cookie is rejected when the user's client or id differs from the cookie's |
| Middleware.ValidatedClientIsConsistent | app/Http/Middleware/ValidateClientCookies.php:42-59 | a client attached for a cookie is an active row with the cookie's id and name, the token is authentic, the cookie was issued to this user, and the user belongs to that client |
| Middleware.ConsistentCookieAccepted | app/Http/Middleware/ValidateClientCookies.php:53-59 | conversely, a consistent cookie is accepted and attaches exactly its client |
| Middleware.NoCookieNeverRejects | app/Http/Middleware/ValidateClientCookies.php:60-69 | without a truthy cookie the request is never rejected; it attaches `find(client_id)` when the client id is non-zero |
| Middleware.FallbackAttachesInactiveClient | app/Http/Middleware/ValidateClientCookies.php:63-67 | the no-cookie fallback attaches the user's client even when it is deactivated |
| Middleware.JsonRejectionNeedsExpectsJson | app/Http/Middleware/ValidateClientCookies.php:81 | a 401 from `handle` implies the request expected JSON: the `api/` half of the test cannot fire from `handle` |
| Middleware.SignedCookieForOwnClientAccepted | app/Http/Middleware/ValidateClientCookies.php:33-59 | a cookie signed for the user's own active client is accepted and attaches that client |
| Middleware.ReplayedCookieRejected | app/Http/Middleware/ValidateClientCookies.php:53-56 | a cookie signed for one user is rejected for any other user |
| Middleware.TamperedCookieRedirects | app/Http/Middleware/ValidateClientCookies.php:33-38 | a browser request with data edited under the old signature is redirected home with the four cookies expired |
| Middleware.DeactivatedClientCookieRejected | app/Http/Middleware/ValidateClientCookies.php:42-50 | after a client is deactivated, every cookie naming it is rejected |
| Middleware.Request.constructor | app/Http/Middleware/ValidateClientCookies.php:20 | a request with the given path, JSON preference, cookie, IP and user agent and no attributes |
| Middleware.Request.AddAttribute | app/Http/Middleware/ValidateClientCookies.php:59 | the attribute bag gains that one entry |
| Middleware.Response.Json | app/Http/Middleware/ValidateClientCookies.php:82-85 | a JSON response with that body and status and no cookies |
| Middleware.Response.Redirect | app/Http/Middleware/ValidateClientCookies.php:89 | a 302 to the target with no cookies |
| Middleware.Response.QueueCookie | app/Http/Middleware/ValidateClientCookies.php:92-95 | the cookie list gains that one cookie at its end; nothing else changes |
| Middleware.ValidateClientCookies.constructor | app/Http/Middleware/ValidateClientCookies.php:13 | a middleware with the given primitives and key and an empty log |
| Middleware.ValidateClientCookies.ClearInvalidCookies | app/Http/Middleware/ValidateClientCookies.php:78-106 | the response is the one `Rejection` describes; only the redirect appends one warning (user id, IP, user agent, raw cookie) to the log |
| Middleware.ValidateClientCookies.Handle | app/Http/Middleware/ValidateClientCookies.php:20-73 | the effect is exactly the outcome `Decide` gives: on pass, the request's attributes gain `validated_client` only when a client is attached, and the log is unchanged; on rejection, a fresh 401 or 302 with `Decide`'s cookies and body, the attributes untouched, and a warning logged only for the redirect |
| Clients.Present | app/Http/Controllers/ClientController.php:27-45 | id, name, creation and last-contact dates carried over; each optional field shown as stored when present and "N/A" when absent; status "active" iff active is '1'; industry "General"; project and revenue totals 0 |
| Clients.Listed | app/Http/Controllers/ClientController.php:22-24 | exactly the active rows, newest first |
| Clients.Index | app/Http/Controllers/ClientController.php:15-51 | the total is the number of active rows, and entry i is the projection of the i-th listed row |
| Clients.IndexListsActiveClients | app/Http/Controllers/ClientController.php:20-45 | every active client of every tenant is listed, as `Present` shows it; the caller plays no part |
| Clients.IndexListsOnlyActiveClients | app/Http/Controllers/ClientController.php:22-45 | every listed entry is the projection of an active client, so every entry reads "active" |
| Clients.IndexNewestFirst | app/Http/Controllers/ClientController.php:23 | the listing's creation dates never increase |
| Clients.FindActive | app/Http/Controllers/ClientController.php:130-132 | the row found has that id and is active; none is found iff no active row has that id |
| Clients.Find | app/Http/Middleware/ValidateClientCookies.php:64 | the row found has that id, active or not; none is found iff no row has it |
| Clients.FindActiveNamed | app/Http/Middleware/ValidateClientCookies.php:42-45 | the row found is active and has that id and name; none is found iff no such row exists |
| Clients.DeactivatedClientHidden | app/Http/Controllers/ClientController.php:199-213 | once a row is deactivated, neither lookup finds it as active and `index` no longer lists its id |
| Clients.ClientTable.Store | app/Http/Controllers/ClientController.php:64-120 | as written: the row (request fields, active '1', default creator) is appended, and the reply is 500 |
| Clients.ClientTable.StoreAndReload | app/Http/Controllers/ClientController.php:81-112 | as intended: the same insert, answered 201 with the stored active client named after `company_name` |
| Clients.ClientTable.Update | app/Http/Controllers/ClientController.php:125-189 | 404 and no change unless an active row has the id; otherwise only that row takes the request's fields, and keeps its id, `active`, creation date and `updated_by` |
| Clients.ClientTable.Destroy | app/Http/Controllers/ClientController.php:194-225 | 404 and no change unless an active row has the id; otherwise only that row becomes inactive and is no longer found |
| Clients.StoreThenDestroyTwice | app/Http/Controllers/ClientController.php:81-213 | a store answers 500 yet the client is listed; the first destroy succeeds and the second answers 404 |
| Personnel.Present | app/Http/Controllers/PersonnelController.php:27-40 | id and names carried over; email, position, department and hire date shown as stored when present, and "N/A" ("General" for the department) when absent; status "active" iff active is '1'; salary is always 0 and phone and address always "N/A" |
| Personnel.Listed | app/Http/Controllers/PersonnelController.php:21-24 | exactly the caller's tenant's active rows, newest first |
| Personnel.Index | app/Http/Controllers/PersonnelController.php:15-46 | the total is the number of the tenant's active rows, and entry i is the projection of the i-th listed row |
| Personnel.IndexListsOwnActivePersonnel | app/Http/Controllers/PersonnelController.php:21-40 | every active row of the caller's tenant is listed |
| Personnel.IndexListsOnlyOwnActivePersonnel | app/Http/Controllers/PersonnelController.php:21-40 | every listed entry is the projection of an active row of the caller's tenant, never another tenant's, so every entry reads "active" |
| Personnel.IndexNewestFirst | app/Http/Controllers/PersonnelController.php:23 | the listed rows' creation dates never increase |
| Personnel.IndexNonInterference | app/Http/Controllers/PersonnelController.php:21-22 | two tables that agree on the caller's tenant's rows give the caller the same `index`, whatever other tenants hold |
| Personnel.FindOwnActive | app/Http/Controllers/PersonnelController.php:123-126 | the row found has the id, the caller's tenant and is active; none is found iff no such row exists |
| Personnel.DeactivatedPersonnelHidden | app/Http/Controllers/PersonnelController.php:190-205 | once deactivated, a row is no longer found by `update`/`destroy` nor listed by `index` |
| Personnel.PersonnelTable.Store | app/Http/Controllers/PersonnelController.php:59-113 | as written: under a strict database, or once some row holds external id 0, the reply is 500 and the table is unchanged; otherwise the row is appended with external id 0, the caller's tenant, active '1' and the fillable fields only, and the reply is 201 |
| Personnel.PersonnelTable.StoreWithoutExternalId | app/Http/Controllers/PersonnelController.php:76-105 | as intended: a row is appended with a null external id, the caller's tenant, active '1', the fillable request fields only (no salary, phone or address; creator 1, updater null); no existing row changes; reply 201 |
| Personnel.SecondStoreFails | app/Http/Controllers/PersonnelController.php:76-90 | on an empty table the first store as written fails under a strict database and succeeds otherwise, and the second always answers 500 |
| Personnel.PersonnelTable.Update | app/Http/Controllers/PersonnelController.php:118-180 | 404 and no change unless the caller's tenant has an active row with the id; otherwise only that row changes, never its id, tenant, `active` or creation data; no other tenant's row changes |
| Personnel.PersonnelTable.Destroy | app/Http/Controllers/PersonnelController.php:185-217 | 404 and no change unless the caller's tenant has an active row with the id; otherwise only that row becomes inactive and is no longer found; no other tenant's row changes |
| Personnel.TwoTenants | app/Http/Controllers/PersonnelController.php:86-205 | a row stored by one tenant is invisible to another, which gets 404 on destroying it; the owner's first destroy succeeds and the second answers 404 |

## Left out

- base64, JSON and HMAC-SHA256 are not computed. They are function parameters constrained by `Lawful`. PHP's lenient `base64_decode` and the constant-time property of `hash_equals` are not modelled; the comparison is plain equality.
- CookieSecurity.VerifyClientData: `json_decode` is modelled as yielding either a full payload or null. Three other outcomes of an authentic token are not modelled:
  - JSON that is a scalar makes `verifyClientData` itself fail. Its `?array` return type raises a `TypeError`, which `catch (\Exception)` does not catch, so the request ends in a server error.
  - JSON `[]` or `{}` decodes to an empty array, which the middleware rejects like null.
  - An array missing `id`, `name` or `user_id` fails later, in the middleware, on the missing key.
- CookieSecurity.ValidateNonce: the nonce is never checked against anything stored, by the code or by the model.
- The clock (`now()`), `random_bytes`, the `Auth` facade and the request accessors (`is`, `expectsJson`, `cookie`, `ip`, `userAgent`) are inputs. The log is a ghost sequence of records.
- Laravel's own cookie encryption, and the response objects' other headers, are not modelled.
- `$request->validate` rules and the catch-all `catch (\Exception)` wrappers that turn other failures into 500 are not modelled. Inputs are assumed already valid. The exceptions are the two `store` failures under Findings.
- Date formatting (`format('Y-m-d')`) is not modelled. Timestamps are integers (Unix seconds, UTC) shown as they are.
- SQL string comparison is exact. A case-insensitive collation is not modelled.
- Query.OrderByDesc: rows with equal `created_on` come out in storage order. The database does not fix that order.
- The personnel table's `qapi_client_id` and `user_id` columns are not modelled.
- Personnel.PersonnelTable.Store: the database's mode is the parameter `strict`; the database configuration is not part of this model. An auto-increment value a refused insert may use up is not modelled.
- AuthController.php, the bootstrap wiring (where this middleware is not registered) and the React frontend are not part of this model.

## Findings

| source | as written | input that shows it | evidently intended | confidence | as-written member | corrected member |
|---|---|---|---|---|---|---|
| app/Http/Controllers/ClientController.php:110 | `store` builds its reply with `$client->created_on->format(...)`, but the model returned by `create` holds only the attributes it was given. `created_on` is a database default that is never reloaded, because the model has no timestamps. The call is therefore on null, and the resulting `Error` escapes the `catch (\Exception)`. | any valid store request, e.g. `company_name` "Acme": the row is inserted, then the reply is 500 | reload the created row before replying, and answer 201 with it | high; not executed | Clients.ClientTable.Store, Clients.StoreThenDestroyTwice | Clients.ClientTable.StoreAndReload |
| app/Http/Controllers/PersonnelController.php:76-90 | `store` creates the row without `qapi_personnel_id`, which the personnel table declares NOT NULL, without a default, and unique (database/migrations/2025_10_01_150149_create_personnel_table.php:16,33). A strict database refuses every such insert. A lax one stores 0, and the unique index then refuses every later insert. Each refusal is caught and answered with 500. | any valid store request, e.g. first name "Ada", last name "Lovelace": under a strict database the first store answers 500, under a lax one the second does | the external id left null, as the clients table declares its own `qapi_client_id` nullable, so every store inserts its row and answers 201 | medium; not executed; which store fails first depends on the database mode, which is not in the source | Personnel.PersonnelTable.Store, Personnel.SecondStoreFails | Personnel.PersonnelTable.StoreWithoutExternalId |
