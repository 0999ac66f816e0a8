/** The ValidateClientCookies middleware: for an authenticated request outside `api/` it checks
    the signed `client_data` cookie against the clients table and the user, attaching the
    validated client to the request or rejecting the request; without a cookie it attaches the
    user's own client, unchecked. */
module Middleware {
  import opened Wrappers
  import opened Auth
  import opened CookieSecurity
  import Query
  import Clients

  /** Laravel's `$request->is()` test for the `api` prefix: the path (no leading slash) starts with "api/". */
  predicate IsApiPath(path: string) {
    |path| >= 4 && path[..4] == "api/"
  }

  /** The `client_data` cookie counts as present only when PHP finds it truthy. */
  predicate CookiePresent(cookie: Option<string>) {
    cookie.Some? && !Falsy(cookie.value)
  }

  /** A cookie the response sets; a negative lifetime in minutes expires it at once. */
  datatype Cookie = Cookie(name: string, value: string, minutes: int, path: string)

  datatype JsonBody = JsonBody(error: string, message: string)

  const InvalidCookiesBody: JsonBody := JsonBody("Invalid client cookies", "Please login again")

  /** The four cookies the redirect expires: three single-value ones and the signed one. */
  const ClearedCookies: seq<Cookie> := [
    Cookie("client_id", "", -1, "/"),
    Cookie("client_name", "", -1, "/"),
    Cookie("client_email", "", -1, "/"),
    Cookie("client_data", "", -1, "/")]

  /** The request attribute the validated client is stored under. */
  const ValidatedClient: string := "validated_client"

  /** What `handle` does with a request: pass it on (with the client it attaches, if any),
      answer 401 with a JSON body, or redirect home expiring the client cookies. */
  datatype Outcome =
    | Next(validated: Option<Clients.ClientRow>)
    | Json401(body: JsonBody)
    | Redirect(location: string, cookies: seq<Cookie>)

  /** `clearInvalidCookies`: JSON clients get a 401 and no cookie changes; browsers are sent
      home with every client cookie expired. */
  function Rejection(path: string, expectsJson: bool): (o: Outcome)
    ensures !o.Next?
    ensures o.Json401? <==> expectsJson || IsApiPath(path)
    ensures o.Json401? ==> o.body == JsonBody("Invalid client cookies", "Please login again")
    ensures o.Redirect? ==>
      && o.location == "/" && |o.cookies| == 4
      && (forall k :: 0 <= k < 4 ==> o.cookies[k].value == "" && o.cookies[k].minutes < 0 && o.cookies[k].path == "/")
      && o.cookies[0].name == "client_id" && o.cookies[1].name == "client_name"
      && o.cookies[2].name == "client_email" && o.cookies[3].name == "client_data"
  {
    if expectsJson || IsApiPath(path) then Json401(InvalidCookiesBody)
    else Redirect("/", ClearedCookies)
  }

  /** `handle`, as a decision over the request (path, JSON preference, `client_data` cookie),
      the authenticated user if any, and the clients table. A request is only ever rejected
      when it is authenticated, outside `api/` and carries a cookie; a client is only ever
      attached when it is a row of the table. */
  function Decide(p: Primitives, key: string, path: string, expectsJson: bool, cookie: Option<string>,
                  auth: Option<User>, clients: seq<Clients.ClientRow>): (o: Outcome)
    ensures !o.Next? ==> !IsApiPath(path) && auth.Some? && CookiePresent(cookie)
    ensures !o.Next? ==> o == Rejection(path, expectsJson)
    ensures o.Next? && o.validated.Some? ==> o.validated.value in clients
  {
    if IsApiPath(path) then Next(None)
    else if auth.None? then Next(None)
    else
      var user := auth.value;
      if CookiePresent(cookie) then
        match VerifyClientData(p, key, cookie.value)
        case None => Rejection(path, expectsJson)
        case Some(data) =>
          match Clients.FindActiveNamed(clients, data.id, data.name)
          case None => Rejection(path, expectsJson)
          case Some(client) =>
            if user.clientId != data.id || user.id != data.userId then Rejection(path, expectsJson)
            else Next(Some(client))
      else if user.clientId != 0 then Next(Clients.Find(clients, user.clientId))
      else Next(None)
  }

  /** Paths under `api/` pass straight through: no cookie is looked at, nothing is attached. */
  lemma ApiPathsPassThrough(p: Primitives, key: string, path: string, expectsJson: bool, cookie: Option<string>,
                            auth: Option<User>, clients: seq<Clients.ClientRow>)
    requires IsApiPath(path)
    ensures Decide(p, key, path, expectsJson, cookie, auth, clients) == Next(None)
  {
  }

  /** Unauthenticated requests pass straight through. */
  lemma GuestsPassThrough(p: Primitives, key: string, path: string, expectsJson: bool, cookie: Option<string>,
                          clients: seq<Clients.ClientRow>)
    ensures Decide(p, key, path, expectsJson, cookie, None, clients) == Next(None)
  {
  }

  /** A present cookie that does not verify is rejected. */
  lemma UnverifiedCookieRejected(p: Primitives, key: string, path: string, expectsJson: bool, cookie: Option<string>,
                                 user: User, clients: seq<Clients.ClientRow>)
    requires !IsApiPath(path) && CookiePresent(cookie)
    requires VerifyClientData(p, key, cookie.value).None?
    ensures Decide(p, key, path, expectsJson, cookie, Some(user), clients) == Rejection(path, expectsJson)
  {
  }

  /** The consistency invariant: a client attached because of a cookie is an active row whose id
      and name the authentic cookie names, the cookie was issued to this user, and the user
      belongs to that client. */
  lemma ValidatedClientIsConsistent(p: Primitives, key: string, path: string, expectsJson: bool,
                                    cookie: Option<string>, user: User, clients: seq<Clients.ClientRow>,
                                    client: Clients.ClientRow)
    requires CookiePresent(cookie)
    requires Decide(p, key, path, expectsJson, cookie, Some(user), clients) == Next(Some(client))
    ensures client in clients && Clients.IsActive(client) && user.clientId == client.id
    ensures exists d :: VerifyClientData(p, key, cookie.value) == Some(d)
                        && d.id == client.id && d.name == client.name && d.userId == user.id
    ensures exists data :: Authentic(p, key, cookie.value, data)
  {
    var d := VerifyClientData(p, key, cookie.value).value;
    assert Clients.FindActiveNamed(clients, d.id, d.name) == Some(client);
  }

  /** A cookie that verifies is rejected unless an active client row has its id and name. */
  lemma UnknownOrInactiveClientRejected(p: Primitives, key: string, path: string, expectsJson: bool,
                                        cookie: Option<string>, user: User, clients: seq<Clients.ClientRow>,
                                        d: ClientData)
    requires !IsApiPath(path) && CookiePresent(cookie)
    requires VerifyClientData(p, key, cookie.value) == Some(d)
    requires forall c :: c in clients && c.id == d.id && c.name == d.name ==> !Clients.IsActive(c)
    ensures Decide(p, key, path, expectsJson, cookie, Some(user), clients) == Rejection(path, expectsJson)
  {
  }

  /** A cookie that verifies is rejected when the user belongs to another client or the cookie
      was issued to another user; the cookie's client is never attached. */
  lemma MismatchedUserRejected(p: Primitives, key: string, path: string, expectsJson: bool,
                               cookie: Option<string>, user: User, clients: seq<Clients.ClientRow>,
                               d: ClientData)
    requires !IsApiPath(path) && CookiePresent(cookie)
    requires VerifyClientData(p, key, cookie.value) == Some(d)
    requires user.clientId != d.id || user.id != d.userId
    ensures Decide(p, key, path, expectsJson, cookie, Some(user), clients) == Rejection(path, expectsJson)
  {
  }

  /** Conversely, a consistent cookie is accepted and attaches exactly its client. */
  lemma ConsistentCookieAccepted(p: Primitives, key: string, path: string, expectsJson: bool,
                                 cookie: Option<string>, user: User, clients: seq<Clients.ClientRow>,
                                 d: ClientData, client: Clients.ClientRow)
    requires Query.Unique(clients, Clients.RowId)
    requires !IsApiPath(path) && CookiePresent(cookie)
    requires VerifyClientData(p, key, cookie.value) == Some(d)
    requires client in clients && Clients.IsActive(client) && client.id == d.id && client.name == d.name
    requires user.clientId == d.id && user.id == d.userId
    ensures Decide(p, key, path, expectsJson, cookie, Some(user), clients) == Next(Some(client))
  {
    var found := Clients.FindActiveNamed(clients, d.id, d.name).value;
    var i :| 0 <= i < |clients| && clients[i] == found;
    var j :| 0 <= j < |clients| && clients[j] == client;
    assert Clients.RowId(clients[i]) == Clients.RowId(clients[j]);
  }

  /** Without a cookie nothing is rejected: the user's own client is attached when the user
      has one and the row exists. */
  lemma NoCookieNeverRejects(p: Primitives, key: string, path: string, expectsJson: bool,
                             cookie: Option<string>, user: User, clients: seq<Clients.ClientRow>)
    requires !IsApiPath(path) && !CookiePresent(cookie)
    ensures Decide(p, key, path, expectsJson, cookie, Some(user), clients)
         == Next(if user.clientId != 0 then Clients.Find(clients, user.clientId) else None)
  {
  }

  /** The fallback does not look at `active`: a deactivated client is still attached. */
  lemma FallbackAttachesInactiveClient(p: Primitives, key: string, path: string, expectsJson: bool,
                                       cookie: Option<string>, user: User, clients: seq<Clients.ClientRow>,
                                       client: Clients.ClientRow)
    requires Query.Unique(clients, Clients.RowId)
    requires !IsApiPath(path) && !CookiePresent(cookie)
    requires client in clients && client.id == user.clientId != 0
    ensures Decide(p, key, path, expectsJson, cookie, Some(user), clients) == Next(Some(client))
  {
    var found := Clients.Find(clients, user.clientId).value;
    var i :| 0 <= i < |clients| && clients[i] == found;
    var j :| 0 <= j < |clients| && clients[j] == client;
    assert Clients.RowId(clients[i]) == Clients.RowId(clients[j]);
  }

  /** As reached from `handle`, the JSON 401 answers only requests that asked for JSON: the
      `api/` test inside `clearInvalidCookies` can never fire, since those paths were skipped. */
  lemma JsonRejectionNeedsExpectsJson(p: Primitives, key: string, path: string, expectsJson: bool,
                                      cookie: Option<string>, auth: Option<User>, clients: seq<Clients.ClientRow>)
    requires Decide(p, key, path, expectsJson, cookie, auth, clients).Json401?
    ensures expectsJson
  {
  }

  /** End to end: a cookie signed for the user's own active client is accepted and attaches
      that client. */
  lemma SignedCookieForOwnClientAccepted(p: Primitives, key: string, path: string, expectsJson: bool,
                                         user: User, clients: seq<Clients.ClientRow>,
                                         client: Clients.ClientRow, nonce: string)
    requires Lawful(p)
    requires Query.Unique(clients, Clients.RowId)
    requires !IsApiPath(path)
    requires client in clients && Clients.IsActive(client) && user.clientId == client.id
    requires '|' !in p.jsonEncode(ClientData(client.id, client.name, user.id, nonce))
    ensures Decide(p, key, path, expectsJson,
                   Some(SignClientData(p, key, ClientData(client.id, client.name, user.id, nonce))),
                   Some(user), clients) == Next(Some(client))
  {
    var d := ClientData(client.id, client.name, user.id, nonce);
    var token := SignClientData(p, key, d);
    assert |token| >= 4;
    RoundTrip(p, key, d);
    ConsistentCookieAccepted(p, key, path, expectsJson, Some(token), user, clients, d, client);
  }

  /** A cookie signed for one user, replayed by another user, is rejected. */
  lemma ReplayedCookieRejected(p: Primitives, key: string, path: string, expectsJson: bool,
                               user: User, clients: seq<Clients.ClientRow>, d: ClientData)
    requires Lawful(p)
    requires !IsApiPath(path)
    requires '|' !in p.jsonEncode(d)
    requires user.id != d.userId
    ensures Decide(p, key, path, expectsJson, Some(SignClientData(p, key, d)), Some(user), clients)
         == Rejection(path, expectsJson)
  {
    var token := SignClientData(p, key, d);
    assert |token| >= 4;
    RoundTrip(p, key, d);
  }

  /** A browser request whose cookie had its data edited but kept its old signature is sent home
      with all four client cookies expired. */
  lemma TamperedCookieRedirects(p: Primitives, key: string, path: string, cookie: string,
                                user: User, clients: seq<Clients.ClientRow>, data: string, signature: string)
    requires !IsApiPath(path) && !Falsy(cookie)
    requires p.base64Decode(cookie) == Some(data + "|" + signature)
    requires '|' !in data && signature != p.hmacSha256(data, key)
    ensures Decide(p, key, path, false, Some(cookie), Some(user), clients) == Redirect("/", ClearedCookies)
  {
    ForgedSignatureRejected(p, key, cookie, data, signature);
  }

  /** After ClientController's `destroy` deactivates a client, every cookie naming it is
      rejected. */
  lemma DeactivatedClientCookieRejected(p: Primitives, key: string, path: string, expectsJson: bool,
                                        cookie: Option<string>, user: User, clients: seq<Clients.ClientRow>,
                                        i: nat, now: int, d: ClientData)
    requires Query.Unique(clients, Clients.RowId)
    requires i < |clients|
    requires !IsApiPath(path) && CookiePresent(cookie)
    requires VerifyClientData(p, key, cookie.value) == Some(d) && d.id == clients[i].id
    ensures Decide(p, key, path, expectsJson, cookie, Some(user),
                   clients[i := Clients.Deactivated(clients[i], now)]) == Rejection(path, expectsJson)
  {
    Clients.DeactivatedClientHidden(clients, i, now, d.name);
  }

  /** The incoming request: what `handle` reads, and the attribute bag it adds to. */
  class Request {
    const path: string
    const expectsJson: bool
    const clientDataCookie: Option<string>
    const ip: string
    const userAgent: string
    var attributes: map<string, Clients.ClientRow>

    constructor (path: string, expectsJson: bool, clientDataCookie: Option<string>, ip: string, userAgent: string)
      ensures this.path == path && this.expectsJson == expectsJson
      ensures this.clientDataCookie == clientDataCookie && this.ip == ip && this.userAgent == userAgent
      ensures attributes == map[]
    {
      this.path := path;
      this.expectsJson := expectsJson;
      this.clientDataCookie := clientDataCookie;
      this.ip := ip;
      this.userAgent := userAgent;
      attributes := map[];
    }

    /** `$request->attributes->add([name => client])`. */
    method AddAttribute(name: string, client: Clients.ClientRow)
      modifies this
      ensures attributes == old(attributes)[name := client]
    {
      attributes := attributes[name := client];
    }
  }

  /** A response built by the middleware itself. */
  class Response {
    var status: int
    var location: Option<string>
    var body: Option<JsonBody>
    var cookies: seq<Cookie>

    /** `response()->json(body, status)`. */
    constructor Json(body: JsonBody, status: int)
      ensures this.status == status && this.body == Some(body) && location == None && cookies == []
    {
      this.status := status;
      this.body := Some(body);
      location := None;
      cookies := [];
    }

    /** `redirect(to)`: a 302. */
    constructor Redirect(to: string)
      ensures status == 302 && location == Some(to) && body == None && cookies == []
    {
      status := 302;
      location := Some(to);
      body := None;
      cookies := [];
    }

    /** `$response->cookie(name, value, minutes, path)`. */
    method QueueCookie(name: string, value: string, minutes: int, path: string)
      modifies this
      ensures cookies == old(cookies) + [Cookie(name, value, minutes, path)]
      ensures status == old(status) && location == old(location) && body == old(body)
    {
      cookies := cookies + [Cookie(name, value, minutes, path)];
    }
  }

  /** The warning `clearInvalidCookies` logs, with the rejected cookie's raw value. */
  datatype LogRecord = Warning(message: string, userId: int, ip: string, userAgent: string, clientData: Option<string>)

  class ValidateClientCookies {
    const primitives: Primitives
    const appKey: string
    /** The log records written so far. */
    ghost var log: seq<LogRecord>

    constructor (primitives: Primitives, appKey: string)
      ensures this.primitives == primitives && this.appKey == appKey && log == []
    {
      this.primitives := primitives;
      this.appKey := appKey;
      log := [];
    }

    /** `clearInvalidCookies`, reached with an authenticated `user`. */
    method ClearInvalidCookies(request: Request, user: User) returns (response: Response)
      modifies this
      ensures fresh(response)
      ensures var o := Rejection(request.path, request.expectsJson);
        && (o.Json401? ==> response.status == 401 && response.body == Some(o.body)
                           && response.location == None && response.cookies == [] && log == old(log))
        && (o.Redirect? ==> response.status == 302 && response.location == Some(o.location)
                             && response.body == None && response.cookies == o.cookies
                             && log == old(log) + [Warning("Invalid client cookies detected", user.id,
                                                           request.ip, request.userAgent, request.clientDataCookie)])
    {
      if request.expectsJson || IsApiPath(request.path) {
        response := new Response.Json(InvalidCookiesBody, 401);
        return;
      }
      response := new Response.Redirect("/");
      response.QueueCookie("client_id", "", -1, "/");
      response.QueueCookie("client_name", "", -1, "/");
      response.QueueCookie("client_email", "", -1, "/");
      response.QueueCookie("client_data", "", -1, "/");
      log := log + [Warning("Invalid client cookies detected", user.id,
                            request.ip, request.userAgent, request.clientDataCookie)];
    }

    /** `handle`: `None` passes the request to the next handler, `Some(response)` answers it.
        Each effect is the one `Decide` prescribes. */
    method Handle(request: Request, auth: Option<User>, clients: seq<Clients.ClientRow>)
      returns (rejection: Option<Response>)
      modifies this, request
      ensures var o := Decide(primitives, appKey, request.path, request.expectsJson,
                              request.clientDataCookie, auth, clients);
        && (o.Next? ==> rejection.None? && log == old(log)
                        && request.attributes == (if o.validated.Some?
                                                  then old(request.attributes)[ValidatedClient := o.validated.value]
                                                  else old(request.attributes)))
        && (!o.Next? ==> rejection.Some? && fresh(rejection.value) && request.attributes == old(request.attributes))
        && (o.Json401? ==> rejection.value.status == 401 && rejection.value.body == Some(o.body)
                           && rejection.value.location == None && rejection.value.cookies == []
                           && log == old(log))
        && (o.Redirect? ==> rejection.value.status == 302 && rejection.value.location == Some("/")
                            && rejection.value.cookies == o.cookies
                            && log == old(log) + [Warning("Invalid client cookies detected", auth.value.id,
                                                          request.ip, request.userAgent, request.clientDataCookie)])
    {
      if IsApiPath(request.path) {
        return None;
      }
      if auth.Some? {
        var user := auth.value;
        var cookie := request.clientDataCookie;
        if CookiePresent(cookie) {
          var clientData := VerifyClientData(primitives, appKey, cookie.value);
          if clientData.None? {
            var response := ClearInvalidCookies(request, user);
            return Some(response);
          }
          var d := clientData.value;
          var client := Clients.FindActiveNamed(clients, d.id, d.name);
          if client.None? {
            var response := ClearInvalidCookies(request, user);
            return Some(response);
          }
          if user.clientId != d.id || user.id != d.userId {
            var response := ClearInvalidCookies(request, user);
            return Some(response);
          }
          request.AddAttribute(ValidatedClient, client.value);
        } else if user.clientId != 0 {
          var client := Clients.Find(clients, user.clientId);
          if client.Some? {
            request.AddAttribute(ValidatedClient, client.value);
          }
        }
      }
      return None;
    }
  }
}
