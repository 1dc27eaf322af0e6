/**
 * `HttpRequestHandler`: the dispatcher with its guards, the route table, the
 * data-store handlers and the authentication handlers. Both copies
 * (`org.example.handlers.HttpRequestHandler` and the older
 * `org.example.HttpRequestHandler`) share this code; they differ in how
 * `GET /external` is registered and in the older copy's `handleSecureRequest`.
 * The older copy calls `isSent()` and `sendContinue()` on `org.example.HttpResponse`,
 * which declares neither; it is modelled as if it had the newer response's
 * sent flag and interim 100.
 */
module Handlers {
  import opened Wrappers
  import JavaStrings
  import opened Requests
  import opened Auth
  import opened Registry

  /** A JSON object: each field name with its value's JSON text. */
  type Fields = map<string, string>

  /** The static `dataStore`. */
  type Store = map<string, Fields>

  /** What `gson.fromJson(body, Map<String, String>)` gives: it throws, it gives `null` (empty input), or a map. */
  datatype Decoded = Malformed | Null | Object(entries: map<string, string>)

  /**
   * The JSON library, a parameter: decoding a body, `JsonParser.parseString(v).getAsJsonObject()`
   * (`None` when it throws), `JsonObject.toString()` and `gson.toJson(dataStore)`.
   */
  datatype Json = Json(
    fromJson: string -> Decoded,
    parseObject: string -> Option<Fields>,
    render: Fields -> string,
    renderStore: Store -> string)

  /** One response: `send(code, body)` or `send(code, body, contentType)`, or the interim `sendContinue`. */
  datatype Reply = Send(code: int, body: string, contentType: Option<string>) | SendContinue

  /** What a handler did: the responses it sent, or an exception it let out. */
  datatype Handled = Replies(sent: seq<Reply>) | Threw

  function Plain(code: int, body: string): Reply {
    Send(code, body, None)
  }

  predicate Sends(r: Reply, code: int) {
    r.Send? && r.code == code
  }

  const MaxBody: int := 1024 * 1024
  const JsonType: string := "application/json"
  const InvalidJson: string := "Invalid JSON format."
  const NeedsKeyValue: string := "Invalid data format. Expected JSON with 'key' and 'value'."
  const NeedsKey: string := "Invalid data format. Expected JSON with 'key'."

  /** The entry the constructor puts under `example`. */
  const Example: Fields := map["field1" := "\"value1\"", "field2" := "\"value2\""]

  // ---------------------------------------------------------------------------
  // The data-store handlers, as functions of the store

  /** `"application/json".equals(request.getHeaders().get("Content-Type"))`. */
  predicate IsJson(request: Request) {
    "Content-Type" in request.headers && request.headers["Content-Type"] == JsonType
  }

  /** The `key` and `value` entries of a decoded body that has both. */
  function KeyValueOf(d: Decoded): (r: Option<(string, string)>)
    ensures r.Some? <==> d.Object? && "key" in d.entries && "value" in d.entries
  {
    if d.Object? && "key" in d.entries && "value" in d.entries then Some((d.entries["key"], d.entries["value"])) else None
  }

  /** The `key` and `value` entries of the request's body (`None` also when the body does not decode). */
  function Entry(request: Request, json: Json): (r: Option<(string, string)>)
    ensures r.Some? ==> json.fromJson(request.body).Object?
  {
    KeyValueOf(json.fromJson(request.body))
  }

  /** `handlePostSubmit`: the new store and the response. */
  function Submitted(store: Store, request: Request, json: Json): (r: (Store, Reply))
    ensures !IsJson(request) ==> r == (store, Plain(415, "Unsupported Media Type"))
    ensures Sends(r.1, 201) <==>
      IsJson(request) && Entry(request, json).Some? && json.parseObject(Entry(request, json).value.1).Some?
    ensures Sends(r.1, 201) ==> (Entry(request, json).Some? &&
      var kv := Entry(request, json).value;
      json.parseObject(kv.1).Some? && r.0 == store[kv.0 := json.parseObject(kv.1).value])
    ensures !Sends(r.1, 201) ==> r.0 == store && (Sends(r.1, 400) || Sends(r.1, 415))
  {
    if !IsJson(request) then (store, Plain(415, "Unsupported Media Type"))
    else
      var d := json.fromJson(request.body);
      if d.Malformed? then (store, Plain(400, InvalidJson))
      else match KeyValueOf(d)
        case None => (store, Plain(400, NeedsKeyValue))
        case Some((k, v)) =>
          match json.parseObject(v)
          case None => (store, Plain(400, InvalidJson))
          case Some(obj) => (store[k := obj], Plain(201, "New entry added: " + k + " = " + json.render(obj)))
  }

  /** `handlePutUpdate`: like submit, but only for a key already stored; the key is looked up before the value is parsed. */
  function Updated(store: Store, request: Request, json: Json): (r: (Store, Reply))
    ensures !IsJson(request) ==> r == (store, Plain(415, "Unsupported Media Type"))
    ensures Sends(r.1, 404) <==>
      IsJson(request) && Entry(request, json).Some? && Entry(request, json).value.0 !in store
    ensures Sends(r.1, 200) <==>
      IsJson(request) && Entry(request, json).Some? && Entry(request, json).value.0 in store &&
      json.parseObject(Entry(request, json).value.1).Some?
    ensures Sends(r.1, 200) ==> (Entry(request, json).Some? &&
      var kv := Entry(request, json).value;
      kv.0 in store && json.parseObject(kv.1).Some? && r.0 == store[kv.0 := json.parseObject(kv.1).value])
    ensures !Sends(r.1, 200) ==> r.0 == store
    ensures r.0.Keys == store.Keys
  {
    if !IsJson(request) then (store, Plain(415, "Unsupported Media Type"))
    else
      var d := json.fromJson(request.body);
      if d.Malformed? then (store, Plain(400, InvalidJson))
      else match KeyValueOf(d)
        case None => (store, Plain(400, NeedsKeyValue))
        case Some((k, v)) =>
          if k !in store then (store, Plain(404, "Data not found for key: " + k))
          else match json.parseObject(v)
            case None => (store, Plain(400, InvalidJson))
            case Some(obj) => (store[k := obj], Plain(200, "Updated entry: " + k + " = " + json.render(obj)))
  }

  /** The object after `existingObject.add(name, value)` for every field of `mods`. */
  function Merged(existing: Fields, mods: Fields): (r: Fields)
    ensures r.Keys == existing.Keys + mods.Keys
    ensures forall k :: k in mods ==> r[k] == mods[k]
    ensures forall k :: k in existing && k !in mods ==> r[k] == existing[k]
  {
    map k | k in existing.Keys + mods.Keys :: if k in mods then mods[k] else existing[k]
  }

  /** `handlePatchModify`: for a stored key, the stored object with the modification's fields written over it. */
  function Modified(store: Store, request: Request, json: Json): (r: (Store, Reply))
    ensures !IsJson(request) ==> r == (store, Plain(415, "Unsupported Media Type"))
    ensures Sends(r.1, 404) <==>
      IsJson(request) && Entry(request, json).Some? && Entry(request, json).value.0 !in store
    ensures Sends(r.1, 200) <==>
      IsJson(request) && Entry(request, json).Some? && Entry(request, json).value.0 in store &&
      json.parseObject(Entry(request, json).value.1).Some?
    ensures Sends(r.1, 200) ==> (Entry(request, json).Some? &&
      var kv := Entry(request, json).value;
      kv.0 in store && json.parseObject(kv.1).Some? &&
      r.0 == store[kv.0 := Merged(store[kv.0], json.parseObject(kv.1).value)])
    ensures !Sends(r.1, 200) ==> r.0 == store
    ensures r.0.Keys == store.Keys
  {
    if !IsJson(request) then (store, Plain(415, "Unsupported Media Type"))
    else
      var d := json.fromJson(request.body);
      if d.Malformed? then (store, Plain(400, InvalidJson))
      else match KeyValueOf(d)
        case None => (store, Plain(400, NeedsKeyValue))
        case Some((k, v)) =>
          if k !in store then (store, Plain(404, "Data not found for key: " + k))
          else match json.parseObject(v)
            case None => (store, Plain(400, InvalidJson))
            case Some(mods) =>
              var merged := Merged(store[k], mods);
              (store[k := merged], Plain(200, "Modified entry: " + k + " = " + json.render(merged)))
  }

  /** `handleDelete`: no media-type check; removes a stored key. */
  function Deleted(store: Store, request: Request, json: Json): (r: (Store, Reply))
    ensures Sends(r.1, 200) <==>
      json.fromJson(request.body).Object? && "key" in json.fromJson(request.body).entries &&
      json.fromJson(request.body).entries["key"] in store
    ensures Sends(r.1, 200) ==> r.0 == store - {json.fromJson(request.body).entries["key"]}
    ensures !Sends(r.1, 200) ==> r.0 == store && (Sends(r.1, 400) || Sends(r.1, 404))
  {
    match json.fromJson(request.body)
    case Malformed => (store, Plain(400, InvalidJson))
    case Null => (store, Plain(400, NeedsKey))
    case Object(e) =>
      if "key" !in e then (store, Plain(400, NeedsKey))
      else if e["key"] in store then (store - {e["key"]}, Plain(200, "Deleted entry with key: " + e["key"]))
      else (store, Plain(404, "Data not found for key: " + e["key"]))
  }

  /** Submit, update and patch answer 415 exactly when the content type is not `application/json`; delete never does. */
  lemma MediaTypeChecked(store: Store, request: Request, json: Json)
    ensures Sends(Submitted(store, request, json).1, 415) <==> !IsJson(request)
    ensures Sends(Updated(store, request, json).1, 415) <==> !IsJson(request)
    ensures Sends(Modified(store, request, json).1, 415) <==> !IsJson(request)
    ensures !Sends(Deleted(store, request, json).1, 415)
  {
  }

  /** Only an update of a stored key changes the store, and the keys stay the same. */
  lemma UpdateAbsentUnchanged(store: Store, request: Request, json: Json, k: string)
    requires Entry(request, json).Some? && Entry(request, json).value.0 == k && k !in store
    ensures Updated(store, request, json).0 == store
    ensures IsJson(request) ==> Sends(Updated(store, request, json).1, 404)
  {
  }

  /** A delete of a key present answers 200; deleting it again answers 404. */
  lemma DeleteTwice(store: Store, request: Request, json: Json)
    requires json.fromJson(request.body).Object? && "key" in json.fromJson(request.body).entries
    requires json.fromJson(request.body).entries["key"] in store
    ensures Sends(Deleted(store, request, json).1, 200)
    ensures Sends(Deleted(Deleted(store, request, json).0, request, json).1, 404)
  {
  }

  /** A submitted entry can be read back, and submitting overwrites whatever was stored under the key. */
  lemma SubmitOverwrites(store: Store, request: Request, json: Json)
    requires Sends(Submitted(store, request, json).1, 201)
    ensures var kv := Entry(request, json).value;
      var s := Submitted(store, request, json).0;
      kv.0 in s && s[kv.0] == json.parseObject(kv.1).value &&
      (forall k :: k in store && k != kv.0 ==> k in s && s[k] == store[k])
  {
  }

  /** A patch keeps every field it does not name and writes every field it names. */
  lemma PatchMerges(store: Store, request: Request, json: Json)
    requires Sends(Modified(store, request, json).1, 200)
    ensures var kv := Entry(request, json).value;
      var mods := json.parseObject(kv.1).value;
      var after := Modified(store, request, json).0[kv.0];
      (forall f :: f in mods ==> f in after && after[f] == mods[f]) &&
      (forall f :: f in store[kv.0] && f !in mods ==> f in after && after[f] == store[kv.0][f])
  {
  }

  // ---------------------------------------------------------------------------
  // The authentication handlers, as functions of the token sets

  /** `request.getHeaders().get("Authorization")`. */
  function AuthToken(request: Request): (r: Option<string>)
    ensures r.Some? <==> "Authorization" in request.headers
  {
    if "Authorization" in request.headers then Some(request.headers["Authorization"]) else None
  }

  /** `token != null && isAuthenticated(token)`. */
  predicate Known(t: Tokens, token: Option<string>) {
    token.Some? && token.value in t.authenticated
  }

  /** The 200 message of `handleSecureAdminRequest`. */
  const AdminGranted := "You have access to admin data!"

  /** The 200 message of the older copy's `handleSecureRequest`. */
  const SecureGranted := "You have access to secure data!"

  /**
   * The authorization ladder of `handleSecureAdminRequest`, and of the older
   * `handleSecureRequest` (whose `isAuthorized` is `isAdmin`): 401 without an
   * authenticated token, 403 unless it is an admin token, else 200 with `granted`.
   */
  function AccessReply(t: Tokens, token: Option<string>, granted: string): (r: Reply)
    ensures Sends(r, 401) <==> !Known(t, token)
    ensures Sends(r, 403) <==> Known(t, token) && token.value !in t.authorized
    ensures Sends(r, 200) <==> Known(t, token) && token.value in t.authorized
    ensures Sends(r, 200) ==> r == Plain(200, granted)
  {
    if !Known(t, token) then Plain(401, "Unauthorized")
    else if token.value !in t.authorized then Plain(403, "Forbidden")
    else Plain(200, granted)
  }

  /**
   * The older copy's `handleSecureRequest`, which nothing calls, answers every
   * token with the code `handleSecureAdminRequest` gives it; only its 200
   * message differs.
   */
  lemma SecureRequestAsAdmin(t: Tokens, token: Option<string>)
    ensures AccessReply(t, token, SecureGranted) ==
      if Sends(AccessReply(t, token, AdminGranted), 200) then Plain(200, SecureGranted)
      else AccessReply(t, token, AdminGranted)
  {
  }

  /** `handleSecureUserRequest`: 401 without an authenticated token, 200 otherwise. */
  function UserReply(t: Tokens, token: Option<string>): (r: Reply)
    ensures Sends(r, 401) <==> !Known(t, token)
    ensures Sends(r, 200) <==> Known(t, token)
  {
    if !Known(t, token) then Plain(401, "Unauthorized") else Plain(200, "You have access to user data!")
  }

  /** With consistent token sets, admin access is exactly an authorized token. */
  lemma AdminIffAuthorized(t: Tokens, token: Option<string>)
    requires Consistent(t)
    ensures Sends(AccessReply(t, token, AdminGranted), 200) <==> token.Some? && token.value in t.authorized
  {
  }

  /** The role a login grants: admin for `admin`/`admin`, a plain user for `user1`/`password1`, none otherwise. */
  function LoginRole(credentials: map<string, string>): (r: Option<bool>)
    ensures r == Some(true) <==> Lookup1(credentials, "username") == Some("admin") && Lookup1(credentials, "password") == Some("admin")
    ensures r == Some(false) <==> Lookup1(credentials, "username") == Some("user1") && Lookup1(credentials, "password") == Some("password1")
  {
    var user, password := Lookup1(credentials, "username"), Lookup1(credentials, "password");
    if user == Some("admin") && password == Some("admin") then Some(true)
    else if user == Some("user1") && password == Some("password1") then Some(false)
    else None
  }

  /** `credentials.get(name)`, `None` standing for `null`. */
  function Lookup1(credentials: map<string, string>, name: string): (r: Option<string>)
    ensures r.Some? <==> name in credentials
  {
    if name in credentials then Some(credentials[name]) else None
  }

  /** `handleLoginRequest` with the fresh token `token`: the new token sets and what was sent. */
  function LoggedIn(t: Tokens, d: Decoded, token: string): (r: (Tokens, Handled))
    ensures !d.Object? ==> r == (t, Threw)
    ensures d.Object? && LoginRole(d.entries).Some? ==>
      r == (Registered(t, token, LoginRole(d.entries).value), Replies([Plain(200, "Login successful. Token: " + token)]))
    ensures d.Object? && LoginRole(d.entries).None? ==> r == (t, Replies([Plain(401, "Invalid credentials")]))
  {
    if !d.Object? then (t, Threw)
    else match LoginRole(d.entries)
      case Some(admin) => (Registered(t, token, admin), Replies([Plain(200, "Login successful. Token: " + token)]))
      case None => (t, Replies([Plain(401, "Invalid credentials")]))
  }

  /** `handleRegisterRequest`: every pair is answered 200, but only `admin`/`admin` gets a (fresh, admin) token. */
  function RegisteredUser(t: Tokens, d: Decoded, token: string): (r: (Tokens, Handled))
    ensures !d.Object? ==> r == (t, Threw)
    ensures d.Object? ==> r.1.Replies? && |r.1.sent| == 1 && Sends(r.1.sent[0], 200)
    ensures d.Object? && LoginRole(d.entries) == Some(true) ==>
      r == (Registered(t, token, true), Replies([Plain(200, "Registration successful. Token: " + token)]))
    ensures d.Object? && LoginRole(d.entries) != Some(true) ==> r.0 == t
  {
    if !d.Object? then (t, Threw)
    else if LoginRole(d.entries) == Some(true) then
      (Registered(t, token, true), Replies([Plain(200, "Registration successful. Token: " + token)]))
    else
      var user := Lookup1(d.entries, "username");
      (t, Replies([Plain(200, "Registration successful for user: " + (if user.Some? then user.value else "null"))]))
  }

  /** After an admin login, the token it returns opens the admin route. */
  lemma AdminLoginOpensAdmin(t: Tokens, d: Decoded, token: string)
    requires d.Object? && LoginRole(d.entries) == Some(true)
    ensures Sends(AccessReply(LoggedIn(t, d, token).0, Some(token), AdminGranted), 200)
  {
  }

  /** After an `admin`/`admin` registration, the token it returns opens the admin route and the user route. */
  lemma AdminRegistrationOpensAdmin(t: Tokens, d: Decoded, token: string)
    requires d.Object? && LoginRole(d.entries) == Some(true)
    ensures Sends(AccessReply(RegisteredUser(t, d, token).0, Some(token), AdminGranted), 200)
    ensures Sends(UserReply(RegisteredUser(t, d, token).0, Some(token)), 200)
  {
  }

  /** Any other registration opens nothing: every token gets the answers it got before. */
  lemma OtherRegistrationOpensNothing(t: Tokens, d: Decoded, token: string, probe: Option<string>)
    requires d.Object? && LoginRole(d.entries) != Some(true)
    ensures AccessReply(RegisteredUser(t, d, token).0, probe, AdminGranted) == AccessReply(t, probe, AdminGranted)
    ensures UserReply(RegisteredUser(t, d, token).0, probe) == UserReply(t, probe)
  {
  }

  /** After a user login, the token it returns opens the user route; it opens the admin route only if it was already an admin token. */
  lemma UserLoginOpensUser(t: Tokens, d: Decoded, token: string)
    requires d.Object? && LoginRole(d.entries) == Some(false)
    ensures Sends(UserReply(LoggedIn(t, d, token).0, Some(token)), 200)
    ensures Sends(AccessReply(LoggedIn(t, d, token).0, Some(token), AdminGranted), 200) <==> token in t.authorized
  {
  }

  // ---------------------------------------------------------------------------
  // `handleContinueRequest`: the header decision

  const ContinueToken: string := "100-continue"

  /** `expectHeader != null && expectHeader.equalsIgnoreCase("100-continue")`. */
  predicate ExpectsContinue(request: Request) {
    "Expect" in request.headers && JavaStrings.EqualsIgnoreCase(request.headers["Expect"], ContinueToken)
  }

  /**
   * `handleContinueRequest`: with the expectation, the interim 100 and then,
   * once the body `received` has been read, 200 echoing it; otherwise 417.
   */
  function Continued(request: Request, received: string): (r: Handled)
    ensures ExpectsContinue(request) ==> r.Replies? && r.sent == [SendContinue, Plain(200, "Received data: " + received)]
    ensures !ExpectsContinue(request) ==> r == Replies([Plain(417, "Expectation Failed")])
  {
    if ExpectsContinue(request) then Replies([SendContinue, Plain(200, "Received data: " + received)])
    else Replies([Plain(417, "Expectation Failed")])
  }

  /**
   * Any spelling of `100-continue` in small or capital letters is accepted,
   * and so is a dotted capital I or a dotless i in place of its `i`; nothing
   * else is.
   */
  lemma ContinueIgnoresCase(request: Request)
    requires "Expect" in request.headers
    ensures ExpectsContinue(request) <==>
      |request.headers["Expect"]| == |ContinueToken| &&
      forall i :: 0 <= i < |ContinueToken| ==>
        var c := request.headers["Expect"][i];
        c == ContinueToken[i] || c == JavaStrings.UpperCase(ContinueToken[i]) ||
        (ContinueToken[i] == 'i' && (c == '\U{0130}' || c == '\U{0131}'))
  {
    JavaStrings.EqualsIgnoreCaseSmall(request.headers["Expect"], ContinueToken);
  }

  // ---------------------------------------------------------------------------
  // The route table of `handleRequest` and the dispatcher's guards

  /** The branch of `handleRequest` a method and path take. */
  datatype Action = Hello | Data | SecureUser | SecureAdmin | SubmitEntry | RegisterUser | LoginUser
    | UpdateEntry | ModifyEntry | DeleteEntry | NoRoute

  function Route(httpMethod: string, path: string): (a: Action)
    ensures a == NoRoute <==> (httpMethod, path) !in RoutedPairs
  {
    match httpMethod
    case "GET" =>
      if path == "/" then Hello else if path == "/data" then Data
      else if path == "/secure/user" then SecureUser else if path == "/secure/admin" then SecureAdmin
      else NoRoute
    case "POST" =>
      if path == "/submit" then SubmitEntry else if path == "/register" then RegisterUser
      else if path == "/login" then LoginUser else NoRoute
    case "PUT" => if path == "/update" then UpdateEntry else NoRoute
    case "PATCH" => if path == "/modify" then ModifyEntry else NoRoute
    case "DELETE" => if path == "/delete" then DeleteEntry else NoRoute
    case _ => NoRoute
  }

  /** The method and path pairs `handleRequest` has a branch for. */
  const RoutedPairs: set<(string, string)> := {
    ("GET", "/"), ("GET", "/data"), ("GET", "/secure/user"), ("GET", "/secure/admin"),
    ("POST", "/submit"), ("POST", "/register"), ("POST", "/login"),
    ("PUT", "/update"), ("PATCH", "/modify"), ("DELETE", "/delete")}

  /** The store action of a branch, if it has one. */
  function StoreStep(a: Action, store: Store, request: Request, json: Json): (Store, Reply)
    requires a in {SubmitEntry, UpdateEntry, ModifyEntry, DeleteEntry}
  {
    match a
    case SubmitEntry => Submitted(store, request, json)
    case UpdateEntry => Updated(store, request, json)
    case ModifyEntry => Modified(store, request, json)
    case DeleteEntry => Deleted(store, request, json)
  }

  /**
   * `handleRequest` on the store and the token sets, with `token` the fresh
   * token a login or registration would hand out: the new store, the new
   * token sets and what was sent.
   */
  function Respond(store: Store, t: Tokens, request: Request, json: Json, token: string): (r: (Store, Tokens, Handled))
    ensures Route(request.httpMethod, request.path) == NoRoute ==> r == (store, t, Replies([Plain(404, "Not Found")]))
    ensures Route(request.httpMethod, request.path) !in {RegisterUser, LoginUser} ==> r.1 == t
    ensures Route(request.httpMethod, request.path) !in {SubmitEntry, UpdateEntry, ModifyEntry, DeleteEntry} ==> r.0 == store
  {
    var a := Route(request.httpMethod, request.path);
    match a
    case Hello => (store, t, Replies([Plain(200, "Hello, World!")]))
    case Data => (store, t, Replies([Send(200, json.renderStore(store), Some(JsonType))]))
    case SecureUser => (store, t, Replies([UserReply(t, AuthToken(request))]))
    case SecureAdmin => (store, t, Replies([AccessReply(t, AuthToken(request), AdminGranted)]))
    case RegisterUser =>
      var (t', h) := RegisteredUser(t, json.fromJson(request.body), token);
      (store, t', h)
    case LoginUser =>
      var (t', h) := LoggedIn(t, json.fromJson(request.body), token);
      (store, t', h)
    case NoRoute => (store, t, Replies([Plain(404, "Not Found")]))
    case _ =>
      var (s', reply) := StoreStep(a, store, request, json);
      (s', t, Replies([reply]))
  }

  /** Whether the task finished or threw within the ten seconds, or was still running at the deadline, having sent its response already or not. */
  datatype Timing = InTime | TimedOut(alreadySent: bool)

  /** The guards of `handleRequestWithTimeout`: 503 when the service is off, before the body size is looked at; then 413. */
  function Guard(available: bool, body: string): (r: Option<Reply>)
    ensures !available ==> r == Some(Plain(503, "Service Unavailable"))
    ensures available && |body| > MaxBody ==> r == Some(Plain(413, "Payload Too Large"))
    ensures r.None? <==> available && |body| <= MaxBody
  {
    if !available then Some(Plain(503, "Service Unavailable"))
    else if |body| > MaxBody then Some(Plain(413, "Payload Too Large"))
    else None
  }

  /** What the handler itself sent: nothing when it threw. */
  function SentBy(h: Handled): (sent: seq<Reply>)
    ensures h.Replies? ==> sent == h.sent
    ensures h.Threw? ==> sent == []
  {
    if h.Replies? then h.sent else []
  }

  /**
   * What the client receives from a handled request. Within the ten seconds:
   * what the handler sent, or 500 when it threw. On a timeout the handler's
   * own exception is never seen by `future.get`: 504 when nothing had been
   * sent, and otherwise what the handler had sent.
   */
  function Fallback(h: Handled, timing: Timing): (sent: seq<Reply>)
    ensures timing == InTime && h.Threw? ==> sent == [Plain(500, "Internal Server Error")]
    ensures timing == InTime && h.Replies? ==> sent == h.sent
    ensures timing.TimedOut? && !timing.alreadySent ==> sent == [Plain(504, "Gateway Timeout")]
    ensures timing.TimedOut? && timing.alreadySent ==> sent == SentBy(h)
  {
    match timing
    case TimedOut(alreadySent) => if alreadySent then SentBy(h) else [Plain(504, "Gateway Timeout")]
    case InTime => if h.Threw? then [Plain(500, "Internal Server Error")] else h.sent
  }

  /** A fallback response is sent only when the handler sent nothing, and then it is a single 500 or 504. */
  lemma FallbackOnlyIfUnsent(h: Handled, timing: Timing)
    ensures Fallback(h, timing) != SentBy(h) ==>
      (h.Threw? && timing == InTime) || (timing.TimedOut? && !timing.alreadySent)
    ensures Fallback(h, timing) != SentBy(h) ==>
      Fallback(h, timing) == [Plain(500, "Internal Server Error")] || Fallback(h, timing) == [Plain(504, "Gateway Timeout")]
  {
  }

  // ---------------------------------------------------------------------------
  // The registrations of `registerHandlers`

  /** The method references `registerHandlers` binds. */
  datatype Endpoint = WithTimeout | External | SecureAdminRequest | SecureUserRequest
    | RegisterRequest | LoginRequest | ContinueRequest | Redirect

  /** A sequence of `addHandler(method, path, handler)` calls, first call first. */
  datatype Calls = Done | Call(httpMethod: string, path: string, handler: Endpoint, rest: Calls)

  /**
   * The calls `registerHandlers` makes, in order; `legacy` is the older copy,
   * which binds `GET /external` to the dispatcher instead of `handleExternalRequest`.
   */
  function Registrations(legacy: bool): Calls {
    Call("GET", "/", WithTimeout,
    Call("GET", "/data", WithTimeout,
    Call("POST", "/submit", WithTimeout,
    Call("PUT", "/update", WithTimeout,
    Call("PATCH", "/modify", WithTimeout,
    Call("DELETE", "/delete", WithTimeout,
    OtherCalls(legacy)))))))
  }

  /** The calls after the six that go through the dispatcher. */
  function OtherCalls(legacy: bool): Calls {
    Call("GET", "/external", if legacy then WithTimeout else External,
    Call("GET", "/secure/admin", SecureAdminRequest,
    Call("GET", "/secure/user", SecureUserRequest,
    Call("POST", "/register", RegisterRequest,
    Call("POST", "/login", LoginRequest,
    Call("POST", "/continue", ContinueRequest,
    Call("GET", "/redirect", Redirect,
    Done)))))))
  }

  /** The registry after the calls `cs`, one `addHandler` after another. */
  function Installed(handlers: map<string, map<string, Endpoint>>, cs: Calls): map<string, map<string, Endpoint>>
    decreases cs
  {
    match cs
    case Done => handlers
    case Call(m, p, e, rest) => Installed(Added(handlers, m, p, e), rest)
  }

  /** The endpoint the last of the calls `cs` for `(m, p)` binds, if there is one. */
  function BoundIn(cs: Calls, m: string, p: string): Option<Endpoint> {
    match cs
    case Done => None
    case Call(m', p', e, rest) =>
      var later := BoundIn(rest, m, p);
      if later.Some? then later else if (m', p') == (m, p) then Some(e) else None
  }

  /** After the calls `cs`, a pair is bound to what its last registration binds; a pair never registered keeps its old handler. */
  lemma {:induction false} InstalledLookup(handlers: map<string, map<string, Endpoint>>, cs: Calls, m: string, p: string)
    ensures Lookup(Installed(handlers, cs), m, p) == if BoundIn(cs, m, p).Some? then BoundIn(cs, m, p) else Lookup(handlers, m, p)
    decreases cs
  {
    if cs.Call? {
      InstalledLookup(Added(handlers, cs.httpMethod, cs.path, cs.handler), cs.rest, m, p);
    }
  }

  /** `registerHandlers(server)`: thirteen `addHandler` calls. */
  method RegisterHandlers(server: HttpServer<Endpoint>, legacy: bool)
    modifies server
    ensures server.handlers == Installed(old(server.handlers), Registrations(legacy))
    ensures server.channel == old(server.channel)
  {
    ghost var h := server.handlers;
    server.AddHandler("GET", "/", WithTimeout);
    server.AddHandler("GET", "/data", WithTimeout);
    server.AddHandler("POST", "/submit", WithTimeout);
    server.AddHandler("PUT", "/update", WithTimeout);
    server.AddHandler("PATCH", "/modify", WithTimeout);
    server.AddHandler("DELETE", "/delete", WithTimeout);
    server.AddHandler("GET", "/external", if legacy then WithTimeout else External);
    server.AddHandler("GET", "/secure/admin", SecureAdminRequest);
    server.AddHandler("GET", "/secure/user", SecureUserRequest);
    server.AddHandler("POST", "/register", RegisterRequest);
    server.AddHandler("POST", "/login", LoginRequest);
    server.AddHandler("POST", "/continue", ContinueRequest);
    server.AddHandler("GET", "/redirect", Redirect);
    assert server.handlers == AddOthers(AddDispatched(h), legacy);
    DispatchedInstalled(h, legacy);
    OthersInstalled(AddDispatched(h), legacy);
  }

  /** The registry after the first six calls, written out. */
  function AddDispatched(h: map<string, map<string, Endpoint>>): map<string, map<string, Endpoint>> {
    var h := Added(h, "GET", "/", WithTimeout);
    var h := Added(h, "GET", "/data", WithTimeout);
    var h := Added(h, "POST", "/submit", WithTimeout);
    var h := Added(h, "PUT", "/update", WithTimeout);
    var h := Added(h, "PATCH", "/modify", WithTimeout);
    Added(h, "DELETE", "/delete", WithTimeout)
  }

  /** The registry after the other seven calls, written out. */
  function AddOthers(h: map<string, map<string, Endpoint>>, legacy: bool): map<string, map<string, Endpoint>> {
    var h := Added(h, "GET", "/external", if legacy then WithTimeout else External);
    var h := Added(h, "GET", "/secure/admin", SecureAdminRequest);
    var h := Added(h, "GET", "/secure/user", SecureUserRequest);
    var h := Added(h, "POST", "/register", RegisterRequest);
    var h := Added(h, "POST", "/login", LoginRequest);
    var h := Added(h, "POST", "/continue", ContinueRequest);
    Added(h, "GET", "/redirect", Redirect)
  }

  /** Installing a first call is adding it, then installing the rest. */
  lemma InstalledStep(h: map<string, map<string, Endpoint>>, cs: Calls)
    requires cs.Call?
    ensures Installed(h, cs) == Installed(Added(h, cs.httpMethod, cs.path, cs.handler), cs.rest)
  {
  }

  lemma DispatchedInstalled(h: map<string, map<string, Endpoint>>, legacy: bool)
    ensures Installed(h, Registrations(legacy)) == Installed(AddDispatched(h), OtherCalls(legacy))
  {
    var h0, c0 := h, Registrations(legacy);
    var h1, c1 := Added(h0, "GET", "/", WithTimeout), c0.rest;
    InstalledStep(h0, c0);
    var h2, c2 := Added(h1, "GET", "/data", WithTimeout), c1.rest;
    InstalledStep(h1, c1);
    var h3, c3 := Added(h2, "POST", "/submit", WithTimeout), c2.rest;
    InstalledStep(h2, c2);
    var h4, c4 := Added(h3, "PUT", "/update", WithTimeout), c3.rest;
    InstalledStep(h3, c3);
    var h5, c5 := Added(h4, "PATCH", "/modify", WithTimeout), c4.rest;
    InstalledStep(h4, c4);
    var h6, c6 := Added(h5, "DELETE", "/delete", WithTimeout), c5.rest;
    InstalledStep(h5, c5);
  }

  lemma OthersInstalled(h: map<string, map<string, Endpoint>>, legacy: bool)
    ensures Installed(h, OtherCalls(legacy)) == AddOthers(h, legacy)
  {
    var h0, c0 := h, OtherCalls(legacy);
    var h1, c1 := Added(h0, "GET", "/external", if legacy then WithTimeout else External), c0.rest;
    InstalledStep(h0, c0);
    var h2, c2 := Added(h1, "GET", "/secure/admin", SecureAdminRequest), c1.rest;
    InstalledStep(h1, c1);
    var h3, c3 := Added(h2, "GET", "/secure/user", SecureUserRequest), c2.rest;
    InstalledStep(h2, c2);
    var h4, c4 := Added(h3, "POST", "/register", RegisterRequest), c3.rest;
    InstalledStep(h3, c3);
    var h5, c5 := Added(h4, "POST", "/login", LoginRequest), c4.rest;
    InstalledStep(h4, c4);
    var h6, c6 := Added(h5, "POST", "/continue", ContinueRequest), c5.rest;
    InstalledStep(h5, c5);
    var h7, c7 := Added(h6, "GET", "/redirect", Redirect), c6.rest;
    InstalledStep(h6, c6);
  }

  /** In the newer copy, exactly the six store and greeting routes of `handleRequest` are bound to the dispatcher. */
  lemma GuardedRoutes(m: string, p: string)
    requires Route(m, p) != NoRoute
    ensures BoundIn(Registrations(false), m, p) == Some(WithTimeout) <==>
      Route(m, p) in {Hello, Data, SubmitEntry, UpdateEntry, ModifyEntry, DeleteEntry}
  {
  }

  /** Every branch of `handleRequest` has a registration, so no routed request is turned away by the server channel. */
  lemma RoutesRegistered(legacy: bool, m: string, p: string)
    requires Route(m, p) != NoRoute
    ensures BoundIn(Registrations(legacy), m, p).Some?
  {
  }

  /**
   * `registerHandlers` binds `GET /external` to the dispatcher in the older
   * copy and to `handleExternalRequest` in the newer one (see `InstalledLookup`
   * for what the registry then answers).
   */
  lemma ExternalBinding()
    ensures BoundIn(Registrations(true), "GET", "/external") == Some(WithTimeout)
    ensures BoundIn(Registrations(false), "GET", "/external") == Some(External)
  {
  }

  /** The dispatcher's route table has no branch for `GET /external`: through it, the request is answered 404. */
  lemma ExternalNotRouted(store: Store, t: Tokens, request: Request, json: Json, token: string)
    requires request.httpMethod == "GET" && request.path == "/external"
    ensures Respond(store, t, request, json, token) == (store, t, Replies([Plain(404, "Not Found")]))
  {
  }

  // ---------------------------------------------------------------------------
  // The handler object

  class RequestHandler {
    var store: Store
    var serviceAvailable: bool
    var longTimeout: bool
    var externalAvailable: bool
    const auth: AuthService
    const json: Json

    /**
     * The constructor puts the example entry into the static store, which held
     * `existing`, and leaves the three static flags as they were: `available`,
     * `longTimeout` and `externalAvailable` are their values at that moment
     * (true, false and true in a fresh program).
     */
    constructor (auth: AuthService, json: Json, existing: Store, available: bool, longTimeout: bool, externalAvailable: bool)
      ensures store == existing["example" := Example]
      ensures serviceAvailable == available && this.longTimeout == longTimeout && this.externalAvailable == externalAvailable
      ensures this.auth == auth && this.json == json
    {
      this.auth := auth;
      this.json := json;
      store := existing["example" := Example];
      serviceAvailable := available;
      this.longTimeout := longTimeout;
      this.externalAvailable := externalAvailable;
    }

    /** `setServiceAvailable`. */
    method SetServiceAvailable(available: bool)
      modifies this
      ensures serviceAvailable == available && store == old(store)
      ensures longTimeout == old(longTimeout) && externalAvailable == old(externalAvailable)
    {
      serviceAvailable := available;
    }

    /** `setFlagForLongTimeout`: the flag is carried; nothing here reads it (the delay it turns on is a `Timing`). */
    method SetLongTimeout(flag: bool)
      modifies this
      ensures longTimeout == flag && store == old(store)
      ensures serviceAvailable == old(serviceAvailable) && externalAvailable == old(externalAvailable)
    {
      longTimeout := flag;
    }

    /** `setExternalServiceAvailable`: the flag is carried; `handleExternalRequest`, which reads it, is network I/O. */
    method SetExternalServiceAvailable(available: bool)
      modifies this
      ensures externalAvailable == available && store == old(store)
      ensures serviceAvailable == old(serviceAvailable) && longTimeout == old(longTimeout)
    {
      externalAvailable := available;
    }

    /** `handlePostSubmit`. */
    method PostSubmit(request: Request) returns (reply: Reply)
      modifies this
      ensures (store, reply) == Submitted(old(store), request, json)
      ensures serviceAvailable == old(serviceAvailable) && longTimeout == old(longTimeout) && externalAvailable == old(externalAvailable)
    {
      if !IsJson(request) {
        return Plain(415, "Unsupported Media Type");
      }
      var d := json.fromJson(request.body);
      if d.Malformed? {
        return Plain(400, InvalidJson);
      }
      var kv := KeyValueOf(d);
      if kv.None? {
        return Plain(400, NeedsKeyValue);
      }
      var obj := json.parseObject(kv.value.1);
      if obj.None? {
        return Plain(400, InvalidJson);
      }
      store := store[kv.value.0 := obj.value];
      reply := Plain(201, "New entry added: " + kv.value.0 + " = " + json.render(obj.value));
    }

    /** `handlePutUpdate`. */
    method PutUpdate(request: Request) returns (reply: Reply)
      modifies this
      ensures (store, reply) == Updated(old(store), request, json)
      ensures serviceAvailable == old(serviceAvailable) && longTimeout == old(longTimeout) && externalAvailable == old(externalAvailable)
    {
      if !IsJson(request) {
        return Plain(415, "Unsupported Media Type");
      }
      var d := json.fromJson(request.body);
      if d.Malformed? {
        return Plain(400, InvalidJson);
      }
      var kv := KeyValueOf(d);
      if kv.None? {
        return Plain(400, NeedsKeyValue);
      }
      var k := kv.value.0;
      if k !in store {
        return Plain(404, "Data not found for key: " + k);
      }
      var obj := json.parseObject(kv.value.1);
      if obj.None? {
        return Plain(400, InvalidJson);
      }
      store := store[k := obj.value];
      reply := Plain(200, "Updated entry: " + k + " = " + json.render(obj.value));
    }

    /** `handlePatchModify`: the loop over the modification's entries writes each one into the stored object. */
    method PatchModify(request: Request) returns (reply: Reply)
      modifies this
      ensures (store, reply) == Modified(old(store), request, json)
      ensures serviceAvailable == old(serviceAvailable) && longTimeout == old(longTimeout) && externalAvailable == old(externalAvailable)
    {
      if !IsJson(request) {
        return Plain(415, "Unsupported Media Type");
      }
      var d := json.fromJson(request.body);
      if d.Malformed? {
        return Plain(400, InvalidJson);
      }
      var kv := KeyValueOf(d);
      if kv.None? {
        return Plain(400, NeedsKeyValue);
      }
      var k := kv.value.0;
      if k !in store {
        return Plain(404, "Data not found for key: " + k);
      }
      var mods := json.parseObject(kv.value.1);
      if mods.None? {
        return Plain(400, InvalidJson);
      }
      var merged := MergeInto(store[k], mods.value);
      store := store[k := merged];
      reply := Plain(200, "Modified entry: " + k + " = " + json.render(merged));
    }

    /** `handleDelete`. */
    method Delete(request: Request) returns (reply: Reply)
      modifies this
      ensures (store, reply) == Deleted(old(store), request, json)
      ensures serviceAvailable == old(serviceAvailable) && longTimeout == old(longTimeout) && externalAvailable == old(externalAvailable)
    {
      var d := json.fromJson(request.body);
      if d.Malformed? {
        return Plain(400, InvalidJson);
      }
      if d.Null? || "key" !in d.entries {
        return Plain(400, NeedsKey);
      }
      var k := d.entries["key"];
      if k in store {
        store := store - {k};
        reply := Plain(200, "Deleted entry with key: " + k);
      } else {
        reply := Plain(404, "Data not found for key: " + k);
      }
    }

    /** `handleLoginRequest`, with `token` the fresh UUID. */
    method Login(request: Request, token: string) returns (h: Handled)
      requires auth.Valid()
      modifies auth
      ensures (auth.State(), h) == LoggedIn(old(auth.State()), json.fromJson(request.body), token)
      ensures auth.Valid()
    {
      var d := json.fromJson(request.body);
      if !d.Object? {
        return Threw;
      }
      var role := LoginRole(d.entries);
      if role.Some? {
        auth.RegisterToken(token, role.value);
        h := Replies([Plain(200, "Login successful. Token: " + token)]);
      } else {
        h := Replies([Plain(401, "Invalid credentials")]);
      }
    }

    /** `handleRegisterRequest`, with `token` the fresh UUID. */
    method Register(request: Request, token: string) returns (h: Handled)
      requires auth.Valid()
      modifies auth
      ensures (auth.State(), h) == RegisteredUser(old(auth.State()), json.fromJson(request.body), token)
      ensures auth.Valid()
    {
      var d := json.fromJson(request.body);
      if !d.Object? {
        return Threw;
      }
      if LoginRole(d.entries) == Some(true) {
        auth.RegisterToken(token, true);
        h := Replies([Plain(200, "Registration successful. Token: " + token)]);
      } else {
        var user := Lookup1(d.entries, "username");
        h := Replies([Plain(200, "Registration successful for user: " + (if user.Some? then user.value else "null"))]);
      }
    }

    /** `handleRequest`: the route table. */
    method HandleRequest(request: Request, token: string) returns (h: Handled)
      requires auth.Valid()
      modifies this, auth
      ensures (store, auth.State(), h) == Respond(old(store), old(auth.State()), request, json, token)
      ensures auth.Valid()
      ensures serviceAvailable == old(serviceAvailable) && longTimeout == old(longTimeout) && externalAvailable == old(externalAvailable)
    {
      var reply;
      match Route(request.httpMethod, request.path)
      case Hello => h := Replies([Plain(200, "Hello, World!")]);
      case Data => h := Replies([Send(200, json.renderStore(store), Some(JsonType))]);
      case SecureUser => h := Replies([UserReply(auth.State(), AuthToken(request))]);
      case SecureAdmin => h := Replies([AccessReply(auth.State(), AuthToken(request), AdminGranted)]);
      case SubmitEntry => reply := PostSubmit(request); h := Replies([reply]);
      case RegisterUser => h := Register(request, token);
      case LoginUser => h := Login(request, token);
      case UpdateEntry => reply := PutUpdate(request); h := Replies([reply]);
      case ModifyEntry => reply := PatchModify(request); h := Replies([reply]);
      case DeleteEntry => reply := Delete(request); h := Replies([reply]);
      case NoRoute => h := Replies([Plain(404, "Not Found")]);
    }

    /** `handleRequestWithTimeout`: the guards, then `handleRequest` with the fallback the task's timing calls for. */
    method HandleRequestWithTimeout(request: Request, token: string, timing: Timing) returns (sent: seq<Reply>)
      requires auth.Valid()
      modifies this, auth
      ensures Guard(old(serviceAvailable), request.body).Some? ==>
        sent == [Guard(old(serviceAvailable), request.body).value] && store == old(store) && auth.State() == old(auth.State())
      ensures Guard(old(serviceAvailable), request.body).None? ==>
        var r := Respond(old(store), old(auth.State()), request, json, token);
        store == r.0 && auth.State() == r.1 && sent == Fallback(r.2, timing)
      ensures auth.Valid()
      ensures serviceAvailable == old(serviceAvailable) && longTimeout == old(longTimeout) && externalAvailable == old(externalAvailable)
    {
      var guard := Guard(serviceAvailable, request.body);
      if guard.Some? {
        return [guard.value];
      }
      var h := HandleRequest(request, token);
      sent := Fallback(h, timing);
    }
  }

  /** The patch loop: each entry of `mods` written into a copy of `existing`. */
  method MergeInto(existing: Fields, mods: Fields) returns (merged: Fields)
    ensures merged == Merged(existing, mods)
  {
    merged := existing;
    var todo := mods.Keys;
    while todo != {}
      invariant todo <= mods.Keys
      invariant merged == Merged(existing, mods - todo)
      decreases |todo|
    {
      var k :| k in todo;
      ghost var before := mods - todo;
      todo := todo - {k};
      assert mods - todo == before[k := mods[k]];
      merged := merged[k := mods[k]];
    }
    assert mods - todo == mods;
  }
}
