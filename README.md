# HTTP_Server core, modelled in Dafny

This project models the request and response logic of a small Java HTTP
server (two snapshots of one code base: the root `org.example` package and the
newer `handlers`/`server`/`auth` packages):

- the non-blocking server channel's `handleRequest`, which splits one read on
  CRLF, checks the request line, collects `Key: Value` headers up to the
  first empty line, takes one body line and either answers 400/404 or calls
  the handler registered for the method and path;
- `HttpRequest`'s query-string splitter and `HttpResponse`'s wire format and
  status table;
- `MultipartParser`: the boundary taken from the Content-Type and the
  line-driven scanner over delimiter lines, modelled as written, with its
  quirks, next to the scanner it was evidently meant to be;
- the handler registry of both `HttpServer` classes and the token sets of
  both `AuthService` classes;
- `HttpRequestHandler` (both copies): the dispatcher's guards and fallbacks,
  its route table, the data-store handlers (submit, update, patch, delete),
  the 401/403/200 ladder, login and registration, and the
  `Expect: 100-continue` check;
- the blocking `ClientSession`: reading the request head, cutting the
  resource out of it, the answer header and the copy of the resource.

Java's `String` operations the code relies on (`split` with its dropped
trailing empty pieces, `indexOf`, `trim`, `startsWith`, `equalsIgnoreCase`,
`BufferedReader.readLine`) are written out once in `JavaStrings`; the
`split(": ")`/`split("=")` pair rule and the header loop's stopping point are
in `KeyValues`. State that the Java code updates in place (the registry, the
token sets, the data store, the output of a response or a session, the line
reader) is held in classes whose methods are proved against the functions
that specify them.

Nondeterminism and the outside world are parameters: the text of one read,
the fresh UUID token, the date string, the JSON library (`Handlers.Json`),
the set of resources a session can serve, the value of `line.separator`, and
whether a dispatched task finished in time.

The server channel only demands two tokens on the request line and never
answers 501 or 505 (`HttpServerChannel.java:81-88`). `ServerTest.java:197`
and `ServerTest.java:267` expect a 505 and a 501 from the newer
`org.example.server.HttpServer`, whose channel is not part of this model. The
multipart parser's `trim()` removes white space at both ends of a body.

## Model

| member | source | states |
|---|---|---|
| ServerChannel.HeadersAndBody | src/main/java/org/example/HttpServerChannel.java:90-103 | the header loop keeps the `Key: Value` lines up to the first empty line (last one wins) and the body is the one line after it, as `HeadersOf`/`BodyOf` say |
| ServerChannel.Route | src/main/java/org/example/HttpServerChannel.java:73-112 | the outcome of the parsing half of `handleRequest` is exactly `Decide` of the text: 400, 404 or a dispatch with the parsed request |
| ServerChannel.HandleRequest | src/main/java/org/example/HttpServerChannel.java:73-118 | a 400 or 404 outcome writes one `text/plain` response of that code and closes the channel; a dispatch writes nothing itself |
| ServerChannel.OnRead | src/main/java/org/example/HttpServerChannel.java:57-71 | a read of -1 closes the channel and cancels the key without parsing; any other read is handled as `Decide` of its text, leaving the key as it was: a 400 or 404 writes one `text/plain` response of that code if the channel was open and closes it, and a dispatch leaves the channel untouched |
| ServerChannel.BlankStartIsBadRequest | src/main/java/org/example/HttpServerChannel.java:74-79 | an empty read, or one whose first line is empty, is answered 400 "Bad Request" and no handler runs |
| ServerChannel.SingleTokenIsBadRequest | src/main/java/org/example/HttpServerChannel.java:81-85 | a first line with no space (fewer than two tokens), empty or not, is answered 400, whatever follows it |
| ServerChannel.RequestLineTokens | src/main/java/org/example/HttpServerChannel.java:81-88 | the method and path are the first two space-separated tokens of the request line; what follows them is not looked at |
| ServerChannel.DispatchIffRegistered | src/main/java/org/example/HttpServerChannel.java:108-112 | the handler runs iff the request line has two tokens and the registry holds the method with the path under it; every other outcome is 400 or 404 |
| ServerChannel.BlankAt | src/main/java/org/example/HttpServerChannel.java:91-98 | the header loop started after the request line stops at the first empty line |
| ServerChannel.HeadersStopAtBlank | src/main/java/org/example/HttpServerChannel.java:92 | lines after the first empty line are never read as headers |
| ServerChannel.BodyAfterBlank | src/main/java/org/example/HttpServerChannel.java:100-103 | the body is the single line right after the first empty line, or empty when there is none; later lines are dropped |
| ServerChannel.NoBlankFrom | src/main/java/org/example/HttpServerChannel.java:92 | without an empty line the header loop runs to the last line |
| ServerChannel.HeadersWithoutBlank | src/main/java/org/example/HttpServerChannel.java:90-103 | without an empty line every line after the request line is a header line and the body is empty |
| ServerChannel.FirstLine | src/main/java/org/example/HttpServerChannel.java:74 | the first line `split("\r\n")` gives is the text up to the first CRLF |
| ServerChannel.RequestWithBody | src/main/java/org/example/HttpServerChannel.java:73-112 | round trip: a request line, header lines, an empty line and a body line joined by CRLF are read back as that method, path, headers and body, dispatched iff registered |
| ServerChannel.SplitOfHead | src/main/java/org/example/HttpServerChannel.java:74 | a head and its blank line split back into exactly the head's lines, the trailing empty pieces dropped |
| ServerChannel.RequestWithoutBody | src/main/java/org/example/HttpServerChannel.java:74-112 | a head ended by a blank line is read back with its headers and an empty body, because `split` drops the trailing empty pieces |
| ServerChannel.VersionIgnored | src/main/java/org/example/HttpServerChannel.java:81-88 | a request line that names a protocol version is decided exactly like the bare method and path; with no headers the request has an empty header map and body |
| Requests.QueryString | src/main/java/org/example/HttpRequest.java:43 | a path without `?` gives the empty query; a query never holds `?` |
| Requests.ParseParams | src/main/java/org/example/HttpRequest.java:46-58 | the loop puts the pairs that `ParamsOf` says, one per well-formed pair, in order |
| Requests.GetQueryParams | src/main/java/org/example/HttpRequest.java:42-44 | the parameters of the query string, or failure where Java indexes past the pieces of `split("\\?")` |
| Requests.NoMarkNoParams | src/main/java/org/example/HttpRequest.java:43-48 | a path without `?` has no parameters |
| Requests.QueryBetweenMarks | src/main/java/org/example/HttpRequest.java:43 | the query string is the text between the first `?` and the next `?` or the end, also when it is empty, provided a character other than `?` comes later |
| Requests.EmptyQuery | src/main/java/org/example/HttpRequest.java:43 | `x??y` has the empty query string when `y` holds a character other than `?` |
| Requests.TrailingMarksFail | src/main/java/org/example/HttpRequest.java:43 | a path whose first `?` is followed by nothing or only by `?`s makes `getQueryParams` fail: `split` drops every piece after the first |
| Requests.ParamsClean | src/main/java/org/example/HttpRequest.java:49-54 | no returned key or value holds `&` or `=`, and no value is empty |
| Requests.ParamKeys | src/main/java/org/example/HttpRequest.java:49-54 | a key is returned iff some `&`-piece splits on `=` into exactly two pieces with that key |
| Requests.ParamsLastWins | src/main/java/org/example/HttpRequest.java:53 | on a repeated key the last well-formed pair's value is returned |
| Requests.EmptyValueDropped | src/main/java/org/example/HttpRequest.java:51-52 | `a=` is dropped |
| Requests.ExtraSeparatorDropped | src/main/java/org/example/HttpRequest.java:51-52 | `a=b=c` is dropped |
| Requests.EmptyKeyKept | src/main/java/org/example/HttpRequest.java:51-53 | `=b` is kept under the empty key |
| Responses.StatusMessage | src/main/java/org/example/HttpResponse.java:30-43 | 200, 400, 404 and 500 get their reason phrases and every other code "Unknown Status" |
| Responses.Format | src/main/java/org/example/HttpResponse.java:19-24 | the wire text starts with `HTTP/1.1 ` and ends with the blank line and the body |
| Responses.FormatSplitsAtBody | src/main/java/org/example/HttpResponse.java:20-24 | round trip: with a CRLF-free content type, splitting the wire text at its first CRLF CRLF gives the three head lines and the body unchanged |
| Responses.HeadSplitsIntoLines | src/main/java/org/example/HttpResponse.java:20-22 | the head splits back into its status, Content-Length and Content-Type lines, and Content-Length is the length of the body alone |
| Responses.StatusLineStarts | src/main/java/org/example/HttpResponse.java:20 | the status line starts with `HTTP/1.1 ` |
| Responses.SplitThreeLines | src/main/java/org/example/HttpResponse.java:20-24 | three CRLF-free lines, the blank line and a body split once at the blank line into the joined lines and the body |
| Responses.HeadEndOfThreeLines | src/main/java/org/example/HttpResponse.java:20-23 | the first CRLF CRLF of the wire text is the one after the Content-Type line |
| Responses.HeadLinesClean | src/main/java/org/example/HttpResponse.java:20-22 | no head line holds a CRLF when the content type does not |
| Responses.StatusLineClean | src/main/java/org/example/HttpResponse.java:20 | the status line holds no carriage return |
| Responses.HttpResponse.Send | src/main/java/org/example/HttpResponse.java:18-28 | on an open channel the formatted text is written once; the channel is closed afterwards in every case, with no sent flag guarding a second call |
| Responses.HttpResponse.SendPlain | src/main/java/org/example/HttpResponse.java:14-16 | the two-argument `send` is `send` with content type `text/plain` |
| Multipart.NewParser | src/main/java/org/example/MultipartParser.java:11-14 | construction succeeds only when the Content-Type holds `boundary=`; the parser keeps the input |
| Multipart.BoundaryAfterKey | src/main/java/org/example/MultipartParser.java:12 | the boundary is the text after the first `boundary=` up to the next one or the end |
| Multipart.EmptyBoundaryFails | src/main/java/org/example/MultipartParser.java:12 | a Content-Type whose only `boundary=` is at its very end makes construction fail |
| Multipart.MissingBoundaryFails | src/main/java/org/example/MultipartParser.java:12 | a Content-Type without `boundary=` makes construction fail |
| Multipart.LineReader.ReadLine | src/main/java/org/example/MultipartParser.java:22 | `readLine` returns the next line, and `null` at the end and on every call after it |
| Multipart.ReadHeaders | src/main/java/org/example/MultipartParser.java:25-33 | the header loop reads up to and including the first empty line and keeps its `Key: Value` pairs |
| Multipart.ReadBody | src/main/java/org/example/MultipartParser.java:34-37 | the body loop appends each line and CRLF up to the next line starting with the delimiter, which it consumes |
| Multipart.ReadPart | src/main/java/org/example/MultipartParser.java:25-40 | one part is the section that `Opened` describes, and the reader stands on the line that ended its body |
| Multipart.ParseStep | src/main/java/org/example/MultipartParser.java:22-46 | one turn of the outer loop keeps the parts read plus those still to come equal to `Parts`, and stops exactly at the close delimiter |
| Multipart.Parse | src/main/java/org/example/MultipartParser.java:16-49 | `parse` returns exactly `Parts` of the parser's input |
| Multipart.PartOf | src/main/java/org/example/MultipartParser.java:38 | every part has a `body` entry: its body lines each followed by CRLF, trimmed |
| Multipart.PartKeepsHeaders | src/main/java/org/example/MultipartParser.java:28-38 | every other entry of a part is a header pair, and the body overrides a header named `body` |
| Multipart.PartsOfAt | src/main/java/org/example/MultipartParser.java:40 | parts appear in the order they were opened |
| Multipart.Opened | src/main/java/org/example/MultipartParser.java:26-37 | a section opened at a line ends at the end of input or at a line starting with the delimiter |
| Multipart.OpenedWellFormed | src/main/java/org/example/MultipartParser.java:26-37 | no header line of an opened section is empty and no body line starts with the delimiter |
| Multipart.ScanOpened | src/main/java/org/example/MultipartParser.java:23-46 | a delimiter line yields its part, then, unless the close delimiter ended its body, the parts after the consumed line |
| Multipart.SkipLine | src/main/java/org/example/MultipartParser.java:23 | a line that does not start with the delimiter, outside a part, is skipped |
| Multipart.NoDelimiterNoParts | src/main/java/org/example/MultipartParser.java:22-23 | input with no line starting with the delimiter yields no part |
| Multipart.PreambleIgnored | src/main/java/org/example/MultipartParser.java:22-23 | lines before the first line starting with the delimiter are ignored |
| Multipart.PartsHaveBody | src/main/java/org/example/MultipartParser.java:38 | every part has a `body` entry, trimmed at both ends |
| Multipart.ScannedWellFormed | src/main/java/org/example/MultipartParser.java:26-37 | every section read has non-empty header lines and no body line starting with the delimiter |
| Multipart.ClosedPartStops | src/main/java/org/example/MultipartParser.java:42-45 | parsing stops right after a part whose body ends at the close delimiter; later lines are never read |
| Multipart.ConsumedDelimiter | src/main/java/org/example/MultipartParser.java:35-47 | after a part ended by a plain delimiter line, scanning resumes at the line after it, which therefore opens no part |
| Multipart.TwoPartsAsWritten | src/main/java/org/example/MultipartParser.java:22-47 | as written, a well-formed body of two parts and the close delimiter yields the first part and one empty part; the second part is lost |
| Multipart.SecondBlockLost | src/main/java/org/example/MultipartParser.java:22-47 | the lines of a second part after its consumed delimiter line yield only the empty part the close delimiter opens |
| Multipart.SecondBlockSkipped | src/main/java/org/example/MultipartParser.java:22-23 | those lines are skipped by the outer loop up to the close delimiter |
| Multipart.CloseOpensEmpty | src/main/java/org/example/MultipartParser.java:22-40 | a close delimiter as the last line opens an empty part |
| Multipart.LastDelimiterEmpty | src/main/java/org/example/MultipartParser.java:22-40 | any line starting with the delimiter as the last line opens an empty part |
| Multipart.OpenedBlock | src/main/java/org/example/MultipartParser.java:23-37 | a part written as delimiter, header lines, empty line and body lines, followed by a delimiter line, is opened as exactly that section |
| Multipart.CorrectBlockAt | src/main/java/org/example/MultipartParser.java:22-47 | the intended scan reads a written part's section and stops at the close delimiter or goes on at the delimiter line that ended it |
| Multipart.CorrectOfEncode | src/main/java/org/example/MultipartParser.java:22-47 | round trip for the intended scan: a well-formed multipart body written from sections reads back exactly those sections |
| Registry.Lookup | src/main/java/org/example/HttpServerChannel.java:108 | a handler is found iff the method is registered and its inner map holds the path |
| Registry.Added | src/main/java/org/example/server/HttpServer.java:35-38 | after `addHandler(m, p, h)` the lookup of `(m, p)` gives `h` and every other pair, under the same method or another, keeps its handler |
| Registry.AddedLastWins | src/main/java/org/example/server/HttpServer.java:37 | registering the same method and path again replaces the earlier handler |
| Registry.HttpServer.constructor | src/main/java/org/example/server/HttpServer.java:19-22 | a new server has no handlers and no channel |
| Registry.HttpServer.AddHandler | src/main/java/org/example/HttpServer.java:23-26 | `putIfAbsent` then `put` leaves the registry `Added` describes |
| Registry.HttpServer.Start | src/main/java/org/example/server/HttpServer.java:24-27 | `start` opens a channel over the unchanged registry |
| Registry.HttpServer.Stop | src/main/java/org/example/server/HttpServer.java:29-33 | `stop` before `start` changes nothing; otherwise the channel is stopped |
| Auth.Registered | src/main/java/org/example/auth/AuthService.java:16-21 | a registered token is authenticated, authorized iff registered as admin or already so, and no token is removed |
| Auth.RegisteredConsistent | src/main/java/org/example/auth/AuthService.java:16-21 | registering keeps every authorized token authenticated |
| Auth.RegisteredIdempotent | src/main/java/org/example/auth/AuthService.java:16-21 | registering the same token twice is registering it once |
| Auth.RegisteredOthers | src/main/java/org/example/auth/AuthService.java:16-21 | every other token keeps its status |
| Auth.RegisteredNeverRevokes | src/main/java/org/example/AuthService.java:11-16 | registering a token as a non-admin never takes away its admin status |
| Auth.AuthService.constructor | src/main/java/org/example/AuthService.java:7-8 | both sets start empty |
| Auth.AuthService.RegisterToken | src/main/java/org/example/AuthService.java:11-16 | the sets become `Registered` of the old ones, and authorized stays within authenticated |
| Auth.AuthService.IsAuthenticated | src/main/java/org/example/auth/AuthService.java:23-25 | a token is authenticated iff it is in the authenticated set |
| Auth.AuthService.IsAuthorized | src/main/java/org/example/auth/AuthService.java:27-29 | a token is authorized iff it is in the authorized set, and an authorized token is authenticated |
| Auth.AuthService.IsAdmin | src/main/java/org/example/auth/AuthService.java:31-33 | `isAdmin` agrees with `isAuthorized` on every token |
| Handlers.KeyValueOf | src/main/java/org/example/handlers/HttpRequestHandler.java:236-237 | a decoded body gives a pair iff it is an object with both `key` and `value` |
| Handlers.Submitted | src/main/java/org/example/handlers/HttpRequestHandler.java:228-251 | 415 unless the body is JSON, 201 iff it holds a key and a parsable value, which then overwrites the stored entry; otherwise the store is unchanged |
| Handlers.Updated | src/main/java/org/example/handlers/HttpRequestHandler.java:253-280 | 404 iff the key is absent, 200 iff present with a parsable value, which replaces the entry; the keys never change |
| Handlers.Merged | src/main/java/org/example/handlers/HttpRequestHandler.java:295-297 | the fields named by the modification are written over the stored object and the other fields are kept |
| Handlers.Modified | src/main/java/org/example/handlers/HttpRequestHandler.java:282-313 | 404 iff the key is absent, 200 iff present with a parsable modification, which is merged field by field |
| Handlers.Deleted | src/main/java/org/example/handlers/HttpRequestHandler.java:315-335 | 200 iff the key is present, and then exactly that key is removed; otherwise 400 or 404 and the store is unchanged |
| Handlers.MediaTypeChecked | src/main/java/org/example/handlers/HttpRequestHandler.java:228-335 | submit, update and patch answer 415 exactly when Content-Type is not `application/json`; delete never does |
| Handlers.UpdateAbsentUnchanged | src/main/java/org/example/HttpRequestHandler.java:211-222 | an update of an absent key answers 404 and leaves the store unchanged |
| Handlers.DeleteTwice | src/main/java/org/example/handlers/HttpRequestHandler.java:319-327 | deleting a present key answers 200, and deleting it again answers 404 |
| Handlers.SubmitOverwrites | src/main/java/org/example/handlers/HttpRequestHandler.java:237-243 | a submitted entry is what is stored under its key afterwards, whatever was there |
| Handlers.PatchMerges | src/main/java/org/example/HttpRequestHandler.java:241-252 | a patch writes every field it names and keeps every other field of the stored object |
| Handlers.AuthToken | src/main/java/org/example/handlers/HttpRequestHandler.java:379 | the token is present iff the request has an `Authorization` header |
| Handlers.AccessReply | src/main/java/org/example/handlers/HttpRequestHandler.java:378-392 | 401 iff the token is missing or unauthenticated, 403 iff authenticated but not admin, 200 with the granted message iff admin; the older `handleSecureRequest` is the same ladder, since its `isAuthorized` agrees with `isAdmin` |
| Handlers.SecureRequestAsAdmin | src/main/java/org/example/HttpRequestHandler.java:322-336 | the older `handleSecureRequest` gives every token the code `handleSecureAdminRequest` gives it, with "You have access to secure data!" as its 200 message |
| Handlers.UserReply | src/main/java/org/example/handlers/HttpRequestHandler.java:397-406 | 401 iff the token is missing or unauthenticated, 200 otherwise |
| Handlers.AdminIffAuthorized | src/main/java/org/example/handlers/HttpRequestHandler.java:378-392 | with consistent token sets, admin access is exactly an authorized token |
| Handlers.LoginRole | src/main/java/org/example/handlers/HttpRequestHandler.java:434-446 | `admin`/`admin` is the admin role, `user1`/`password1` the user role, any other pair none |
| Handlers.Lookup1 | src/main/java/org/example/handlers/HttpRequestHandler.java:434-435 | a credential is present iff its name is in the decoded body |
| Handlers.LoggedIn | src/main/java/org/example/handlers/HttpRequestHandler.java:430-448 | a known pair registers the fresh token with its role and returns it; any other pair gets 401; a body that does not decode throws |
| Handlers.RegisteredUser | src/main/java/org/example/handlers/HttpRequestHandler.java:411-425 | every decoded pair is answered 200; `admin`/`admin` registers the fresh token as an admin and returns it, any other pair leaves the tokens unchanged; a body that does not decode throws |
| Handlers.AdminRegistrationOpensAdmin | src/main/java/org/example/handlers/HttpRequestHandler.java:378-421 | the token an `admin`/`admin` registration returns opens the admin route and the user route |
| Handlers.OtherRegistrationOpensNothing | src/main/java/org/example/handlers/HttpRequestHandler.java:397-424 | any other registration leaves the answer of both secure routes unchanged for every token |
| Handlers.AdminLoginOpensAdmin | src/main/java/org/example/handlers/HttpRequestHandler.java:378-448 | the token an admin login returns opens the admin route |
| Handlers.UserLoginOpensUser | src/main/java/org/example/handlers/HttpRequestHandler.java:397-448 | the token a user login returns opens the user route, and the admin route only if it was already an admin token |
| Handlers.Continued | src/main/java/org/example/handlers/HttpRequestHandler.java:453-490 | with the expectation the interim 100 and then 200 echoing the body are sent; otherwise 417 |
| Handlers.ContinueIgnoresCase | src/main/java/org/example/handlers/HttpRequestHandler.java:454-455 | any spelling of `100-continue` in small or capital letters is accepted, and so is a dotted capital I or a dotless i for its `i`; nothing else is |
| Handlers.Route | src/main/java/org/example/handlers/HttpRequestHandler.java:169-225 | a method and path have no branch exactly when they are not one of the routed pairs |
| Handlers.Respond | src/main/java/org/example/handlers/HttpRequestHandler.java:169-225 | an unrouted pair is answered 404 with nothing changed; only the store routes change the store and only login and registration change the tokens |
| Handlers.Guard | src/main/java/org/example/handlers/HttpRequestHandler.java:109-125 | 503 when the service is off, before the size is looked at; then 413 for bodies over 1024*1024 characters; otherwise the request goes on |
| Handlers.Fallback | src/main/java/org/example/handlers/HttpRequestHandler.java:127-160 | in time, what the handler sent, or 500 when it threw; on a timeout, whether or not the handler throws later, 504 unless something was already sent, and then only what the handler sent |
| Handlers.FallbackOnlyIfUnsent | src/main/java/org/example/handlers/HttpRequestHandler.java:131-159 | a fallback response is sent only when the handler had sent nothing (it threw in time, or the deadline passed first), and it is a single 500 or 504 |
| Handlers.InstalledLookup | src/main/java/org/example/server/HttpServer.java:35-38 | after a sequence of `addHandler` calls each pair is bound to its last registration, and an unregistered pair keeps its old handler |
| Handlers.InstalledStep | src/main/java/org/example/handlers/HttpRequestHandler.java:86-100 | installing a first call is adding it, then installing the rest |
| Handlers.DispatchedInstalled | src/main/java/org/example/handlers/HttpRequestHandler.java:87-92 | the first six calls bind the store and greeting routes to the dispatcher |
| Handlers.OthersInstalled | src/main/java/org/example/handlers/HttpRequestHandler.java:93-99 | the other seven calls bind their routes directly |
| Handlers.RegisterHandlers | src/main/java/org/example/handlers/HttpRequestHandler.java:86-100 | the registry after `registerHandlers` is the old one with its thirteen calls installed, the channel untouched |
| Handlers.GuardedRoutes | src/main/java/org/example/handlers/HttpRequestHandler.java:86-100 | in the newer copy exactly the six store and greeting routes of the route table pass through the dispatcher's guards |
| Handlers.RoutesRegistered | src/main/java/org/example/HttpRequestHandler.java:48-62 | every branch of the route table is registered, so no routed request is turned away by the server channel |
| Handlers.ExternalBinding | src/main/java/org/example/HttpRequestHandler.java:55 | `GET /external` goes through the dispatcher in the older copy and to `handleExternalRequest` in the newer one |
| Handlers.ExternalNotRouted | src/main/java/org/example/HttpRequestHandler.java:119-175 | through the dispatcher `GET /external` is answered 404 and nothing changes |
| Handlers.RequestHandler.constructor | src/main/java/org/example/handlers/HttpRequestHandler.java:43-48 | the constructor puts the example entry into the static store and leaves the three static flags at the values they had |
| Handlers.RequestHandler.SetServiceAvailable | src/main/java/org/example/handlers/HttpRequestHandler.java:67-69 | only the availability flag changes |
| Handlers.RequestHandler.SetLongTimeout | src/main/java/org/example/handlers/HttpRequestHandler.java:57-59 | only the long-timeout flag changes |
| Handlers.RequestHandler.SetExternalServiceAvailable | src/main/java/org/example/handlers/HttpRequestHandler.java:78-80 | only the external-service flag changes |
| Handlers.RequestHandler.PostSubmit | src/main/java/org/example/handlers/HttpRequestHandler.java:228-251 | the new store and the reply are `Submitted` of the old store, and the three flags are unchanged |
| Handlers.RequestHandler.PutUpdate | src/main/java/org/example/handlers/HttpRequestHandler.java:253-280 | the new store and the reply are `Updated` of the old store, and the three flags are unchanged |
| Handlers.RequestHandler.PatchModify | src/main/java/org/example/handlers/HttpRequestHandler.java:282-313 | the new store and the reply are `Modified` of the old store, and the three flags are unchanged |
| Handlers.RequestHandler.Delete | src/main/java/org/example/handlers/HttpRequestHandler.java:315-335 | the new store and the reply are `Deleted` of the old store, and the three flags are unchanged |
| Handlers.RequestHandler.Login | src/main/java/org/example/handlers/HttpRequestHandler.java:430-448 | the new token sets and what was sent are `LoggedIn` of the old sets; the sets stay consistent |
| Handlers.RequestHandler.Register | src/main/java/org/example/handlers/HttpRequestHandler.java:411-425 | the new token sets and what was sent are `RegisteredUser` of the old sets; the sets stay consistent |
| Handlers.RequestHandler.HandleRequest | src/main/java/org/example/handlers/HttpRequestHandler.java:169-225 | the new store, token sets and replies are `Respond` of the old ones, and the three flags are unchanged |
| Handlers.RequestHandler.HandleRequestWithTimeout | src/main/java/org/example/handlers/HttpRequestHandler.java:108-161 | a guard's reply is all that is sent and nothing changes; otherwise the request is handled and the fallback applied; the three flags are never changed |
| Handlers.MergeInto | src/main/java/org/example/handlers/HttpRequestHandler.java:295-297 | the patch loop leaves exactly `Merged` of the stored object and the modification |
| Sessions.ReadHeader | src/main/java/org/example/ClientSession.java:58-70 | the loop returns the lines before the first empty line or the end of input, each followed by the line separator |
| Sessions.RequestHeaderOfLines | src/main/java/org/example/ClientSession.java:58-70 | a request head, its empty line and anything after it: exactly the head lines are returned |
| Sessions.WithoutQuery | src/main/java/org/example/ClientSession.java:84-87 | the target is cut at its first `?` and keeps everything before it |
| Sessions.UriFromHeader | src/main/java/org/example/ClientSession.java:80-89 | a resource found starts with `/www` and holds no `?` after it |
| Sessions.UriFailsIff | src/main/java/org/example/ClientSession.java:81-83 | `getURIFromHeader` fails exactly when the header has fewer than two spaces |
| Sessions.UriOfRequestLine | src/main/java/org/example/ClientSession.java:80-89 | for `method target ...` the resource is `/www` followed by the target without its query |
| Sessions.Answer | src/main/java/org/example/ClientSession.java:145-154 | 200 is "OK", 404 "Not Found" and every other code "Internal Server Error" |
| Sessions.ContentTypeOf | src/main/java/org/example/ClientSession.java:104 | `text/xml` iff the resource ends with `xml`, `text/html` otherwise |
| Sessions.CodeOf | src/main/java/org/example/ClientSession.java:102-103 | 200 iff the resource exists, 404 iff it does not |
| Sessions.AnswerHeaderReadsBack | src/main/java/org/example/ClientSession.java:128-136 | the answer header reads back as the status line, Date, `Accept-Ranges: none`, Content-Type and the empty line |
| Sessions.AnswerLinesFree | src/main/java/org/example/ClientSession.java:128-136 | no line of the answer header holds a line terminator when the content type and date do not |
| Sessions.StatusLineFree | src/main/java/org/example/ClientSession.java:130 | the status line holds no line terminator |
| Sessions.ChunksCopy | src/main/java/org/example/ClientSession.java:109-114 | the copy writes the resource's bytes exactly, in non-empty blocks of at most 1024 bytes |
| Sessions.ChunksStep | src/main/java/org/example/ClientSession.java:111-112 | one turn of the copy loop writes the next block and leaves the blocks after it |
| Sessions.AnsweredData | src/main/java/org/example/ClientSession.java:105-115 | the bytes after the header are the resource for 200 and nothing for 404 |
| Sessions.ClientSession.constructor | src/main/java/org/example/ClientSession.java:40-43 | a new session has written nothing and its socket is open |
| Sessions.ClientSession.Copy | src/main/java/org/example/ClientSession.java:108-115 | the copy loop appends exactly `Chunks` of the resource to what was written |
| Sessions.ClientSession.Send | src/main/java/org/example/ClientSession.java:101-117 | `send` returns `CodeOf` the resource and appends the header and, for 200 only, the resource's bytes |
| Sessions.ClientSession.Run | src/main/java/org/example/ClientSession.java:18-38 | `run` answers what `SessionOf` the input says (nothing when the resource cannot be cut out) and closes the socket in every case |
| KeyValues.KeyValue | src/main/java/org/example/HttpServerChannel.java:93-95 | a line gives a pair only when it splits into exactly two pieces; neither piece holds the separator and the value is not empty |
| KeyValues.KeyValueOfShape | src/main/java/org/example/MultipartParser.java:28-30 | round trip: a separator-free key and a non-empty value written with the separator are read back |
| KeyValues.CollectKeys | src/main/java/org/example/HttpServerChannel.java:90-98 | a header name is collected iff some line gives a pair under it |
| KeyValues.CollectLastWins | src/main/java/org/example/HttpServerChannel.java:94-95 | on a repeated header name the last line that gives it wins |
| KeyValues.CollectClean | src/main/java/org/example/HttpServerChannel.java:93-95 | no collected name or value holds the separator and no value is empty |
| KeyValues.HeaderEnd | src/main/java/org/example/HttpServerChannel.java:92 | the header loop stops at the first empty line at or after its start, or at the end |
| JavaStrings.SplitOfJoin | src/main/java/org/example/HttpServerChannel.java:74 | round trip: `split` undoes a join of separator-free lines up to the trailing empty pieces it drops |
| JavaStrings.SplitFree | src/main/java/org/example/HttpRequest.java:49 | no piece `split` returns holds the separator |
| JavaStrings.ReadLinesOfTerminated | src/main/java/org/example/ClientSession.java:63 | round trip: lines each written with a terminator are read back by `readLine` |
| JavaStrings.Trim | src/main/java/org/example/MultipartParser.java:38 | `trim` is a slice of the text with only characters up to U+0020 before and after it, and it neither starts nor ends with such a character |
| JavaStrings.EqualsIgnoreCaseSmall | src/main/java/org/example/handlers/HttpRequestHandler.java:455 | against small ASCII letters, digits and `-`, `equalsIgnoreCase` accepts at each position the character, its capital, and the non-ASCII characters that fold to it: the dotted capital I and the dotless i for `i`, the Kelvin sign for `k`, the long s for `s` |

## Left out

- The selector loop of `HttpServerChannel.start`, its constructor and `accept`: socket plumbing with no logic to state. One read is the text that `OnRead` is given.
- `ServerChannel.Route`: `HttpServerChannel.java:105` calls a four-argument `HttpRequest` constructor that `org.example.HttpRequest` does not have. The model builds the request from method, path, headers and body, and leaves the channel out.
- Byte level: the 1024-byte read buffer of `read`, UTF-8 decoding and `getBytes()` are not modelled. Text is a sequence of Unicode scalar values, while Java's `length()` counts UTF-16 code units: a character outside the Basic Multilingual Plane counts once in `Content-Length` (`Responses.Format`) and in the 1024*1024 limit of `Handlers.Guard`, where Java counts it twice.
- `Responses.HttpResponse.Send`: a write to a closed channel throws in Java. The model writes nothing and reports `ok == false`.
- `HttpRequest`'s constructor and getters are the fields of the `Request` datatype. `getClientChannel` is not modelled.
- `Handlers.RequestHandler`: the data store and the three flags are static in Java and shared by every handler object. The model keeps them in fields of the one object, so the constructor takes the flags' current values and sets nothing back to a default. A second handler object that sees the first one's changes is not modelled.
- `Handlers.Fallback` and `Handlers.Continued` for the older `org.example.HttpRequestHandler`: it calls `response.isSent()` (`HttpRequestHandler.java:87`, `:100`, `:109`) and `response.sendContinue()` (`:405`), which `org.example.HttpResponse` does not declare. The model gives the older copy the newer `org.example.http.HttpResponse`'s sent flag and interim 100, which are not part of this model either.
- The executor, `Future.get(10, SECONDS)`, `future.cancel` and `simulateLongOperation`: whether the task finished in time, and whether it had already sent its response, is the `Timing` parameter.
- `handleExternalRequest` (an outbound HTTP call), `handleRedirect` (a raw write), `readRequestBody` (selector polling) and the background part of `handleContinueRequest`: network I/O. `Continued` takes the body already read.
- Gson and `JsonParser` are the `Json` parameter: what a body decodes to and how objects print. JSON text is not modelled.
- `JavaStrings.UpperCase` and `JavaStrings.LowerCase`: only ASCII letters and the four characters whose case maps to an ASCII letter (U+0130, U+0131, U+017F, U+212A) are folded, not all of `Character.toUpperCase`/`toLowerCase`. Comparisons against ASCII text, the only kind the server makes, are unaffected.
- `Handlers.RequestHandler.SetLongTimeout` and `SetExternalServiceAvailable` only carry their flags: the long delay is the `Timing` parameter and `handleExternalRequest` is network I/O.
- UUID tokens, `new Date().toGMTString()`, `System.getProperty("line.separator")` and `getResourceAsStream` are parameters: the token, the date string, the separator and a map from resource name to bytes.
- `Sessions.ClientSession.Copy`: each `read` is taken to fill the buffer while bytes remain. A stream that returns shorter reads writes the same bytes in other blocks.
- The console logging of `ClientSession.run` and `MultipartParser.parse`, and the `printStackTrace` calls, are left out.
- `ClientSession`'s stream handling: `run` with `IOException`s is not modelled. A head with fewer than two spaces makes `getURIFromHeader` throw a `StringIndexOutOfBoundsException`, which `catch (IOException)` does not catch: it escapes `run` after `finally` has closed the socket. The model shows this as a session that writes nothing and closes the socket.
- `ServerApp.java`, `handlers/HttpHandler.java` and `http/HttpRequest.java` are wiring and data holders, and are not part of this model. `org.example.http.HttpResponse` and `org.example.server.HttpServerChannel` are not part of this model either.

## Findings

| source | as written | input that shows it | evidently intended | confidence | as-written member | corrected member |
|---|---|---|---|---|---|---|
| src/main/java/org/example/MultipartParser.java:35-47 | the body loop consumes the delimiter line that ends a part, so the outer loop never sees it open the next part, and skips that part's lines up to the close delimiter, which then opens an empty part | `--b`, `Name: x`, ``, `one`, `--b`, `Name: y`, ``, `two`, `--b--` gives the first part and an empty part; the second part is lost | every part of a well-formed multipart body is returned, in order, and parsing stops at the close delimiter | not executed | Multipart.TwoPartsAsWritten | Multipart.CorrectOfEncode |
| src/main/java/org/example/HttpRequestHandler.java:55 | `GET /external` is bound to the dispatcher, whose route table has no branch for it | `GET /external` answers 404 through the dispatcher | `GET /external` reaches `handleExternalRequest`, as the newer copy binds it | not executed | Handlers.ExternalNotRouted | Handlers.ExternalBinding |
