# quack-quack chat gateway: a Dafny model of its core

quack-quack is a FastAPI chat gateway. A user registers and logs in over HTTP.
The login gives a session token kept in Redis. With that token the user opens a
WebSocket, and every text frame the socket receives is broadcast to every
connected socket. The service also puts its Swagger UI behind a user-name and
password check, and ships its own logger. This project models the deterministic
core of those pieces and proves properties of the model:

- **Connection registry and broadcast** (`connection_manager.dfy`, `hex.dfy`).
  - The registry is a sequence of `(handle, metadata)` entries with distinct
    handles. A sequence keeps the insertion order of the Python dict.
  - `connect` inserts or overwrites an entry, `disconnect` pops one, and
    `broadcast` fans one envelope out to every entry in order.
  - Send failures are a parameter: a map from the handles whose `send_json`
    raises to what it raises.
  - The random colour is a six-digit hex encoder, with the random draw taken as
    a parameter.
- **Per-connection handler** (`chat_socket.dfy`). The handler is a state
  machine over the events `receive_text` can yield. It starts with token
  admission, loops receive → broadcast, and ends the way the source's one
  `except WebSocketDisconnect` clause ends it.
- **Session-token protocol** (`sessions.dfy`).
  - Redis is a map from key to stored value, with the TTL recorded and no clock.
  - Firebase is a map from e-mail to uid.
  - `uuid4()` becomes the `newToken` parameter.
- **Logger** (`log_level.dfy`, `log_context.dfy`, `log_format.dfy`, `logger.dfy`):
  - level parsing;
  - the context-variable registry;
  - the field filling both formatters do before rendering;
  - the named-singleton registry with its configuration merge;
  - child loggers;
  - logging with a temporary context.
- **Swagger credential gate** (`swagger_gate.dfy`, `query_string.dfy`).
  - The `/login` and `/docs` decisions, plus `/status`.
  - How `/docs` reads its credentials back out of the redirect URL.

Notable behaviours of the code as written:

- Broadcast envelopes carry the stored `user_id`, not a display name.
- A second `connect` of the same socket overwrites its entry. It is not
  refused.
- One recipient's failing send is not isolated. It aborts the rest of the
  fan-out, and the exception propagates into the sender's handler.
- `login_user` never checks the password.
- With the default `BASE_URL` of `/` (src/core/config.py:33), every redirect
  `Location` starts with `//`. A browser reads that as a different host, so the
  login redirect never reaches the docs handler. This is a statement about the
  redirect the login handler builds. Under that default the application also
  mounts the WebSocket router with the prefix `/` (src/main.py:99), which
  FastAPI refuses because a prefix must not end with `/`. So no route would be
  served at all. That refusal belongs to FastAPI and is not part of this model.
- Building a logger can fail for reasons besides an unknown keyword: a
  non-string directory, a worker count that is not a positive number, a name
  that is neither a string nor falsy, and a non-empty format with no
  `%`-conversion.

## Model

| member | source | states |
|---|---|---|
| Hex.Color | src/utils/connection_manager.py:7 | `"#{:06x}"` of a draw in [0, 0xFFFFFF] is `#` plus six lower-case hex digits that decode back to the draw |
| Hex.ColorDecode | src/utils/connection_manager.py:7 | every well-formed colour is the rendering of the value it decodes to, so the colour format loses nothing in either direction |
| Hex.DecodeFixed | src/utils/connection_manager.py:7 | zero-padded fixed-width hex rendering is undone by hex decoding |
| Hex.FixedDecode | src/utils/connection_manager.py:7 | every string of w lower-case hex digits is the zero-padded rendering of its value |
| ConnectionManager.RandomColor | src/utils/connection_manager.py:5-7 | `random_color()` yields a well-formed colour that decodes to the random draw |
| ConnectionManager.IndexOf | src/utils/connection_manager.py:15-21 | finds the unique position of a socket in the registry, or reports it absent exactly when it is not registered |
| ConnectionManager.Connect | src/utils/connection_manager.py:13-18 | afterwards the socket maps to `{random colour, user_id}` and no other socket's entry changes. A registered socket is overwritten in place: same size, same order. A new one is appended at the end |
| ConnectionManager.Disconnect | src/utils/connection_manager.py:20-21 | afterwards the socket is absent and every other entry is unchanged. Popping an absent socket changes nothing. Popping a present one shrinks the registry by one |
| ConnectionManager.DisconnectCutsOne | src/utils/connection_manager.py:20-21 | popping a registered socket removes exactly its entry and keeps the others in their order |
| ConnectionManager.DisconnectIdempotent | src/utils/connection_manager.py:20-21 | a second pop of the same socket changes nothing |
| ConnectionManager.ConnectThenDisconnect | src/utils/connection_manager.py:13-21 | connecting a new socket and then disconnecting it restores the registry exactly |
| ConnectionManager.BroadcastEnvelope | src/utils/connection_manager.py:24-28 | the envelope is `user_id + ": " + text` in the sender's colour. An unregistered sender gives `"unknown: " + text` in `#000000` |
| ConnectionManager.FanOut | src/utils/connection_manager.py:25-29 | sends go out in registry order. They stop at the first failing recipient, whose exception escapes. Nothing escapes exactly when everyone was served |
| ConnectionManager.FanOutFailsAt | src/utils/connection_manager.py:23-29 | after a run of recipients that pass, the first failing recipient ends the fan-out with exactly the frames sent so far and its own fault |
| ConnectionManager.FanOutAllPass | src/utils/connection_manager.py:23-29 | when every recipient passes, the fan-out sends one frame to each of them in registry order and raises nothing |
| ConnectionManager.BroadcastLoop | src/utils/connection_manager.py:23-29 | the statement-level loop computes exactly the fan-out of the sender's envelope over the registry |
| ConnectionManager.Broadcast | src/utils/connection_manager.py:23-29 | the k-th send goes to the k-th registered socket and carries the sender's envelope. Nothing escapes exactly when no registered socket fails. Otherwise the first failing socket's exception escapes, and every socket before it was served |
| ConnectionManager.BroadcastReachesEveryone | src/utils/connection_manager.py:25-29 | with no failing send, each registered socket, sender included, receives the identical envelope exactly once, in insertion order |
| ConnectionManager.BroadcastStopsAtFirstFailure | src/utils/connection_manager.py:25-29 | with the first failing send at position k, exactly the first k sockets are served and that send's exception escapes |
| Sessions.SessionKey | src/api/v1/auth_routes.py:28 | the Redis key is `session:` followed by the token |
| Sessions.SessionKeyInjective | src/api/v1/auth_routes.py:28 | distinct tokens never share a Redis key |
| Sessions.GetCurrentUser | src/utils/dependencies.py:4-8 | returns the stored uid exactly when the key is present with a non-empty value. Otherwise it fails with 401 `Invalid or expired session`. The store is only read |
| Sessions.Register | src/api/v1/auth_routes.py:13-19 | a created account is added to the directory and its uid returned with `User created`. Any provider failure is a 400 carrying the provider's message, with nothing added |
| Sessions.Login | src/api/v1/auth_routes.py:21-31 | a known e-mail gets a new key holding its uid with TTL 86400, and the token is returned. An unknown e-mail is a 401 `Invalid credentials` and leaves the store unchanged |
| Sessions.Logout | src/api/v1/auth_routes.py:33-36 | deletes exactly the token's key, present or not, and always answers `Logged out` |
| Sessions.LoginThenCurrentUser | src/api/v1/auth_routes.py:26-29 | round trip: the token a login returns authenticates as the account's uid |
| Sessions.LoginKeepsOtherSessions | src/api/v1/auth_routes.py:28 | a login changes no other token's authentication outcome |
| Sessions.LoginIgnoresPassword | src/api/v1/auth_routes.py:25-31 | the submitted password has no influence on the login outcome |
| Sessions.LogoutRevokes | src/api/v1/auth_routes.py:33-36 | after logout the token is rejected with 401 |
| Sessions.LogoutKeepsOtherSessions | src/api/v1/auth_routes.py:35 | logout changes no other token's authentication outcome |
| Sessions.LoginThenLogout | src/api/v1/auth_routes.py:28-35 | logging out a fresh login's token restores the store exactly |
| Sessions.RegisterThenLogin | src/api/v1/auth_routes.py:13-29 | an account registration just created can log in with any password, and its session resolves to the new uid |
| ChatSocket.Admit | src/api/v1/websocket_routes.py:11-17 | a token with no value or an empty value is refused with 1008, with the registry untouched. Otherwise the socket is admitted as the stored uid and registered by `connect`. Refusal happens exactly when `get_current_user` fails |
| ChatSocket.Step | src/api/v1/websocket_routes.py:18-23 | one loop turn. A text frame appends exactly the frames its broadcast delivered. The handler stays open over the same registry exactly when the broadcast raised nothing. It ends with this socket's entry popped exactly when a send raised `WebSocketDisconnect`. It crashes with the registry untouched exactly when a send raised anything else. A peer close ends the handler and pops the entry. Any other receive error crashes it. Neither sends anything |
| ChatSocket.Run | src/api/v1/websocket_routes.py:18-23 | the loop keeps the socket and registry well-formed and only appends sends. Once the handler has returned, nothing changes. From an open handler, a `WebSocketDisconnect` ends it with exactly the socket's entry popped, any other exception leaves the registry as it was, and the loop never refuses |
| ChatSocket.Chat | src/api/v1/websocket_routes.py:11-23 | the whole handler. It refuses with 1008 and no change exactly when `get_current_user` fails. After a peer close the socket has no entry and every other entry is as before. After any other error the socket keeps the entry `connect` gave it |
| ChatSocket.RejectedTokenTouchesNothing | src/api/v1/websocket_routes.py:12-15 | a rejected connection is closed with 1008, never registered and never sends, whatever the socket would deliver |
| ChatSocket.AdmissionAgreesWithDependency | src/api/v1/websocket_routes.py:12-13 | the websocket admits exactly the tokens `get_current_user` accepts, as the same uid |
| ChatSocket.FramesBroadcastInOrder | src/api/v1/websocket_routes.py:19-21 | while no send fails, each text frame causes exactly one broadcast from this socket, in receipt order. The registry is unchanged and the handler stays open |
| ChatSocket.PeerCloseDeregisters | src/api/v1/websocket_routes.py:20-23 | a peer close removes the socket's entry and ends the handler without sending. Later events are not read |
| ChatSocket.ReceiveErrorLeavesEntry | src/api/v1/websocket_routes.py:18-23 | any other receive error ends the handler with the socket still registered |
| ChatSocket.DeadRecipientEvictsSender | src/api/v1/websocket_routes.py:21-23 | a `WebSocketDisconnect` raised by another recipient's send is caught by the sender's handler. It removes the sender and leaves the dead recipient registered |
| LogLevels.ParseLevel | src/core/logger.py:351-360 | a `LogLevel` member gives its value. An int passes through. A string gives one of the six standard levels. Any other argument gives INFO |
| LogLevels.Canonical | src/core/logger.py:23-32 | the aliases `FATAL` and `WARN` stand for `CRITICAL` and `WARNING`, with the same value; every other member stands for itself |
| LogLevels.ParseStringInRange | src/core/logger.py:355-356 | a string parses to one of the six standard levels, and to INFO when its upper-cased form names none |
| LogLevels.ParseCaseInsensitive | src/core/logger.py:355-356 | strings equal up to letter case parse to the same level |
| LogLevels.NameParsesToValue | src/core/logger.py:23-32 | every member's name, in upper or lower case, and the member itself all parse to the member's value |
| LogLevels.NameInTable | src/core/logger.py:23-32 | each member's name is an upper-case level name of the `logging` module with the member's value |
| LogLevels.NameCase | src/core/logger.py:355-356 | an upper-case level name parses to its level in upper and in lower case |
| LogLevels.ParseIntAndOther | src/core/logger.py:357-360 | an int passes through unchanged, and any other argument type is INFO |
| LoggerContext.GetContext | src/core/logger.py:151-157 | a set key reads back its value, and a key never set reads `''` |
| LoggerContext.SetContext | src/core/logger.py:143-149 | afterwards the key is registered and reads back the value, and no other key changes |
| LoggerContext.SetAll | src/core/logger.py:408-411 | after setting several keys, each reads back its value, and untouched keys keep theirs |
| LoggerContext.GetAllContext | src/core/logger.py:159-168 | exactly the registered keys, each with its current value, blank ones included |
| LoggerContext.ClearContext | src/core/logger.py:170-178 | no key is ever unregistered. `None` blanks every key. A non-empty registered key is blanked alone. The empty key and unknown keys change nothing |
| LoggerContext.EmptyKeyNotClearedByName | src/core/logger.py:173-174 | the empty key can be set but never cleared by name |
| LogFormat.Fields | src/core/logger.py:83 | each name found takes at least five characters of the format |
| LogFormat.FieldsSound | src/core/logger.py:83 | every name the field scan finds is a word that appears as a `%(name)s` placeholder in the format |
| LogFormat.FieldsComplete | src/core/logger.py:83 | every `%(word)s` placeholder of the format, wherever it stands, is found by the scan |
| LogFormat.FieldsSkipPlain | src/core/logger.py:83 | text without `%` contributes no field |
| LogFormat.FieldsOfSegment | src/core/logger.py:83 | plain text, one `%(word)s` placeholder and a rest contribute the word followed by the rest's fields |
| LogFormat.FieldsOfThreeSegments | src/core/logger.py:83 | three such segments contribute their three words in order, followed by the rest's fields |
| LogFormat.FieldsOfSixSegments | src/core/logger.py:83 | six such segments contribute their six words in order |
| LogFormat.DefaultFormatFields | src/core/logger.py:290 | the default format's fields are `asctime`, `levelname`, `name`, `funcName`, `request_id` and `message`, in that order |
| LogFormat.HasConversionIff | src/core/logger.py:112 | the left-to-right search of the `%`-style validation pattern succeeds exactly when a match starts at some position |
| LogFormat.ScanFinds | src/core/logger.py:112 | a successful search yields a position where a match starts |
| LogFormat.ScanReaches | src/core/logger.py:112 | a match starting at any position makes the search succeed |
| LogFormat.PlaceholderConverts | src/core/logger.py:112 | a format holding a `%(word)s` placeholder passes the formatter's validation |
| LogFormat.FieldsConvert | src/core/logger.py:83-112 | a format in which the field scan finds anything passes the formatter's validation |
| LogFormat.DefaultFormatConverts | src/core/logger.py:290-303 | the default format passes the formatter's validation |
| LogFormat.FillFields | src/core/logger.py:86-89 | the first loop adds exactly the listed fields the record lacks, each with its context value or `''`, and keeps existing attributes |
| LogFormat.FillContext | src/core/logger.py:92-94 | the second loop adds exactly the context keys the record lacks, each with its context value, and keeps existing attributes |
| LogFormat.FillRecord | src/core/logger.py:79-94 | afterwards the record holds every format field and every context key. Existing attributes are never overwritten. Each added attribute takes the context value, or `''` |
| Loggers.Construct | src/core/logger.py:297-375 | succeeds exactly when every keyword is a parameter and the values pass the checks `Path`, `ThreadPoolExecutor`, `logging.getLogger` and the file formatter make. Those are: a string directory; a positive worker count; a string or falsy name; a falsy format, or one with a `%`-conversion. On success each parameter takes its argument or its default, with the level parsed |
| Loggers.DefaultsWithAccepted | src/core/logger.py:297-311 | the default settings pass every check, given a format with a conversion |
| Loggers.DefaultsAccepted | src/core/logger.py:290-311 | the default settings, with the default format, pass every check |
| Loggers.ConstructWellFormed | src/core/logger.py:297-326 | every logger construction builds holds all settings and accepted values |
| Loggers.ConstructNamed | src/core/logger.py:297-375 | with the name forced to a string, construction succeeds exactly when the other keywords are parameters and pass the value checks |
| Loggers.GetLogger | src/core/logger.py:336-349 | a known name returns the stored instance and ignores the arguments. A new name builds the defaults overridden by the arguments, with the name forced. It succeeds and registers exactly when the merged keywords are parameters and pass the value checks. A constructor error registers nothing |
| Loggers.GetLoggerIdempotent | src/core/logger.py:340-349 | every later call with the same name returns the same instance and registers nothing, whatever its arguments |
| Loggers.ChildKwargs | src/core/logger.py:495-508 | the child gets every parent setting except `async_workers`, each with the parent's value, plus `log_level` set to the parent's parsed level |
| Loggers.ChildLogger | src/core/logger.py:493-508 | the child is the singleton under `str(parent.name) + "." + suffix`. A new one has the parent's level and copied settings |
| Loggers.ChildInherits | src/core/logger.py:493-508 | for a well-formed parent, under defaults whose keys are parameters and whose worker count is accepted, an unregistered child is always created and registered with the parent's level and settings |
| Loggers.ChildRefusedByWorkers | src/core/logger.py:493-508 | defaults with a rejected worker count make every new child fail, and nothing is registered |
| Loggers.LogWithContext | src/core/logger.py:466-491 | emits exactly when the parsed level is positive and reaches the threshold, as `isEnabledFor` (line 229) decides with the default `disable` level of 0. The emission carries the temporary context on top of the current one. Afterwards old keys hold their old values and keys the call introduced are blank. An empty or absent context changes nothing |
| Loggers.LogWithContextRestores | src/core/logger.py:484-489 | every key reads back after the call what it read before it |
| Loggers.LogWithContextStable | src/core/logger.py:466-491 | a second identical call leaves the context as the first left it |
| QueryString.SplitJoin | src/main.py:72 | splitting the redirect query on `&` loses nothing: joining the pieces gives it back |
| QueryString.TwoParams | src/main.py:78 | in a query of two parameters with distinct plain names, each parameter reads back as its decoded value |
| QueryString.DecodeEncode | src/main.py:72 | query decoding undoes percent-encoding for every string |
| SwaggerGate.LoginGate | src/main.py:60-74 | 500 when either configured credential is empty. A 302 to `BASE_URL/docs?username=u&password=p` exactly when both submitted values match. Otherwise 401 `Invalid username or password` |
| SwaggerGate.DocsGate | src/main.py:77-91 | 500 when either configured credential is empty. The Swagger page exactly when both parameters are present and match, with title `app.title + " - Swagger UI"`. The page uses the application's `openapi_url` when it is set and non-empty, and `/openapi.json` otherwise. Otherwise a 307 to `BASE_URL/login` |
| SwaggerGate.Status | src/main.py:93-97 | `/status` always answers the message `Good Day! Everything is up and running :)` |
| SwaggerGate.OnHostBaseIff | src/main.py:72-88 | a redirect to `BASE_URL` followed by a route path leaves the host exactly when the base is `/` or itself starts with `//` |
| SwaggerGate.FollowToDocs | src/main.py:72-88 | following a redirect reaches nothing exactly when its `Location` leaves the host. Otherwise the docs handler runs on the parameters read back from the query |
| SwaggerGate.DocsStaysOnHost | src/main.py:72-74 | the login redirect leaves the host exactly when `BASE_URL` is `/` or starts with `//` |
| SwaggerGate.RootBaseLeavesHost | src/core/config.py:33 | with the default `BASE_URL` of `/`, the login handler redirects every successful login to `//docs?...`. That leaves the host, so the docs handler is never reached |
| SwaggerGate.DocsParams | src/main.py:72-78 | the redirect's two parameters read back as the decoded credentials whenever neither holds `&` or `#` |
| SwaggerGate.LoginThenDocs | src/main.py:72-87 | round trip: following a successful login's redirect opens the docs when neither credential holds `&`, `#`, `+` or `%` and `BASE_URL` keeps the redirect on the host |
| SwaggerGate.MangledPasswordBounces | src/main.py:72-88 | whenever the configured password does not decode back to itself from the query, the correct login's redirect is bounced back to the login form, for any `BASE_URL` that keeps redirects on the host |
| SwaggerGate.PlusPasswordBounces | src/main.py:72-88 | with the password `+` and a `BASE_URL` that keeps redirects on the host, the correct login's redirect is bounced back to the login form |
| SwaggerGate.LoginGateEncoded | src/main.py:67-74 | the login decision with both credentials percent-encoded in the redirect |
| SwaggerGate.EncodedLoginThenDocs | src/main.py:72-87 | with encoding and a `BASE_URL` that keeps redirects on the host, every successful login's redirect opens the docs, whatever the credentials hold |

## Left out

- Transport I/O: `accept`, `send_json`, `receive_text`, `close`, routing, CORS,
  templates and the `chat_page` file read. They become events, parameters and
  outcomes.
- Randomness: the colour draw and `uuid4()` are parameters.
- Concurrency: one handler is modelled alone. `ChatSocket.Run` and
  `ChatSocket.Chat` assume that no other handler connects or disconnects
  between this handler's events, and each broadcast runs over one registry
  state. So "every other entry is as before" and "the registry is unchanged"
  speak of this handler's own effects only. They are not facts about the whole
  server.
- The logger's threads, lock and per-task context variables: the context is
  one map from key to value.
- Redis expiry: the TTL is recorded, and no clock ever expires a key.
- The Redis and Firebase clients and src/core/config.py: configuration values
  are parameters. The login handler reads its credentials from the
  environment and the docs handler from the settings object. The round-trip
  lemmas assume both hold the same pair.
- `LogLevels.ParseLevel` covers only level names. `getattr(logging, name)` also
  finds non-level attributes of the `logging` module.
- `str()` of non-string context values, upper-casing beyond ASCII, and the
  non-ASCII part of `\w`.
- The formatters' rendering, ANSI colouring on a terminal, file rotation,
  `AsyncLogHandler`, caller-frame inspection and `log_structured`.
- `Loggers.LogWithContext` takes the logger's effective level `threshold` as a
  parameter. The manager's `disable` level is fixed at 0, because
  `logging.disable` is never called. The record stamping of `_log_async` is reduced to the context
  snapshot it attaches.
- `Loggers.ChildKwargs` passes the directory through unchanged. The source
  normalises it with `str(Path(...))`.
- `set_level`, `set_default_config` and the module-level convenience wrappers:
  these are plain assignments or delegations.
- `QueryString.DecodeComponent` decodes only escapes below 0x80. The source
  decodes longer escapes as UTF-8.
- The quoting Starlette applies to a redirect's `Location`: it is modelled as
  the identity. It keeps `&`, `#`, `+` and `%` as they are, and decoding undoes
  the rest.
- `SwaggerGate.FollowToDocs` assumes that a `Location` staying on the host
  names the docs route. The only departure it detects is a network-path
  reference (`//...`). The round-trip lemmas take `BASE_URL` as a parameter that
  keeps redirects on the host. `RootBaseLeavesHost` covers the default `/`.
- `Loggers.Construct` checks values only where construction itself raises:
  the directory, the worker count, the name and the file formatter's format.
  Errors that would appear later, when files are opened or handlers run, are
  not modelled.
- The dangling imports of `logger`/`shutdown_logging` and of the chat-manager
  service: the model covers only the logic present in the files.

## Findings

| source | as written | input that shows it | evidently intended | confidence | as-written member | corrected member |
|---|---|---|---|---|---|---|
| src/main.py:72 | the login redirect puts the submitted credentials into the query unescaped, and `/docs` decodes them as form fields | configured user `admin` with password `+`: the correct login is redirected, and `/docs` reads the password as a space and bounces back to the login form. `&`, `#` and `%XX` break it the same way | the credentials that passed `/login` reach `/docs` unchanged | medium, not executed | SwaggerGate.PlusPasswordBounces | SwaggerGate.EncodedLoginThenDocs |
