# usachat server core in Dafny

A model of the chat server in `backend/src/server.ts`. It has three parts:

- **The WebSocket protocol** (module `ChatSocket`, `socket.dfy`). Every accepted socket has its own `userId`, which starts as `null`.
  - An `auth` frame is checked by the token verifier. On failure the server sends `auth_fail` to that socket. On success it sets `userId` to the decoded `id` and sends `auth_ok` to that socket.
  - A `message` frame is handled only while `userId` is truthy. The server then sends a chat frame to every client of the server whose `readyState` is OPEN. It reads the clock once for each recipient.
  - The class `ChatServer` holds three things: the registry (socket id to open flag and `userId`), `wss.clients` in iteration order, and an outbox of every `send` performed.
  - `HandleFrame` is proved to do exactly what the pure function `React` describes. Its broadcast loop, `Broadcast`, is proved against `Fanout` and `OpenClients`.
  - `ScenarioTwoUsersChat` is a client of the class. Two sockets authenticate, and a message from the first reaches both.
- **The auth endpoints** (module `AuthApi`, `auth.dfy`). Signup and login are pure functions. Their inputs are the parsed request body and the outcomes of the awaited library calls: bcrypt, the database query and `jwt.sign`. Each outcome is a value or a thrown exception. The output is the status and body sent back.
- **The history endpoint** (module `History`, `history.dfy`). The query takes the newest 100 messages newest-first, and the handler reverses the rows.
- **Shared JavaScript values** (module `Json`, `json.dfy`). It defines parsed JSON values, `undefined`, JavaScript truthiness and `a || b`.

External inputs are parameters:
- the token verifier's result (`Verdict`);
- the results of bcrypt, PostgreSQL and `jwt.sign` (`Outcome`);
- the clock, a function from the n-th reading during one broadcast to the ISO timestamp string it gives.

Behaviours of the code worth knowing:
- chat goes to every OPEN client, authenticated or not, the sender included (`ChatReachesEachOpenClientOnce`, `UnauthenticatedListenerReceives`);
- `content` is not trimmed or checked, and an empty or missing `content` is broadcast as it is;
- nothing is persisted on the WebSocket path;
- a second successful `auth` overwrites `userId` (`ReauthOverwrites`);
- a failed `auth` leaves a previously bound `userId` in place (`FailedAuthKeepsUserId`).

## Model

| member | source | states |
|---|---|---|
| `ChatSocket.Classify` | backend/src/server.ts:95-105 | A payload that fails to parse, or parses to `null`, takes the caught-error branch. `auth` and `message` are recognised only when `type` is exactly that string. The token and the content are the object's own `token` and `content` fields, or `undefined`. |
| `ChatSocket.ClientFramesDispatch` | backend/src/server.ts:96-105 | The two inbound frame shapes the client sends are dispatched to the `auth` and `message` branches, carrying their token and content unchanged. |
| `ChatSocket.React` | backend/src/server.ts:94-120 | Handling a frame never touches another socket's state or any socket's open flag. Only an accepted `auth` changes state, and it sets the receiver's `userId` to the decoded id. Every `auth` sends exactly one reply to its own socket, `auth_ok` or `auth_fail`. Errors, unknown types and chat from a falsy `userId` send nothing. |
| `ChatSocket.MalformedOrUnknownIsInert` | backend/src/server.ts:95-97 | A payload that does not parse, or whose `type` is neither `auth` nor `message`, sends nothing and leaves the registry unchanged. |
| `ChatSocket.UnauthenticatedChatIsInert` | backend/src/server.ts:105 | A `message` frame on a socket whose `userId` is null or otherwise falsy sends nothing and changes nothing. |
| `ChatSocket.AuthRepliesToSenderOnly` | backend/src/server.ts:98-103 | After an `auth` frame, the sending socket's inbox is exactly one frame: `auth_ok` when verification succeeded, `auth_fail` otherwise. Every other socket receives nothing. |
| `ChatSocket.FailedAuthKeepsUserId` | backend/src/server.ts:98-99 | A failed verification leaves the whole registry unchanged, including a previously bound `userId`. |
| `ChatSocket.ReauthOverwrites` | backend/src/server.ts:100-102 | After two successful `auth` frames, the socket's `userId` is the id from the second. |
| `ChatSocket.TypeOf` | backend/src/server.ts:97 | `msg.type` has a value exactly when the parsed value is an object with a `type` property, and then it is that property. |
| `ChatSocket.OpenClients` | backend/src/server.ts:106-107 | The clients the broadcast guard lets through, in iteration order. There are never more of them than clients. |
| `ChatSocket.OpenClientsAreOpen` | backend/src/server.ts:106-107 | Every recipient of a broadcast is in the client set and has readyState OPEN. |
| `ChatSocket.OpenClientsNoDuplicates` | backend/src/server.ts:106-107 | A client set without duplicates gives recipients without duplicates. |
| `ChatSocket.Fanout` | backend/src/server.ts:108-113 | A broadcast makes one `send` per recipient. |
| `ChatSocket.FanoutAt` | backend/src/server.ts:108-113 | The j-th `send` of a broadcast goes to the j-th recipient. It carries `type` message, the sender's id, the inbound content, and the j-th clock reading as `created_at`. |
| `ChatSocket.OpenClientsCount` | backend/src/server.ts:106-107 | Each client appears among the broadcast's recipients once per occurrence in the client set if its readyState is OPEN, and zero times otherwise. |
| `ChatSocket.FanoutInbox` | backend/src/server.ts:106-114 | A socket receives one chat frame per occurrence among the recipients. Each frame carries the sender's id and the inbound content. |
| `ChatSocket.ChatReachesEachOpenClientOnce` | backend/src/server.ts:105-115 | A `message` frame from a socket with a truthy `userId` sends exactly one frame to each OPEN client, authenticated or not, the sender included, and none to any other socket. Each frame is a chat frame whose `sender_id` is the sender's `userId` and whose `content` is the inbound content. |
| `ChatSocket.OpenClientReceivesStampedChat` | backend/src/server.ts:105-113 | After a `message` frame from a socket with a truthy `userId`, the j-th OPEN client of the set has been sent exactly one frame: the chat frame with the sender's `userId`, the inbound content, and the j-th clock reading of the broadcast. |
| `ChatSocket.UnauthenticatedListenerReceives` | backend/src/server.ts:105-113 | For any client set without duplicates, an OPEN socket whose `userId` is falsy is among the recipients. It is sent exactly one frame: the chat frame with the sender's `userId`, the content, and the clock reading for its position among the OPEN clients. |
| `ChatSocket.ChatServer.constructor` | backend/src/server.ts:10 | A new server has no clients, no sockets and has sent nothing. |
| `ChatSocket.ChatServer.Accept` | backend/src/server.ts:91-92 | An accepted socket gets an unused id. It joins the end of the client set, OPEN, with `userId` null. Nothing is sent. |
| `ChatSocket.ChatServer.Close` | backend/src/server.ts:107 | A socket whose transport leaves the OPEN state is excluded from later broadcasts. The rest of the registry, the client set, the outbox and the next id stay the same. |
| `ChatSocket.ChatServer.HandleFrame` | backend/src/server.ts:94-120 | The new registry is `React`'s, and the outbox grows by exactly `React`'s frames. The client set stays the same. `logged` is true exactly when the error branch ran. |
| `ChatSocket.ChatServer.Broadcast` | backend/src/server.ts:106-115 | The loop over `wss.clients` appends one chat frame for each OPEN client, in iteration order. The j-th frame is stamped with the j-th clock reading. |
| `Json.TruthyValue` | backend/src/server.ts:37 | A JSON value is falsy exactly when it is `null`, `false`, `0` or the empty string. |
| `Json.Truthy` | backend/src/server.ts:105 | A property read is falsy exactly when it is `undefined`, `null`, `false`, `0` or the empty string. |
| `Json.Or` | backend/src/server.ts:43 | `a \|\| b` is `a` when `a` is truthy and `b` otherwise, so it is truthy exactly when one of them is. |
| `AuthApi.CredentialsPresent` | backend/src/server.ts:37 | Passing the guard needs both `username` and `password` present and neither the empty string. The same guard is at line 55. |
| `AuthApi.SignupInsert` | backend/src/server.ts:37-43 | Signup issues an insert exactly when the credentials guard passes and the hash succeeds. That insert stores the hash, never the password. It stores `display_name` when truthy and the username otherwise. |
| `AuthApi.SignupStore` | backend/src/server.ts:44-50 | A failed insert, an insert that returns no row, or a failed token signing gives 500 `Signup failed`. Otherwise the reply is 200 with the inserted user and the token. |
| `AuthApi.SignupAsWritten` | backend/src/server.ts:35-50 | A missing username or password gives 400. A rejected `bcrypt.hash` leaves the request with no reply. Otherwise the handler issues `SignupInsert`'s insert, and the reply is that of the `try` block on the database's answer. |
| `AuthApi.Signup` | backend/src/server.ts:35-50 | Corrected signup: every request is answered, with 200, 400 or 500. 400 exactly when credentials are missing. 200 exactly when the insert is issued, the database returns a row for it, and signing succeeds; the body has that row and the token. Every 500 is `Signup failed`. Where the as-written handler replies, this one replies the same. |
| `AuthApi.SignupDependsOnlyOnIssuedInsert` | backend/src/server.ts:41-47 | Both signup handlers see the database only through the insert they issue. Two databases that answer it alike give the same reply. |
| `AuthApi.SignupNonStringPasswordUnanswered` | backend/src/server.ts:39 | With a numeric password and a rejecting hash, the as-written handler sends no reply, while the corrected one sends 500. |
| `AuthApi.Login` | backend/src/server.ts:53-73 | Login always replies. 400 exactly when username or password is missing. 401 `Invalid credentials` exactly when no row matches or the comparison is false. 500 `Login failed` exactly when the query, the comparison or the signing throws. 200 exactly otherwise, with the first row's id, username and display name (never its hash) and the token. |
| `AuthApi.LoginHidesWhichCheckFailed` | backend/src/server.ts:62-66 | An unknown username and a wrong password produce the same reply. |
| `History.Reversed` | backend/src/server.ts:80 | `rows.reverse()` keeps the number of rows. |
| `History.ReversedAt` | backend/src/server.ts:80 | Position k of the reversed rows holds the element k places from the end. |
| `History.NewestFirst` | backend/src/server.ts:77-79 | The query's result has `min(100, n)` rows, newest first. Row k is the k-th newest message. |
| `History.HistoryRows` | backend/src/server.ts:77-80 | The history sent has `min(100, n)` rows. |
| `History.HistoryIsNewestSuffix` | backend/src/server.ts:77-80 | The history equals the last `min(100, n)` messages in their original oldest-first order, so it has at most 100 rows. |
| `History.ShortHistoryIsComplete` | backend/src/server.ts:77-80 | With at most 100 messages, the history is all of them, in order. |
| `History.MessagesReply` | backend/src/server.ts:75-84 | The handler replies 200 with the reversed rows when the query succeeds, and 500 `Failed to fetch messages` when it throws. |
| `History.MessagesReplyIsRecentHistory` | backend/src/server.ts:75-84 | When the database answers the history query, the reply is 200 with the most recent `min(100, n)` messages oldest-first. |

## Findings

| source | as written | input that shows it | evidently intended | confidence | as-written member | corrected member |
|---|---|---|---|---|---|---|
| backend/src/server.ts:39-40 | `bcrypt.hash` is awaited before the `try`. Its rejection escapes the async handler, so no reply is sent (under Express 4) and the promise rejection goes unhandled, which on Node 15 and later ends the process by default. | `POST /api/auth/signup` with body `{"username":"alice","password":123}`: bcryptjs rejects a password that is not a string. | Like every other failure in the handler, reply 500 `Signup failed`. | medium; not executed | `AuthApi.SignupAsWritten`, `AuthApi.SignupNonStringPasswordUnanswered` | `AuthApi.Signup` |

## Left out

- Express, the HTTP server, the CORS middleware, `/api/health` and `listen` (backend/src/server.ts:8-12, 25-32, 86-88, 123-125) are transport plumbing.
- Environment configuration (backend/src/server.ts:14-23) is left out.
- PostgreSQL: the SQL, the join with `users`, and how rows with equal `created_at` are ordered are not modelled. `NewestFirst` takes the visible messages as already in oldest-first order.
- bcrypt hashing and comparison, and JWT signing and verification, are not modelled. Only their results enter, as the `Outcome` and `Verdict` parameters. With a string secret, `jwt.verify` runs its callback before it returns, so the verdict is applied within the same handling step.
- `new Date().toISOString()` is replaced by the `clock` parameter.
- `data.toString()` and UTF-8 decoding are not modelled. A payload is either unparsable or the JSON value it parses to.
- JSON numbers are exact reals (no rounding). Inherited object properties are not modelled.
- Socket delivery, transport errors from `send`, and concurrency between sockets are not modelled. The model is a sequence of steps over one registry.
- `ChatSocket.ChatServer.Close`: when a socket's 'close' event fires, the WebSocket library also deletes it from `wss.clients`. The model only marks the socket not OPEN and keeps it in the client set. The broadcast guard skips such a socket either way.
- `ChatSocket.ChatServer.HandleFrame` requires the socket to be known to the registry. The library delivers frames only to sockets it has accepted.
- frontend/src/App.tsx, the browser client, is not part of this model.
