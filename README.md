# Chat room server and client: a Dafny model

This project models the core of a small chat application: an Express and WebSocket server
(`server.js`) with a cookie session store (`SessionManager.js`), a MongoDB storage layer
(`Database.js`), and the browser client's room model (`client/app.js`).

- **Session store** (`sessions.dfy`, module `Sessions`). `SessionManager` is a class whose
  `sessions` map from token to `{username, timestamp}` is filled by `CreateSession`. It is emptied
  by `DeleteSession` and by `Expire`, which stands for the `setTimeout` callback. The Express
  `middleware` is a loop over the `"; "`-separated cookies. It stamps the request and returns the
  list of `next` calls it makes. The random token is a value the caller supplies: 128 lower-case hex
  digits, not yet in the table.
- **Broker** (`server.dfy`, module `Server`). The class `Broker` holds the module-level state of
  `server.js`: each room's buffer `messages`, the WebSocket clients with their ready states, and the
  message handlers registered per connection. It also holds the inserts submitted to storage and
  not yet completed. The handshake reads its token as the text between the first and second `=` of
  the whole cookie header. This is not the same parsing as the middleware, and
  `AdmitsIssuedCookie` states that the two agree on a header holding only the session cookie. An inbound message is sanitized, signed with the
  current owner of the captured cookie, appended, and relayed to every other open client. A buffer
  of 10 or more messages is submitted to storage. The buffer is emptied only when the completion
  event `CompleteFlush` arrives, as in the source. `server.dfy` also holds `isCorrectPassword`
  (SHA-256 is a function parameter), `errorHandler` and the `GET`/`POST /chat` handlers.
- **Sanitizer** (`sanitizer.dfy`). The server and the client define the same `sanitize`, so it is
  defined once here. It is proved safe (no markup characters in its output) and lossless (entity
  decoding gives the input back).
- **Storage** (`storage.dfy`, module `Storage`). `Database` holds the `chatrooms` and
  `conversations` collections as sequences. `GetLastConversation` is the `forEach` scan, proved
  against the function `LatestIndex` and against the declarative `IsLatestBefore`. `Pages` follows
  a client that pages back through history with each answer's timestamp as its next cursor. It is
  proved to go strictly backwards and to reach every timestamp below the start. Paging by timestamp
  skips a second conversation whose timestamp equals one already returned.
- **Flush policy** (`archive.dfy`, module `Archive`). This is one room's buffer on values: the flush
  as written, and the corrected flush (see Findings).
- **Client** (`client.dfy`, module `Client`). It models the classes `Room` and `Lobby`. The
  `refreshLobby` merge is the method `Lobby.Refresh`, proved against the function `MergeListing`.
  The `renderRoute` choice is `RouteOf`.
- **JavaScript semantics** (`jstext.dfy`). This covers `split` and `join`, `arr[i]` past the end,
  `undefined` used as a property name (it becomes the key `"undefined"`), falsy strings and `trim`.

Clocks are parameters (`now`). The random token and SHA-256 are parameters. Sockets are numeric
client ids. Promise sequencing is the order of method calls.

## Model

| member | source | states |
|---|---|---|
| Sessions.SessionManager.constructor | SessionManager.js:5-11 | a new manager holds no session, and its table is valid |
| Sessions.SessionManager.CreateSession | SessionManager.js:15-25 | the fresh token is added with `{username, now}`, it becomes valid and maps to the username, every other token's lookup is unchanged, and the cookie carries the token and `maxAge`, which defaults to 600000 |
| Sessions.SessionManager.Expire | SessionManager.js:27-29 | the timer removes exactly its token; afterwards the token is invalid and `getUsername` gives null; removing a token that is already gone changes nothing |
| Sessions.SessionManager.DeleteSession | SessionManager.js:32-36 | exactly the key `request.session` leaves the table (the key "undefined" when the request has no session), and the request loses `username` and `session` |
| Sessions.SessionManager.GetUsername | SessionManager.js:63-65 | the result is non-null exactly for a key of the table, and then it is that session's username |
| Sessions.IsValidSessionAsWritten | SessionManager.js:65 | as written, every inherited name passes whatever the table holds; any other token passes iff it is a key of the table; so in a table of issued tokens the only non-token strings that pass are inherited names |
| Sessions.UndefinedNeverLive | SessionManager.js:44-46 | in a table of issued tokens the key "undefined", which a cookie without `=` is looked up as, is never live |
| Sessions.SessionManager.IsValidSession | SessionManager.js:65 | a token is valid iff it is an own key of the table; in a valid table a valid token has the form of an issued token and is never a name objects inherit |
| Sessions.LiveRun | SessionManager.js:43-53 | the cookies before the cut all name live sessions, and the cookie at the cut does not |
| Sessions.NextCalls | SessionManager.js:38-59 | with no or an empty cookie header there is exactly one `next(SessionError)`; the first call is `next()` iff the first cookie's value is live; only the last call can be an error; every error is a `SessionError` |
| Sessions.SessionManager.Middleware | SessionManager.js:38-59 | the loop makes exactly the calls `NextCalls` gives; without a live first cookie the request is left as it was; otherwise the request carries the last accepted cookie value and its owner |
| Sessions.MiddlewareAcceptsIssuedCookie | SessionManager.js:41-49 | a header holding only the issued cookie gives `next()` if the token is live and `next(SessionError)` otherwise, and a live token is stamped on the request |
| Sessions.SingleCookie | SessionManager.js:41-44 | a header holding one `name=value` cookie, with no `=` or `;` in either part, yields exactly that value |
| Sanitizer.Escape | server.js:53-60 | each of the six special characters becomes an entity starting with `&`; every other character is kept as it is; no replacement contains markup characters |
| Sanitizer.Sanitize | server.js:52-63 | the sanitized text is never shorter than the input and contains none of `< > " ' /`, so it cannot open a tag or close an attribute; the client's copy at client/app.js:35-46 is the same function |
| Sanitizer.SanitizeAppend | server.js:61-62 | sanitizing works character by character, so it distributes over concatenation |
| Sanitizer.SanitizeRoundTrip | server.js:52-63 | decoding the six entities in the sanitized text gives back the original text |
| Sanitizer.SanitizeUnchangedIff | client/app.js:35-46 | text is unchanged iff it has no special character; otherwise it gets strictly longer |
| Server.IsCorrectPassword | server.js:26-38 | for a salted hash of at least 20 characters, the check is true iff the hash of the password followed by the first 20 characters equals the rest; for a shorter one, iff that hash is empty |
| Server.SaltedHashAccepts | server.js:26-37 | a salted hash made from a password and a 20-character salt accepts that password |
| Server.ShortSaltedHashRejects | server.js:27-28 | with a hash that is never empty, a salted hash shorter than 20 characters accepts no password |
| Server.ErrorResponse | server.js:40-50 | 401 iff a session error on a request whose `Accept` header is exactly `application/json`; a redirect to `/login` iff any other session error; 500 iff any other error |
| Server.HandshakeToken | server.js:199 | the token read from the cookie header never contains `=`, and it is undefined exactly when the header has no `=` |
| Server.Admits | server.js:196-201 | an admitted connection has a non-empty cookie header; against a table of issued tokens, its handshake token exists and has the form of an issued token |
| Server.AdmitsIssuedCookie | server.js:196-201 | for a header holding only the session cookie, the handshake token is the issued token, and the connection is admitted iff that session is live |
| Server.NoEqualsNotAdmitted | server.js:196-201 | against a table of issued tokens, a cookie header with no `=` has an undefined handshake token and is never admitted |
| Server.NoCookieNotAdmitted | server.js:239-241 | a connection with no or an empty cookie header is never admitted |
| Server.InheritedNameAcceptedAsWritten | SessionManager.js:65 | as written, the forged cookie `cpen322-session=toString` yields the value `toString`, which `in` finds on every session table although no session has it, and the socket cookie `x=toString` yields the same token |
| Server.InheritedNameRefused | SessionManager.js:63-65 | with own-key membership no inherited name is a live session: the forged cookie gets exactly one `next(SessionError)` and the forged socket is not admitted |
| Server.Fanout | server.js:215-219 | every delivery carries the message to a client that is not the sender and is open, and every such client gets one |
| Server.FanoutOnce | server.js:215-219 | when the clients are distinct, no client receives the message twice |
| Server.Broker.constructor | server.js:76-81 | every stored room starts with an empty buffer, and only stored rooms have one |
| Server.Broker.OnConnection | server.js:195-241 | a connection is admitted iff its cookie header is non-empty and its handshake token is live; only then does it join the open clients with a handler bound to that token; a refused connection changes nothing |
| Server.Broker.OnMessage | server.js:202-235 | the handler fails iff the room id names an inherited property that has no buffer, and then nothing changes and nothing is sent; otherwise the room's buffer gains exactly the sanitized message, signed with the current owner of the captured cookie, other rooms are unchanged, the deliveries are `Fanout`, a buffer of at least 10 messages is stored as one conversation and recorded as pending while a shorter one stores nothing, and the room's state moves as `Archive.PostAsWritten` says |
| Server.Broker.Append | server.js:210-214 | the buffers become `PushAsWritten` of the old ones: an inherited name without a buffer throws and changes nothing; any other room's buffer gains the message at its end, or starts as a one-message list; nothing else changes |
| Server.PushAsWritten | server.js:210-214 | the push throws iff the room id is an inherited name with no buffer of its own; whenever it does not throw it gives the intended append |
| Server.PushCorrected | server.js:210-214 | every room id, an inherited name included, gets the message at the end of its own buffer, and every other buffer is kept |
| Server.InheritedRoomIdThrows | server.js:210-211 | as written, a message for the room id `toString`, which has no buffer, throws; the intended append starts that room's buffer with the message |
| Server.Broker.Relay | server.js:215-219 | the loop sends to exactly the open clients other than the sender, each once |
| Server.Broker.Submit | server.js:222-229 | a buffer of at least 10 messages is appended to storage as `{room_id, now, buffer}`, and its room is added to the pending inserts; a shorter one changes nothing; the buffer itself is kept |
| Server.Broker.CompleteFlush | server.js:229-233 | when a pending insert completes, its room's buffer becomes empty, whatever the buffer holds at that point; that room moves as `Archive.CompleteAsWritten` says, and every other room keeps its state |
| Server.OnMessageFollowsPolicy | server.js:210-233 | appending a message and submitting a full buffer changes the room's buffer, pending inserts and stored blocks as the flush policy's `PostAsWritten`, and other rooms keep their state |
| Server.CompleteFlushFollowsPolicy | server.js:229-233 | the change a completed insert makes is the flush policy's `CompleteAsWritten` for its room, and other rooms keep their state |
| Server.ListingOf | server.js:124-126 | a listing entry carries the stored room's id, name and image, plus the room's buffer, or undefined when the room has no buffer |
| Server.Broker.ListRooms | server.js:119-129 | the answer has one entry per stored room, in storage order, each one `ListingOf` that room |
| Server.Broker.CreateRoom | server.js:130-149 | a missing body or a body without `name` gets 400 and changes nothing; otherwise the room `{name, image}` is stored under the new id, returned, and given an empty buffer |
| Storage.InsertRoom | Database.js:93-104 | a room without `name` is rejected; otherwise the entry holds exactly `name` and `image`, and `_id` when one was given; it is appended to the collection |
| Storage.InsertRoomAsWritten | Database.js:93-112 | as written, the entry is appended whether or not the room has a `name`; the promise's result is the intended one, so a rejected room still ends in the collection |
| Storage.InsertConversationAsWritten | Database.js:156-168 | as written, the object is appended whatever it holds; the promise rejects iff a field is missing, with the first missing field's error, and its result is the intended one |
| Storage.InsertConversation | Database.js:156-168 | the first missing field among `room_id`, `timestamp` and `messages` gives the matching rejection; a complete conversation is appended and returned |
| Storage.Database.AddRoom | Database.js:87-115 | the collection and result are those of `InsertRoom`; conversations are unchanged |
| Storage.Database.AddConversation | Database.js:151-178 | the collection and result are those of `InsertConversation`; rooms are unchanged |
| Storage.CursorTime | Database.js:122-125 | an absent or zero `before` is replaced by the current time |
| Storage.RoomConversations | Database.js:127-128 | exactly the room's conversations, and nothing else |
| Storage.LatestIndex | Database.js:138-145 | the scan ends with an index of the list whose item is below the cursor, or with none |
| Storage.LatestIndexSpec | Database.js:136-145 | the scan finds nothing iff no item is below the cursor; otherwise it finds exactly the item that is below the cursor, is not older than any other item below it, and is the first with its timestamp |
| Storage.LastConversation | Database.js:127-145 | null only when the room has no conversation; a found conversation is one of the room's and is below the cursor |
| Storage.LastConversationSpec | Database.js:132-145 | the result is null iff the room has no conversation, and undefined iff it has some but none is below the cursor; otherwise it is one of the room's conversations, below the cursor and not older than any other |
| Storage.Database.GetLastConversation | Database.js:117-149 | the loop gives `LastConversation` at the cursor `CursorTime(before, now)`, with that lemma's guarantees |
| Storage.CountBelowDrops | Database.js:139 | moving the cursor to a returned timestamp leaves strictly fewer conversations below it |
| Storage.PagesBelow | Database.js:139 | every page of a walk back from a cursor is one of the items and is below the cursor |
| Storage.PagesDecreasing | Database.js:139-141 | paging with the previous answer's timestamp as the cursor gives strictly decreasing timestamps |
| Storage.PagesCover | Database.js:138-145 | every timestamp below the starting cursor is returned by some page |
| Archive.CompleteAsWritten | server.js:229-233 | a completion never stores anything; with an insert pending it empties the buffer, whatever it holds, and counts one insert fewer; with none pending nothing changes |
| Archive.PostAsWritten | server.js:210-229 | the message is appended; a buffer of at least 10 is submitted as it is, and a pending insert is counted |
| Archive.StepCorrectedKeeps | server.js:222-233 | one event under the corrected policy keeps "stored blocks then buffer equals the posted messages", with full blocks and a short buffer |
| Archive.CorrectedKeepsEachMessageOnce | server.js:222-233 | under the corrected policy the stored blocks followed by the buffer are exactly the posted messages in order; every block holds 10 messages; the buffer holds fewer than 10 |
| Archive.AsWrittenReflushes | server.js:222-233 | as written, while the first insert is pending, the n-th message stores the whole n-message buffer again |
| Archive.AsWrittenLoses | server.js:229-233 | as written, a message posted between two completions, into a buffer that stays below 10, is emptied by the second completion and is in no stored block |
| Client.InitialState | client/app.js:295-306 | a falsy image becomes `assets/everyone-icon.png` and missing messages become `[]`; otherwise both are kept; id and name are kept |
| Client.Room.constructor | client/app.js:295-314 | a new room is in `InitialState` |
| Client.Room.AddMessage | client/app.js:316-323 | a text that is white space only leaves the messages unchanged; any other text appends `{username, text}` at the end |
| Client.Room.AddConversation | client/app.js:330-331 | the messages become the conversation's messages followed by the old ones, both in their order |
| Client.Lobby.constructor | client/app.js:336-339 | a new lobby holds no room |
| Client.Lobby.GetRoom | client/app.js:341-347 | a stored key gives its room, and any other key gives undefined |
| Client.Lobby.AddRoom | client/app.js:349-351 | a fresh room in `InitialState` is stored under its id, replacing any previous room there; other rooms keep their objects |
| Client.Lobby.Update | client/app.js:500-502 | a known room gets the listed name and image; no other room changes |
| Client.Lobby.Refresh | client/app.js:495-506 | after the loop, the lobby shows `MergeListing` of what it showed before, and every room it had keeps its object |
| Client.MergeOne | client/app.js:500-505 | a listing entry adds its id to the lobby's keys |
| Client.MergeListing | client/app.js:498-506 | after a whole listing the lobby knows exactly the rooms it knew and the listed ones |
| Client.MergeListingKeys | client/app.js:498-505 | after a refresh every room of the lobby is stored under its own id |
| Client.MergeListingKeeps | client/app.js:500-502 | a room the lobby had keeps its messages, and a room the listing does not name is unchanged |
| Client.MergeListingNewRoom | client/app.js:503-505 | a room the lobby did not show, named by one listing entry, ends a refresh in the state `new Room` gives it from that entry |
| Client.MergeListingLastWins | client/app.js:498-502 | a room the lobby knew ends a refresh with the name and image of the last listing entry for it, taken as given (an absent image is not replaced by the default), and with its own messages |
| Client.Lobby.RouteRoom | client/app.js:476-477 | a chat route selects the room stored under its third segment (the key "undefined" when there is none), if the lobby has one |
| Client.RouteOf | client/app.js:463-491 | a room key taken from the hash never contains `/`; a hash without `/`, or whose second segment is none of "", "chat" and "profile", shows the empty page |
| Client.RouteOfChat | client/app.js:471-477 | `#/chat/<id>` shows the chat page for `<id>`, and `#/chat` shows it with no room key |
| Client.RouteOfHashOf | client/app.js:463-490 | every page is shown for the hash it is reached by (`#/`, `#/chat`, `#/chat/<id>`, `#/profile`, the empty hash), for every room key without `/` |
| JsText.SplitJoin | SessionManager.js:41 | joining the pieces of `split` with the separator gives back the original string |
| JsText.TrimEmptyIff | client/app.js:317 | `trim()` is empty iff every character is white space |

## Left out

- The MongoDB driver, the `Database` constructor and `getRoom` with its ObjectId fallback are foreign code. The collections are sequences, and a generated `_id` is a parameter.
- `getUser` and the `POST /login` route are left out. They are HTTP plumbing around `isCorrectPassword`, which is modelled.
- `GET /chat/:room_id` and `GET /chat/:room_id/messages` are left out. They forward to `getRoom` and `getLastConversation`, and answer 404 on a falsy result.
- `GET /profile` and `GET /logout` are left out. The first answers with `request.username`, and the second calls `deleteSession` and redirects to `/login`.
- Static serving, `logRequest`, `app.listen`, `res.cookie` and `res.redirect` are Express plumbing. `CreateSession` returns the cookie it would set.
- `crypto.randomBytes` and SHA-256 become a token and a `hash` function supplied by the caller.
- `setTimeout`, `setInterval` and `Date.now` become the `Expire` step, repeated calls and the `now` parameter.
- The `ws` transport is left out. Ready-state changes are the `SetReadyState` event, and a send is a `Delivery` value.
- `JSON.parse` failures and non-string `text` or `roomId` fields are left out. The model takes an already parsed room id and text.
- The `before` query parameter is taken as a number. The string-to-number coercion of `<` is not modelled.
- Sessions.SessionManager.IsValidSession: tests own keys only, which is the intended behaviour (see Findings). As written, `token in sessions` is also true for every name a plain object inherits (`toString`, `constructor`, `__proto__` and the rest of `InheritedNames`). So a browser that sends the cookie `cpen322-session=toString` passes the middleware with `request.username` undefined, and a socket whose cookie is `x=toString` is admitted and posts messages without a username, whatever sessions exist. `IsValidSessionAsWritten` states the test as written, and `InheritedNameAcceptedAsWritten` shows the forged cookie getting through it.
- Sessions.LiveRun: uses own-key membership, for the reason given on the `Sessions.SessionManager.IsValidSession` line.
- Sessions.NextCalls: uses own-key membership, for the reason given on the `Sessions.SessionManager.IsValidSession` line.
- Sessions.SessionManager.Middleware: uses own-key membership, for the reason given on the `Sessions.SessionManager.IsValidSession` line.
- Server.Admits: uses own-key membership, for the reason given on the `Sessions.SessionManager.IsValidSession` line.
- Server.Broker.OnMessage: the `TypeError` thrown by `push` for an inherited room id is a handler that fails with no change and no delivery. What Node then does with the uncaught exception (by default it ends the process) is not modelled.
- Client.MergeListing: keys of `lobby.rooms` are taken as own keys as well; the ids come from the server's listing, and the model does not follow a room id that names an inherited property.
- Client.Lobby.Refresh: takes the keys of `lobby.rooms` as own keys, for the reason given on the `Client.MergeListing` line.
- The same buffer array is shared by `messages` and the conversation handed to `addConversation`. The client's rooms also share arrays with the listing objects. The model copies values at those points, so aliasing is not captured.
- The client callbacks `onNewMessage`, `onFetchConversation` and `onNewRoom`, and the fields `getLastConversation`, `canLoadConversation` and `timestamp` of `Room`, are view plumbing.
- `makeConversationLoader`, the DOM views, `Service` and the client's WebSocket listener are left out.
- The `cpen322` tester hooks are left out.
- Storage.Database.AddRoom: follows the corrected insert, so a rejected room is not stored (see Findings). The server only calls it with a `name`, where both versions agree.
- Storage.Database.AddConversation: follows the corrected insert, so a rejected conversation is not stored (see Findings). The server always passes all three fields, where both versions agree.
- Server.Broker.OnConnection: a refused connection is not added to the clients. `ws` keeps it while it closes, and the relay skips it anyway because it is not open.
- Server.Broker.CreateRoom: a body whose `name` is present but `null` is treated as having no name.

## Findings

| source | as written | input that shows it | evidently intended | confidence | as-written member | corrected member |
|---|---|---|---|---|---|---|
| server.js:222-233 | the buffer is submitted once it holds at least 10 messages, and is reset only when the insert completes | messages 11 and 12 arrive before the first insert completes: the buffer is stored again with 11 messages, then with 12; or message 12 arrives between two completions and is emptied without ever being stored | every message is stored in exactly one block of 10 | not executed | Archive.AsWrittenLoses | Archive.CorrectedKeepsEachMessageOnce |
| Database.js:93-112 | `reject` does not end the executor, so a room without `name` is still inserted | `addRoom({image: "x"})` rejects and stores `{name: undefined, image: "x"}` | a rejected room is not stored | not executed | Storage.RejectedRoomStillStored | Storage.InsertRoom |
| Database.js:156-168 | `reject` does not end the executor, so an incomplete conversation is still inserted | `addConversation({room_id: "r", messages: []})` rejects and stores the object | a rejected conversation is not stored | not executed | Storage.RejectedConversationStillStored | Storage.InsertConversation |
| server.js:210-214 | `msg.roomId in messages` on the plain object is also true for inherited names, and `push` on the inherited value throws | a logged-in client sends `{"roomId": "toString", "text": "hi"}`: the handler throws a `TypeError`, and nothing is appended, relayed or stored | any room id gets its own buffer | not executed | Server.InheritedRoomIdThrows | Server.PushCorrected |
| SessionManager.js:65 | `token in sessions` on a plain object is also true for inherited names | the cookie header `cpen322-session=toString` passes the middleware with no username, and a socket with the cookie `x=toString` is admitted, with no session in the table | only a token the server issued is a valid session | not executed | Server.InheritedNameAcceptedAsWritten | Server.InheritedNameRefused |

`Archive.AsWrittenReflushes` is the first input of the first row: repeated storage. The `Broker` class
keeps the source's reset-on-completion, so that its contract matches `server.js` line for line;
`Server.OnMessageFollowsPolicy` and `Server.CompleteFlushFollowsPolicy` show that each room of the
broker moves exactly as `Archive`'s as-written policy does. The corrected policy is stated and proved
on values in `Archive`. For the row on SessionManager.js:65, `SessionManager` uses own-key membership, the corrected half,
and `IsValidSessionAsWritten` keeps the membership test as written. For the row on server.js:210-214,
`Broker.Append` keeps the test as written (`PushAsWritten`), and `PushAsWritten` is proved equal to
`PushCorrected` wherever it does not throw.
