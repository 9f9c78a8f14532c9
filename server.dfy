/**
 * The logic of `server.js`: the password check, the error handler's choice of response, the `/chat`
 * routes, and the WebSocket broker that authenticates a connection by its cookie, buffers each room's
 * messages, relays them to the other open clients and hands full buffers to storage.
 * SHA-256 is the parameter `hash`; `Date.now()` is the parameter `now`; sockets are client ids.
 */
module Server {
  import opened Types
  import opened JsText
  import opened Sanitizer
  import opened Sessions
  import opened Storage
  import Archive

  /** Length of the salt that prefixes a stored salted hash. */
  const SaltLength: nat := 20

  /** `s.substring(0, end)`: the whole string when it is shorter. */
  function SubstringTo(s: string, end: nat): (r: string)
    ensures |s| >= end ==> r == s[..end]
    ensures |s| < end ==> r == s
  {
    if end <= |s| then s[..end] else s
  }

  /** `s.substring(start)`: empty when the string is shorter. */
  function SubstringFrom(s: string, start: nat): (r: string)
    ensures |s| >= start ==> r == s[start..]
    ensures |s| < start ==> r == ""
  {
    if start <= |s| then s[start..] else ""
  }

  /**
   * `isCorrectPassword`. A salted hash of at least 20 characters accepts exactly the passwords whose hash,
   * salted with its first 20 characters, is the rest; a shorter one accepts exactly those whose hash,
   * salted with the whole of it, is empty.
   */
  function IsCorrectPassword(password: string, saltedHash: string, hash: string -> string): (ok: bool)
    ensures |saltedHash| >= SaltLength ==>
              (ok <==> hash(password + saltedHash[..SaltLength]) == saltedHash[SaltLength..])
    ensures |saltedHash| < SaltLength ==> (ok <==> hash(password + saltedHash) == "")
  {
    hash(password + SubstringTo(saltedHash, SaltLength)) == SubstringFrom(saltedHash, SaltLength)
  }

  /** How a salted hash is laid out: the salt, then the hash of the password followed by the salt. */
  function SaltedHash(password: string, salt: string, hash: string -> string): (s: string)
    requires |salt| == SaltLength
    ensures |s| >= SaltLength && s[..SaltLength] == salt
  {
    salt + hash(password + salt)
  }

  /** The password a salted hash was made from is accepted by it. */
  lemma SaltedHashAccepts(password: string, salt: string, hash: string -> string)
    requires |salt| == SaltLength
    ensures IsCorrectPassword(password, SaltedHash(password, salt, hash), hash)
  {
    var s := SaltedHash(password, salt, hash);
    assert s[SaltLength..] == hash(password + salt);
  }

  /** With a hash that never yields the empty string (as base64 SHA-256 does not), a short salted hash accepts nothing. */
  lemma ShortSaltedHashRejects(password: string, saltedHash: string, hash: string -> string)
    requires |saltedHash| < SaltLength
    requires forall x :: hash(x) != ""
    ensures !IsCorrectPassword(password, saltedHash, hash)
  {
    assert hash(password + saltedHash) != "";
  }

  /** An HTTP answer the server chooses: a status code, or a redirect. */
  datatype Response = Status(code: int) | Redirect(location: string)

  /**
   * `errorHandler`: session errors are 401 for a request whose `Accept` header is exactly
   * `application/json` and a redirect to the login page for any other; any other error is 500.
   */
  function ErrorResponse(err: Failure, request: Request): (r: Response)
    ensures r == Status(401) <==> err == SessionError && request.accept == Some("application/json")
    ensures r == Redirect("/login") <==> err == SessionError && request.accept != Some("application/json")
    ensures r == Status(500) <==> err == OtherError
  {
    match err
    case SessionError => if request.accept == Some("application/json") then Status(401) else Redirect("/login")
    case OtherError => Status(500)
  }

  /** `ws` ready states of a client socket. */
  datatype ReadyState = Connecting | Open | Closing | Closed

  type ClientId = nat

  /** One `client.send` of a relayed message. */
  datatype Delivery = Delivery(to: ClientId, message: Message)

  /** The parsed body of `POST /chat`; `name` is `None` when the body has no `name` property. */
  datatype RoomRequest = RoomRequest(name: Option<string>, image: Option<string>)

  /** The answer to `POST /chat`: 200 with the room, 400, or none (when storage yields nothing). */
  datatype Reply = Created(room: RoomEntry) | BadRequest | NoReply

  /**
   * The token the connection handler reads: the text between the header's first and second `=`. It never
   * contains `=`, and it is undefined exactly when the header has no `=` at all.
   */
  function HandshakeToken(header: string): (token: Option<string>)
    ensures token.Some? ==> Avoids(token.value, "=")
    ensures token.None? <==> Avoids(header, "=")
  {
    SplitPieces(header, "=");
    Nth(Split(header, "="), 1)
  }

  /**
   * Whether the connection handler registers a message handler for a connection with this cookie header.
   * Against a table of issued tokens, an admitted header has an `=` and the text after it is such a token.
   */
  function Admits(header: Option<string>, sessions: map<Token, Session>): (admitted: bool)
    ensures admitted ==> !Falsy(header)
    ensures admitted && (forall t | t in sessions :: IsToken(t)) ==>
              HandshakeToken(header.value).Some? && IsToken(HandshakeToken(header.value).value)
  {
    !Falsy(header) && PropertyKey(HandshakeToken(header.value)) in sessions
  }

  /**
   * `socket.close()` for any connection that `Admits` refuses is the intended behaviour; as written, the
   * membership test also finds inherited names, so a forged cookie naming one passes both the middleware's
   * check and the connection handler's, whatever sessions exist, and no username goes with it.
   */
  lemma InheritedNameAcceptedAsWritten(sessions: map<Token, Session>)
    requires forall t | t in sessions :: IsToken(t)
    ensures CookieValues(CookieName + "=" + "toString") == [Some("toString")]
    ensures IsValidSessionAsWritten("toString", sessions) && "toString" !in sessions
    ensures HandshakeToken("x" + "=" + "toString") == Some("toString")
  {
    assert Avoids(CookieName, "=") && Avoids(CookieName, ";");
    assert Avoids("toString", "=") && Avoids("toString", ";");
    SingleCookie(CookieName, "toString");
    SplitCut("x", "=", "toString");
    SplitPlain("toString", "=");
  }

  /** Own-key membership refuses the same forged cookies: no inherited name is ever a live session. */
  lemma InheritedNameRefused(sessions: map<Token, Session>)
    requires forall t | t in sessions :: IsToken(t)
    ensures forall n | n in InheritedNames :: n !in sessions
    ensures NextCalls(Some(CookieName + "=" + "toString"), sessions) == [Fail(SessionError)]
    ensures !Admits(Some("x" + "=" + "toString"), sessions)
  {
    InheritedNameAcceptedAsWritten(sessions);
  }

  /** A browser holding only the session cookie is admitted exactly while its session lives, with its own token. */
  lemma AdmitsIssuedCookie(token: Token, sessions: map<Token, Session>)
    requires IsToken(token)
    ensures HandshakeToken(CookieHeader(token)) == Some(token)
    ensures Admits(Some(CookieHeader(token)), sessions) <==> token in sessions
  {
    TokenAvoids(token, "=");
    assert Avoids(CookieName, "=");
    SplitCut(CookieName, "=", token);
    SplitPlain(token, "=");
  }

  /** A connection without a cookie header is never admitted. */
  lemma NoCookieNotAdmitted(sessions: map<Token, Session>)
    ensures !Admits(None, sessions) && !Admits(Some(""), sessions)
  {
  }

  /**
   * A header with no `=` is never admitted against a table of issued tokens: its handshake token is
   * `undefined`, looked up as the key "undefined", which is not a token.
   */
  lemma NoEqualsNotAdmitted(header: string, sessions: map<Token, Session>)
    requires forall t | t in sessions :: IsToken(t)
    requires Avoids(header, "=")
    ensures HandshakeToken(header) == None
    ensures !Admits(Some(header), sessions)
  {
    UndefinedNeverLive(sessions);
  }

  /** The buffer of a room: `[]` when `messages` has no entry for it. */
  function Buffer(messages: map<RoomId, seq<Message>>, roomId: RoomId): seq<Message> {
    if roomId in messages then messages[roomId] else []
  }

  /**
   * The intended append: every room id, an inherited name included, gets the message at the end of its
   * own buffer, and every other buffer is kept.
   */
  function PushCorrected(messages: map<RoomId, seq<Message>>, roomId: RoomId, m: Message): (r: map<RoomId, seq<Message>>)
    ensures r.Keys == messages.Keys + {roomId}
    ensures r[roomId] == Buffer(messages, roomId) + [m]
    ensures forall k | k in messages && k != roomId :: r[k] == messages[k]
  {
    messages[roomId := Buffer(messages, roomId) + [m]]
  }

  /**
   * The append as written: `roomId in messages` on the plain object also finds inherited names, whose
   * values have no `push`, so the call throws a `TypeError` (`None`). Wherever it does not throw it is
   * the intended append.
   */
  function PushAsWritten(messages: map<RoomId, seq<Message>>, roomId: RoomId, m: Message): (r: Option<map<RoomId, seq<Message>>>)
    ensures r.None? <==> roomId in InheritedNames && roomId !in messages
    ensures r.Some? ==> r.value == PushCorrected(messages, roomId, m)
  {
    if InPlainObject(roomId, messages.Keys) then
      if roomId in messages then Some(messages[roomId := messages[roomId] + [m]]) else None
    else
      assert [] + [m] == [m];
      Some(messages[roomId := [m]])
  }

  /**
   * A message for the room id `toString`, which no buffer has, makes the push throw as written, while
   * the intended append starts that room's buffer with it.
   */
  lemma InheritedRoomIdThrows(messages: map<RoomId, seq<Message>>, m: Message)
    requires "toString" !in messages
    ensures PushAsWritten(messages, "toString", m) == None
    ensures PushCorrected(messages, "toString", m)["toString"] == [m]
  {
    assert [] + [m] == [m];
  }

  /** The relay of `broker.clients.forEach`: to every client in order that is not the sender and is open. */
  function Fanout(clients: seq<ClientId>, readyState: map<ClientId, ReadyState>, sender: ClientId, m: Message): (sent: seq<Delivery>)
    requires forall c | c in clients :: c in readyState
    ensures forall d | d in sent :: d.message == m && d.to in clients && d.to != sender && readyState[d.to] == Open
    ensures forall c | c in clients && c != sender && readyState[c] == Open :: Delivery(c, m) in sent
    ensures |sent| <= |clients|
  {
    if clients == [] then []
    else
      var c := clients[|clients| - 1];
      Fanout(clients[..|clients| - 1], readyState, sender, m) +
      (if c != sender && readyState[c] == Open then [Delivery(c, m)] else [])
  }

  predicate Distinct<T(==)>(xs: seq<T>) {
    forall i, j | 0 <= i < j < |xs| :: xs[i] != xs[j]
  }

  /** No client appears twice among the recipients. */
  predicate DistinctRecipients(sent: seq<Delivery>) {
    forall i, j | 0 <= i < j < |sent| :: sent[i].to != sent[j].to
  }

  /** Distinct clients receive the message at most once each. */
  lemma {:induction false} FanoutOnce(clients: seq<ClientId>, readyState: map<ClientId, ReadyState>, sender: ClientId, m: Message)
    requires forall c | c in clients :: c in readyState
    requires Distinct(clients)
    ensures DistinctRecipients(Fanout(clients, readyState, sender, m))
  {
    if clients != [] {
      var init := clients[..|clients| - 1];
      var c := clients[|clients| - 1];
      assert forall k | 0 <= k < |init| :: init[k] == clients[k];
      assert c !in init;
      assert Distinct(init);
      FanoutOnce(init, readyState, sender, m);
      var prev := Fanout(init, readyState, sender, m);
      var sent := Fanout(clients, readyState, sender, m);
      var tail := if c != sender && readyState[c] == Open then [Delivery(c, m)] else [];
      assert sent == prev + tail;
      forall i, j | 0 <= i < j < |sent| ensures sent[i].to != sent[j].to {
        if j >= |prev| {
          assert sent[i] == prev[i];
          assert prev[i] in prev;
          assert prev[i].to in init;
          assert j == |prev| && |tail| == 1;
          assert sent[j] == tail[0] && sent[j].to == c;
        } else {
          assert sent[i] == prev[i] && sent[j] == prev[j];
        }
      }
    }
  }

  /** The listing entry `GET /chat` builds for a stored room. */
  function ListingOf(room: RoomEntry, messages: map<RoomId, seq<Message>>): (l: RoomListing)
    ensures l.id == room.id && l.name == room.name && l.image == room.image
    ensures l.messages.Some? <==> room.id in messages
    ensures room.id in messages ==> l.messages.value == messages[room.id]
  {
    RoomListing(room.id, room.name, room.image, if room.id in messages then Some(messages[room.id]) else None)
  }

  /** How many of the pending inserts are for `roomId`. */
  function Occurrences(pending: seq<RoomId>, roomId: RoomId): (n: nat)
    ensures n <= |pending|
  {
    if pending == [] then 0
    else Occurrences(pending[..|pending| - 1], roomId) + (if pending[|pending| - 1] == roomId then 1 else 0)
  }

  lemma {:induction false} OccurrencesAppend(a: seq<RoomId>, b: seq<RoomId>, roomId: RoomId)
    ensures Occurrences(a + b, roomId) == Occurrences(a, roomId) + Occurrences(b, roomId)
    decreases |b|
  {
    if b == [] {
      assert a + b == a;
    } else {
      assert (a + b)[..|a + b| - 1] == a + b[..|b| - 1];
      OccurrencesAppend(a, b[..|b| - 1], roomId);
    }
  }

  /** Taking out the pending insert at `k` lowers the count of its room by one and of no other. */
  lemma OccurrencesRemove(pending: seq<RoomId>, k: nat, roomId: RoomId)
    requires k < |pending|
    ensures Occurrences(pending, roomId) ==
              Occurrences(pending[..k] + pending[k + 1..], roomId) + (if pending[k] == roomId then 1 else 0)
  {
    var before, after := pending[..k], pending[k + 1..];
    assert pending == before + [pending[k]] + after;
    OccurrencesAppend(before + [pending[k]], after, roomId);
    OccurrencesAppend(before, [pending[k]], roomId);
    OccurrencesAppend(before, after, roomId);
    assert [pending[k]][..0] == [];
  }

  /** The blocks storage holds for a room, oldest first. */
  function Blocks(conversations: seq<Conversation>, roomId: RoomId): (blocks: seq<seq<Message>>)
    ensures |blocks| == |RoomConversations(conversations, roomId)|
    ensures forall i | 0 <= i < |blocks| :: blocks[i] == RoomConversations(conversations, roomId)[i].messages
  {
    var items := RoomConversations(conversations, roomId);
    seq(|items|, i requires 0 <= i < |items| => items[i].messages)
  }

  /** Storing one more conversation adds a block to its own room and to no other. */
  lemma BlocksSnoc(conversations: seq<Conversation>, c: Conversation, roomId: RoomId)
    ensures Blocks(conversations + [c], roomId) ==
              Blocks(conversations, roomId) + (if c.roomId == roomId then [c.messages] else [])
  {
    assert (conversations + [c])[..|conversations|] == conversations;
  }

  /** One room of the broker, read as the state of the flush policy. */
  function LogOf(messages: map<RoomId, seq<Message>>, pending: seq<RoomId>, conversations: seq<Conversation>, roomId: RoomId): Archive.RoomLog {
    Archive.RoomLog(Buffer(messages, roomId), Occurrences(pending, roomId), Blocks(conversations, roomId))
  }

  /**
   * The state change a handled message makes is the flush policy's `PostAsWritten` for the message's
   * room, and leaves every other room's policy state as it was.
   */
  lemma OnMessageFollowsPolicy(messages: map<RoomId, seq<Message>>, pending: seq<RoomId>,
                               conversations: seq<Conversation>, roomId: RoomId, now: int, m: Message)
    ensures var messages' := PushCorrected(messages, roomId, m);
            var full := |messages'[roomId]| >= Archive.MessageBlockSize;
            var pending' := if full then pending + [roomId] else pending;
            var conversations' := if full then conversations + [Conversation(roomId, now, messages'[roomId])] else conversations;
            && LogOf(messages', pending', conversations', roomId) ==
                 Archive.PostAsWritten(LogOf(messages, pending, conversations, roomId), m)
            && forall other | other != roomId ::
                 LogOf(messages', pending', conversations', other) == LogOf(messages, pending, conversations, other)
  {
    var c := Conversation(roomId, now, Buffer(messages, roomId) + [m]);
    BlocksSnoc(conversations, c, roomId);
    forall other | other != roomId {
      BlocksSnoc(conversations, c, other);
    }
    assert (pending + [roomId])[..|pending|] == pending;
  }

  /**
   * The state change a completed insert makes is the flush policy's `CompleteAsWritten` for its room, and
   * leaves every other room's policy state as it was.
   */
  lemma CompleteFlushFollowsPolicy(messages: map<RoomId, seq<Message>>, pending: seq<RoomId>,
                                   conversations: seq<Conversation>, k: nat)
    requires k < |pending|
    ensures var messages' := messages[pending[k] := []];
            var pending' := pending[..k] + pending[k + 1..];
            && LogOf(messages', pending', conversations, pending[k]) ==
                 Archive.CompleteAsWritten(LogOf(messages, pending, conversations, pending[k]))
            && forall other | other != pending[k] ::
                 LogOf(messages', pending', conversations, other) == LogOf(messages, pending, conversations, other)
  {
    OccurrencesRemove(pending, k, pending[k]);
    forall other | other != pending[k] {
      OccurrencesRemove(pending, k, other);
    }
  }

  /** The WebSocket broker with the state `server.js` keeps at module level. */
  class Broker {
    const sessionManager: SessionManager
    const db: Database
    /** `messages`: each room's buffer of messages not yet handed to storage. */
    var messages: map<RoomId, seq<Message>>
    /** `broker.clients`, in iteration order. */
    var clients: seq<ClientId>
    /** The `readyState` of each client socket. */
    var readyState: map<ClientId, ReadyState>
    /** The clients with a registered message handler, and the cookie value the handler captured. */
    var handlers: map<ClientId, Option<string>>
    /** Rooms whose `addConversation` has been submitted and has not completed, oldest first. */
    var pending: seq<RoomId>

    ghost predicate Valid()
      reads this
    {
      && Distinct(clients)
      && (forall c | c in clients :: c in readyState)
      && (forall c | c in handlers :: c in clients)
    }

    /** Start-up: every stored room gets an empty buffer. */
    constructor (sessionManager: SessionManager, db: Database)
      ensures Valid()
      ensures this.sessionManager == sessionManager && this.db == db
      ensures forall r | r in db.rooms :: r.id in messages && messages[r.id] == []
      ensures forall id | id in messages :: exists r | r in db.rooms :: r.id == id
      ensures clients == [] && handlers == map[] && pending == []
    {
      this.sessionManager := sessionManager;
      this.db := db;
      var buffers: map<RoomId, seq<Message>> := map[];
      var rooms := db.rooms;
      for i := 0 to |rooms|
        invariant forall j | 0 <= j < i :: rooms[j].id in buffers && buffers[rooms[j].id] == []
        invariant forall id | id in buffers :: exists j | 0 <= j < i :: rooms[j].id == id
      {
        buffers := buffers[rooms[i].id := []];
      }
      messages := buffers;
      clients := [];
      readyState := map[];
      handlers := map[];
      pending := [];
    }

    /**
     * `broker.on("connection")`: a connection whose cookie header names a live session gets a message
     * handler bound to that cookie value and joins the open clients; any other is closed.
     */
    method OnConnection(client: ClientId, cookieHeader: Option<string>) returns (admitted: bool)
      requires Valid() && client !in clients
      modifies this
      ensures Valid()
      ensures admitted <==> Admits(cookieHeader, sessionManager.sessions)
      ensures admitted ==> clients == old(clients) + [client] && readyState == old(readyState)[client := Open] &&
                           handlers == old(handlers)[client := HandshakeToken(cookieHeader.value)]
      ensures !admitted ==> clients == old(clients) && readyState == old(readyState) && handlers == old(handlers)
      ensures messages == old(messages) && pending == old(pending)
    {
      admitted := false;
      if !Falsy(cookieHeader) {
        var cookie := HandshakeToken(cookieHeader.value);
        if sessionManager.IsValidSession(PropertyKey(cookie)) {
          clients := clients + [client];
          readyState := readyState[client := Open];
          handlers := handlers[client := cookie];
          admitted := true;
        }
      }
    }

    /** The transport changing a socket's ready state (opening, closing, closed). */
    method SetReadyState(client: ClientId, state: ReadyState)
      requires Valid() && client in clients
      modifies this
      ensures Valid()
      ensures readyState == old(readyState)[client := state]
      ensures clients == old(clients) && handlers == old(handlers) && messages == old(messages) && pending == old(pending)
    {
      readyState := readyState[client := state];
    }

    /**
     * The message handler of an admitted connection: the sanitized message, signed with the current owner
     * of the captured cookie, is appended to its room's buffer and relayed to every other open client; a
     * buffer of at least `MessageBlockSize` messages is submitted to storage as one conversation. A room id
     * naming an inherited property that has no buffer makes the append throw (`ok` false): then nothing
     * changes and nothing is sent. Each room moves as the flush policy `Archive.PostAsWritten` says.
     */
    method OnMessage(sender: ClientId, roomId: RoomId, text: string, now: int) returns (sent: seq<Delivery>, ok: bool)
      requires Valid() && sender in handlers
      modifies this, db
      ensures clients == old(clients) && readyState == old(readyState) && handlers == old(handlers)
      ensures Valid()
      ensures db.rooms == old(db.rooms)
      ensures ok <==> !(roomId in InheritedNames && roomId !in old(messages))
      ensures !ok ==> messages == old(messages) && sent == [] &&
                      db.conversations == old(db.conversations) && pending == old(pending)
      ensures ok ==>
                var m := Message(sessionManager.GetUsername(PropertyKey(handlers[sender])), Sanitize(text));
                && messages == PushCorrected(old(messages), roomId, m)
                && sent == Fanout(clients, readyState, sender, m)
                && LogOf(messages, pending, db.conversations, roomId) ==
                     Archive.PostAsWritten(old(LogOf(messages, pending, db.conversations, roomId)), m)
      ensures ok && |messages[roomId]| >= Archive.MessageBlockSize ==>
                db.conversations == old(db.conversations) + [Conversation(roomId, now, messages[roomId])] &&
                pending == old(pending) + [roomId]
      ensures ok && |messages[roomId]| < Archive.MessageBlockSize ==>
                db.conversations == old(db.conversations) && pending == old(pending)
    {
      ghost var messages0, pending0, conversations0 := messages, pending, db.conversations;
      var username := sessionManager.GetUsername(PropertyKey(handlers[sender]));
      var m := Message(username, Sanitize(text));
      ok := Append(roomId, m);
      if !ok {
        sent := [];
        return;
      }
      sent := Relay(sender, m);
      Submit(roomId, now);
      OnMessageFollowsPolicy(messages0, pending0, conversations0, roomId, now, m);
    }

    /**
     * `msg.roomId in messages ? messages[msg.roomId].push(m) : messages[msg.roomId] = [m]`, with `in`
     * as written: an inherited name without a buffer of its own makes `push` throw, and nothing changes.
     */
    method Append(roomId: RoomId, m: Message) returns (ok: bool)
      modifies this
      ensures ok <==> PushAsWritten(old(messages), roomId, m).Some?
      ensures ok ==> messages == PushAsWritten(old(messages), roomId, m).value
      ensures !ok ==> messages == old(messages)
      ensures clients == old(clients) && readyState == old(readyState) && handlers == old(handlers)
      ensures pending == old(pending)
    {
      if InPlainObject(roomId, messages.Keys) {
        if roomId in messages {
          messages := messages[roomId := messages[roomId] + [m]];
          ok := true;
        } else {
          ok := false;
        }
      } else {
        messages := messages[roomId := [m]];
        ok := true;
      }
    }

    /** A buffer of at least `MessageBlockSize` messages goes to storage as one conversation; the buffer stays. */
    method Submit(roomId: RoomId, now: int)
      requires roomId in messages
      modifies this, db
      ensures messages == old(messages)
      ensures |messages[roomId]| >= Archive.MessageBlockSize ==>
                db.conversations == old(db.conversations) + [Conversation(roomId, now, messages[roomId])] &&
                pending == old(pending) + [roomId]
      ensures |messages[roomId]| < Archive.MessageBlockSize ==>
                db.conversations == old(db.conversations) && pending == old(pending)
      ensures db.rooms == old(db.rooms)
      ensures clients == old(clients) && readyState == old(readyState) && handlers == old(handlers)
    {
      if |messages[roomId]| >= Archive.MessageBlockSize {
        var conversation := ConversationDoc(Some(roomId), Some(now), Some(messages[roomId]));
        assert MissingField(conversation) == None;
        var _ := db.AddConversation(conversation);
        pending := pending + [roomId];
      }
    }

    /** The `broker.clients.forEach` loop: send to every client that is not the sender and is open. */
    method Relay(sender: ClientId, m: Message) returns (sent: seq<Delivery>)
      requires Valid()
      ensures sent == Fanout(clients, readyState, sender, m)
      ensures forall d | d in sent :: d.message == m && d.to in clients && d.to != sender && readyState[d.to] == Open
      ensures forall c | c in clients && c != sender && readyState[c] == Open :: Delivery(c, m) in sent
      ensures DistinctRecipients(sent)
    {
      sent := [];
      for i := 0 to |clients|
        invariant sent == Fanout(clients[..i], readyState, sender, m)
      {
        assert clients[..i + 1][..i] == clients[..i];
        var c := clients[i];
        if c != sender && readyState[c] == Open {
          sent := sent + [Delivery(c, m)];
        }
      }
      assert clients[..|clients|] == clients;
      FanoutOnce(clients, readyState, sender, m);
    }

    /** An `addConversation` submitted for a room completes: that room's buffer is emptied, whatever it holds now. */
    method CompleteFlush(k: nat)
      requires Valid() && k < |pending|
      modifies this
      ensures Valid()
      ensures messages == old(messages)[old(pending)[k] := []]
      ensures pending == old(pending)[..k] + old(pending)[k + 1..]
      ensures clients == old(clients) && readyState == old(readyState) && handlers == old(handlers)
      ensures LogOf(messages, pending, db.conversations, old(pending)[k]) ==
                Archive.CompleteAsWritten(old(LogOf(messages, pending, db.conversations, pending[k])))
      ensures forall other | other != old(pending)[k] ::
                LogOf(messages, pending, db.conversations, other) == old(LogOf(messages, pending, db.conversations, other))
    {
      CompleteFlushFollowsPolicy(messages, pending, db.conversations, k);
      messages := messages[pending[k] := []];
      pending := pending[..k] + pending[k + 1..];
    }

    /** `GET /chat`: every stored room, in storage order, with its current buffer. */
    method ListRooms() returns (ret: seq<RoomListing>)
      ensures |ret| == |db.rooms|
      ensures forall i | 0 <= i < |ret| :: ret[i] == ListingOf(db.rooms[i], messages)
    {
      ret := [];
      var rooms := db.rooms;
      for i := 0 to |rooms|
        invariant |ret| == i
        invariant forall j | 0 <= j < i :: ret[j] == ListingOf(rooms[j], messages)
      {
        ret := ret + [ListingOf(rooms[i], messages)];
      }
    }

    /**
     * `POST /chat`: a body without `name` is refused with 400 and changes nothing; otherwise the room
     * `{name, image}` is stored and gets an empty buffer.
     */
    method CreateRoom(data: Option<RoomRequest>, newId: RoomId) returns (reply: Reply)
      modifies this, db
      ensures reply.BadRequest? <==> data.None? || data.value.name.None?
      ensures reply.BadRequest? ==> db.rooms == old(db.rooms) && messages == old(messages)
      ensures !reply.BadRequest? ==>
                reply == Created(RoomEntry(newId, data.value.name, data.value.image)) &&
                db.rooms == old(db.rooms) + [reply.room] &&
                messages == old(messages)[newId := []]
      ensures db.conversations == old(db.conversations)
      ensures clients == old(clients) && readyState == old(readyState) && handlers == old(handlers) && pending == old(pending)
    {
      if data.Some? && data.value.name.Some? {
        var result := db.AddRoom(RoomDoc(data.value.name, data.value.image, None), newId);
        if result.Ok? {
          messages := messages[result.value.id := []];
          reply := Created(result.value);
        } else {
          reply := NoReply;
        }
      } else {
        reply := BadRequest;
      }
    }
  }
}
