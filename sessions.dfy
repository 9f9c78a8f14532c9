/**
 * The session store of `SessionManager.js`: a table from session token to `{username, timestamp}`,
 * the operations that fill and empty it, and the cookie-checking Express middleware.
 * The random token is a value the caller supplies; the expiry timer is the explicit `Expire` step.
 */
module Sessions {
  import opened Types
  import opened JsText

  /** Default session length in milliseconds. */
  const CookieMaxAgeMs: int := 600000

  /** Name of the cookie that carries the token. */
  const CookieName: string := "cpen322-session"

  type Token = string

  /** `crypto.randomBytes(64).toString('hex')`: 128 lower-case hexadecimal digits. */
  predicate IsToken(t: string) {
    |t| == 128 && forall i | 0 <= i < |t| :: ('0' <= t[i] <= '9') || ('a' <= t[i] <= 'f')
  }

  datatype Session = Session(username: string, timestamp: int)

  /** The cookie `createSession` sets on the response. */
  datatype Cookie = Cookie(name: string, value: Token, maxAge: int)

  /** The errors the Express pipeline tells apart: a `SessionError`, and anything else. */
  datatype Failure = SessionError | OtherError

  /** One call of Express's `next`: `next()` or `next(error)`. */
  datatype Next = Proceed | Fail(error: Failure)

  /** The part of an HTTP request the session code reads and writes. */
  class Request {
    /** `request.headers.cookie`. */
    const cookieHeader: Option<string>
    /** `request.headers.accept`. */
    const accept: Option<string>
    /** `request.username`, stamped by the middleware. */
    var username: Option<string>
    /** `request.session`, stamped by the middleware. */
    var session: Option<string>

    constructor (cookieHeader: Option<string>, accept: Option<string>)
      ensures this.cookieHeader == cookieHeader && this.accept == accept
      ensures username == None && session == None
    {
      this.cookieHeader := cookieHeader;
      this.accept := accept;
      username := None;
      session := None;
    }
  }

  /** The value of one `name=value` cookie: the text between its first and second `=`, undefined without `=`. */
  function CookieValue(cookie: string): Option<string> {
    Nth(Split(cookie, "="), 1)
  }

  /** The values the middleware looks at, one per `"; "`-separated cookie of the header, in order. */
  function CookieValues(header: string): (values: seq<Option<string>>)
    ensures |values| == |Split(header, "; ")| >= 1
  {
    var cookies := Split(header, "; ");
    seq(|cookies|, i requires 0 <= i < |cookies| => CookieValue(cookies[i]))
  }

  /** How many leading values name a live session: the middleware stops at the first one that does not. */
  function LiveRun(values: seq<Option<string>>, sessions: map<Token, Session>): (n: nat)
    ensures n <= |values|
    ensures forall j | 0 <= j < n :: PropertyKey(values[j]) in sessions
    ensures n < |values| ==> PropertyKey(values[n]) !in sessions
  {
    if values == [] || PropertyKey(values[0]) !in sessions then 0
    else 1 + LiveRun(values[1..], sessions)
  }

  /** The arguments of the successive `next` calls the middleware makes for a cookie header. */
  function NextCalls(header: Option<string>, sessions: map<Token, Session>): (calls: seq<Next>)
    ensures |calls| >= 1
    ensures Falsy(header) ==> calls == [Fail(SessionError)]
    ensures calls[0] == Proceed <==>
              !Falsy(header) && PropertyKey(CookieValues(header.value)[0]) in sessions
    ensures forall i | 0 <= i < |calls| - 1 :: calls[i] == Proceed
    ensures forall i | 0 <= i < |calls| :: calls[i] == Proceed || calls[i] == Fail(SessionError)
  {
    if Falsy(header) then [Fail(SessionError)]
    else
      var values := CookieValues(header.value);
      var n := LiveRun(values, sessions);
      seq(n, _ => Proceed) + (if n < |values| then [Fail(SessionError)] else [])
  }

  /** The cookie value whose session the middleware stamps on the request last, if any. */
  function Stamped(header: Option<string>, sessions: map<Token, Session>): (v: Option<Option<string>>)
    ensures v.Some? ==> !Falsy(header) && PropertyKey(v.value) in sessions
  {
    if Falsy(header) then None
    else
      var values := CookieValues(header.value);
      var n := LiveRun(values, sessions);
      if n == 0 then None else Some(values[n - 1])
  }

  class SessionManager {
    /** The session table, keyed by token. */
    var sessions: map<Token, Session>

    /** Every key is a token `createSession` could have issued. */
    ghost predicate Valid()
      reads this
    {
      forall t | t in sessions :: IsToken(t)
    }

    constructor ()
      ensures Valid() && sessions == map[]
    {
      sessions := map[];
    }

    /**
     * `getIsValidSession`: the token is one of the table's own keys. In a valid table a live token is
     * one `createSession` could have issued, never a name objects inherit.
     */
    predicate IsValidSession(token: string): (live: bool)
      reads this
      ensures live && Valid() ==> IsToken(token) && token !in InheritedNames
    {
      token in sessions
    }

    /** `getUsername`: the owner of a live token, null for any other. */
    function GetUsername(token: string): (u: Option<string>)
      reads this
      ensures u.Some? <==> IsValidSession(token)
      ensures u.Some? ==> u.value == sessions[token].username
    {
      if token in sessions then Some(sessions[token].username) else None
    }

    /** `createSession`: records the session under the fresh token and returns the cookie to set. */
    method CreateSession(token: Token, username: string, now: int, maxAge: Option<int>) returns (cookie: Cookie)
      requires Valid() && IsToken(token) && token !in sessions
      modifies this
      ensures Valid()
      ensures sessions == old(sessions)[token := Session(username, now)]
      ensures IsValidSession(token) && GetUsername(token) == Some(username)
      ensures forall t | t != token :: GetUsername(t) == old(GetUsername(t))
      ensures cookie == Cookie(CookieName, token, if maxAge.Some? then maxAge.value else CookieMaxAgeMs)
    {
      sessions := sessions[token := Session(username, now)];
      cookie := Cookie(CookieName, token, if maxAge.Some? then maxAge.value else CookieMaxAgeMs);
    }

    /** The expiry timer of a session firing: its token leaves the table; a token already gone is a no-op. */
    method Expire(token: Token)
      requires Valid()
      modifies this
      ensures Valid()
      ensures sessions == old(sessions) - {token}
      ensures !IsValidSession(token) && GetUsername(token) == None
      ensures token !in old(sessions) ==> sessions == old(sessions)
    {
      sessions := sessions - {token};
    }

    /** `deleteSession`: drops the request's session and un-stamps the request. */
    method DeleteSession(request: Request)
      requires Valid()
      modifies this, request
      ensures Valid()
      ensures sessions == old(sessions) - {PropertyKey(old(request.session))}
      ensures request.username == None && request.session == None
    {
      request.username := None;
      sessions := sessions - {PropertyKey(request.session)};
      request.session := None;
    }

    /**
     * `middleware`: with no cookie header, one `next(SessionError)`. Otherwise the cookies are visited in
     * order; each whose value is a live token stamps the request and calls `next()`, and the first that is
     * not calls `next(SessionError)` and ends the visit.
     */
    method Middleware(request: Request) returns (calls: seq<Next>)
      modifies request
      ensures calls == NextCalls(request.cookieHeader, sessions)
      ensures Stamped(request.cookieHeader, sessions).None? ==>
                request.username == old(request.username) && request.session == old(request.session)
      ensures Stamped(request.cookieHeader, sessions).Some? ==>
                var v := Stamped(request.cookieHeader, sessions).value;
                request.session == v && request.username == GetUsername(PropertyKey(v))
    {
      if Falsy(request.cookieHeader) {
        calls := [Fail(SessionError)];
        return;
      }
      var cookieHeader := request.cookieHeader.value;
      var cookies := Split(cookieHeader, "; ");
      ghost var values := CookieValues(cookieHeader);
      calls := [];
      var i := 0;
      while i < |cookies|
        invariant 0 <= i <= |cookies|
        invariant |calls| == i && forall j | 0 <= j < i :: calls[j] == Proceed
        invariant forall j | 0 <= j < i :: PropertyKey(values[j]) in sessions
        invariant i == 0 ==> request.username == old(request.username) && request.session == old(request.session)
        invariant i > 0 ==> request.session == values[i - 1] && request.username == GetUsername(PropertyKey(values[i - 1]))
      {
        var cookie := CookieValue(cookies[i]);
        assert values[i] == cookie;
        if IsValidSession(PropertyKey(cookie)) {
          request.username := GetUsername(PropertyKey(cookie));
          request.session := cookie;
          calls := calls + [Proceed];
        } else {
          calls := calls + [Fail(SessionError)];
          assert LiveRun(values, sessions) == i;
          return;
        }
        i := i + 1;
      }
      assert LiveRun(values, sessions) == |values|;
    }
  }

  /**
   * `getIsValidSession` as written: `token in sessions` on a plain object is also true for the names
   * every object inherits, such as `toString`.
   */
  predicate IsValidSessionAsWritten(token: string, sessions: map<Token, Session>): (live: bool)
    ensures token in InheritedNames ==> live
    ensures token !in InheritedNames ==> (live <==> token in sessions)
    ensures live && (forall t | t in sessions :: IsToken(t)) && !IsToken(token) ==> token in InheritedNames
  {
    InPlainObject(token, sessions.Keys)
  }

  /** The cookie a session is issued with, as the browser sends it back on its own. */
  function CookieHeader(token: Token): string {
    CookieName + "=" + token
  }

  lemma TokenAvoids(token: Token, sep: string)
    requires IsToken(token) && |sep| > 0 && (sep[0] == '=' || sep[0] == ';')
    ensures Avoids(token, sep)
  {
  }

  /** A header holding a single `name=value` cookie, neither part holding `=` or `;`, yields just that value. */
  lemma SingleCookie(name: string, value: string)
    requires Avoids(name, "=") && Avoids(name, ";") && Avoids(value, "=") && Avoids(value, ";")
    ensures CookieValues(name + "=" + value) == [Some(value)]
  {
    var header := name + "=" + value;
    assert Avoids(header, "; ") by {
      forall i | 0 <= i < |header| ensures header[i] != ';' {
        if i < |name| { assert header[i] == name[i]; }
        else if i > |name| { assert header[i] == value[i - |name| - 1]; }
      }
    }
    SplitPlain(header, "; ");
    SplitCut(name, "=", value);
    SplitPlain(value, "=");
  }

  /** The cookie header of a freshly issued session passes the middleware, and only while the session lives. */
  lemma MiddlewareAcceptsIssuedCookie(token: Token, sessions: map<Token, Session>)
    requires IsToken(token)
    ensures NextCalls(Some(CookieHeader(token)), sessions) ==
              if token in sessions then [Proceed] else [Fail(SessionError)]
    ensures token in sessions ==> Stamped(Some(CookieHeader(token)), sessions) == Some(Some(token))
  {
    TokenAvoids(token, "=");
    TokenAvoids(token, ";");
    assert Avoids(CookieName, "=") && Avoids(CookieName, ";");
    SingleCookie(CookieName, token);
  }

  /** No key of a valid table is the string "undefined", so a cookie without `=` is never accepted. */
  lemma UndefinedNeverLive(sessions: map<Token, Session>)
    requires forall t | t in sessions :: IsToken(t)
    ensures PropertyKey(None) !in sessions
  {
  }
}
