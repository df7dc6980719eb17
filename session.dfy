/**
 * Sessions as the handlers see them: the `Cookie` header is parsed by hand, the
 * `session_token` cookie names a record in the store, and logging in or out sets the
 * `Set-Cookie` header of a response. The header text, the clock and the random token
 * bytes are parameters.
 */
module Session {
  import opened Wrappers
  import opened Text
  import opened Store
  import opened Http
  import Crypto
  import Database

  const SessionCookieName: string := "session_token"
  /** The cookie's `Max-Age`, in seconds: one day, as the store's session lifetime. */
  const CookieMaxAge: nat := 24 * 60 * 60

  /** A value that JavaScript treats as true: present and not empty. */
  predicate Truthy(s: Option<string>) {
    s.Some? && s.value != ""
  }

  // -------------------------------------------------------------------------------
  // Parsing the Cookie header

  /** One cookie: its name and, when the part had a `=`, its value. */
  datatype Cookie = Cookie(name: string, value: Option<string>)

  /**
   * One `;`-separated part of the header: trimmed, split on `=`, the first piece the
   * name and the second the value; pieces after a second `=` are dropped.
   */
  function ParseCookie(part: string): (c: Cookie)
    ensures '=' !in c.name && c.name <= Trim(part)
    ensures c.value.None? <==> '=' !in Trim(part)
    ensures c.value.Some? ==> '=' !in c.value.value
  {
    var text := Trim(part);
    var pieces := Split(text, '=');
    SplitWithoutSeparator(text, '=');
    SplitJoin(text, '=');
    assert |pieces| == 1 ==> pieces == [pieces[0]];
    Cookie(pieces[0], if |pieces| >= 2 then Some(pieces[1]) else None)
  }

  /** A `name=value` part with nothing around it parses to that name and value. */
  lemma CookiePairParses(name: string, value: string)
    requires '=' !in name && '=' !in value
    requires Trim(name + "=" + value) == name + "=" + value
    ensures ParseCookie(name + "=" + value) == Cookie(name, Some(value))
  {
    SplitAtFirst(name, value, '=');
    SplitWithoutSeparator(value, '=');
  }

  /** Text after a second `=` is not part of the value. */
  lemma CookieValueStopsAtEquals(name: string, value: string, rest: string)
    requires '=' !in name && '=' !in value
    requires Trim(name + "=" + value + "=" + rest) == name + "=" + value + "=" + rest
    ensures ParseCookie(name + "=" + value + "=" + rest) == Cookie(name, Some(value))
  {
    assert name + "=" + value + "=" + rest == name + "=" + (value + "=" + rest);
    SplitAtFirst(name, value + "=" + rest, '=');
    SplitAtFirst(value, rest, '=');
  }

  /**
   * The `reduce` over the parts: each part sets its name to its value, so a later
   * cookie with the same name replaces an earlier one.
   */
  function CookieJar(parts: seq<string>): (jar: map<string, Option<string>>)
    ensures forall j :: 0 <= j < |parts| ==> ParseCookie(parts[j]).name in jar
    ensures forall name :: name in jar ==> '=' !in name
    decreases |parts|
  {
    if parts == [] then map[]
    else
      var c := ParseCookie(parts[|parts| - 1]);
      CookieJar(parts[..|parts| - 1])[c.name := c.value]
  }

  /** A name no part carries is not in the jar. */
  lemma {:induction false} AbsentCookie(parts: seq<string>, name: string)
    requires forall j :: 0 <= j < |parts| ==> ParseCookie(parts[j]).name != name
    ensures name !in CookieJar(parts)
    decreases |parts|
  {
    if parts != [] {
      var init := parts[..|parts| - 1];
      forall j | 0 <= j < |init| ensures ParseCookie(init[j]).name != name {
        assert init[j] == parts[j];
      }
      AbsentCookie(init, name);
    }
  }

  /** The value a name ends with is the one its last part gave it. */
  lemma {:induction false} LastCookieWins(parts: seq<string>, i: nat)
    requires i < |parts|
    requires forall j :: i < j < |parts| ==> ParseCookie(parts[j]).name != ParseCookie(parts[i]).name
    ensures ParseCookie(parts[i]).name in CookieJar(parts)
    ensures CookieJar(parts)[ParseCookie(parts[i]).name] == ParseCookie(parts[i]).value
    decreases |parts|
  {
    if i < |parts| - 1 {
      var init := parts[..|parts| - 1];
      assert init[i] == parts[i];
      forall j | i < j < |init| ensures ParseCookie(init[j]).name != ParseCookie(init[i]).name {
        assert init[j] == parts[j];
      }
      LastCookieWins(init, i);
    }
  }

  /**
   * `getSessionFromRequest`: the value of the `session_token` cookie, or nothing when
   * there is no header, no such cookie, or its value is missing or empty.
   */
  function GetSessionFromRequest(cookieHeader: Option<string>): (token: Option<string>)
    ensures !Truthy(cookieHeader) ==> token.None?
    ensures token.Some? ==> token.value != ""
  {
    match cookieHeader
    case None => None
    case Some(header) =>
      if header == "" then None
      else
        var jar := CookieJar(Split(header, ';'));
        if SessionCookieName in jar && Truthy(jar[SessionCookieName]) then jar[SessionCookieName]
        else None
  }

  /** When the last part named `session_token` has a non-empty value, that value is the token. */
  lemma SessionTokenIsLastCookie(header: string, i: nat)
    requires header != ""
    requires i < |Split(header, ';')| && ParseCookie(Split(header, ';')[i]).name == SessionCookieName
    requires forall j :: i < j < |Split(header, ';')| ==> ParseCookie(Split(header, ';')[j]).name != SessionCookieName
    ensures var v := ParseCookie(Split(header, ';')[i]).value;
      GetSessionFromRequest(Some(header)) == if Truthy(v) then v else None
  {
    LastCookieWins(Split(header, ';'), i);
  }

  /** A header with no part named `session_token` yields no token. */
  lemma NoSessionCookie(header: string)
    requires forall j :: 0 <= j < |Split(header, ';')| ==> ParseCookie(Split(header, ';')[j]).name != SessionCookieName
    ensures GetSessionFromRequest(Some(header)).None?
  {
    AbsentCookie(Split(header, ';'), SessionCookieName);
  }

  // -------------------------------------------------------------------------------
  // Set-Cookie values

  /** The `name=value` pair a browser sends back for the cookie. */
  function CookiePair(token: string): string {
    SessionCookieName + "=" + token
  }

  /** The cookie set at login. */
  function SessionCookie(token: string): (header: string)
    ensures CookiePair(token) <= header
  {
    CookiePair(token) + "; Path=/; HttpOnly; SameSite=Lax; Max-Age=" + NatToString(CookieMaxAge)
  }

  /** The cookie set at logout: an empty value that expires at once. */
  const ClearedCookie: string := SessionCookieName + "=; Path=/; HttpOnly; SameSite=Lax; Max-Age=0"

  /**
   * A header that is exactly the pair `session_token=v`, with `v` free of `;` and `=`
   * and not ending in white space, names `v`, or nothing when `v` is empty.
   */
  lemma PairNamesValue(v: string)
    requires ';' !in v && '=' !in v
    requires v != [] ==> !IsJsWhitespace(v[|v| - 1])
    ensures GetSessionFromRequest(Some(CookiePair(v))) == if v == [] then None else Some(v)
  {
    PairIsOneCookie(v);
    LastCookieWins([CookiePair(v)], 0);
  }

  /** The pair is a single part, and it parses to the session cookie with value `v`. */
  lemma PairIsOneCookie(v: string)
    requires ';' !in v && '=' !in v
    requires v != [] ==> !IsJsWhitespace(v[|v| - 1])
    ensures Split(CookiePair(v), ';') == [CookiePair(v)]
    ensures ParseCookie(CookiePair(v)) == Cookie(SessionCookieName, Some(v))
  {
    var header := CookiePair(v);
    assert ';' !in SessionCookieName && '=' !in SessionCookieName;
    assert ';' !in header by {
      forall k | 0 <= k < |header| ensures header[k] != ';' {
        if k < |SessionCookieName| {
          assert header[k] == SessionCookieName[k];
        } else if k > |SessionCookieName| {
          assert header[k] == v[k - |SessionCookieName| - 1];
        }
      }
    }
    SplitWithoutSeparator(header, ';');
    assert header[0] == 's';
    assert header[|header| - 1] == if v == [] then '=' else v[|v| - 1];
    TrimUnchanged(header);
    CookiePairParses(SessionCookieName, v);
  }

  /** The pair of the login cookie, sent back, names the token that was issued. */
  lemma SessionCookieRoundTrip(random: seq<Crypto.byte>)
    requires |random| == Crypto.TokenBytes
    ensures GetSessionFromRequest(Some(CookiePair(Crypto.SessionToken(random)))) == Some(Crypto.SessionToken(random))
  {
    var token := Crypto.SessionToken(random);
    Crypto.SessionTokenLength(random);
    Crypto.SessionTokenAlphabet(random);
    assert ';' !in token by {
      forall k | 0 <= k < |token| ensures token[k] != ';' {
        assert Crypto.IsUrlSafeChar(token[k]);
      }
    }
    assert Crypto.IsUrlSafeChar(token[|token| - 1]);
    PairNamesValue(token);
  }

  /** The pair of the logout cookie names no session. */
  lemma ClearedCookieHasNoSession()
    ensures GetSessionFromRequest(Some(CookiePair(""))).None?
  {
    PairNamesValue("");
  }

  // -------------------------------------------------------------------------------
  // Resolving, issuing and revoking sessions

  /**
   * Who a request with this `Cookie` header is, against these session records at `now`:
   * no one without a token or without a record for it; otherwise the user of the first
   * record for the token, exactly when that record has not expired before `now`.
   */
  function ResolveUser(sessions: seq<SessionRecord>, cookieHeader: Option<string>, now: int): (userId: Option<string>)
    ensures GetSessionFromRequest(cookieHeader).None? ==> userId.None?
    ensures GetSessionFromRequest(cookieHeader).Some? ==>
      var token := GetSessionFromRequest(cookieHeader).value;
      (SessionIndex(sessions, token).None? ==> userId.None?) &&
      (SessionIndex(sessions, token).Some? ==>
         var s := sessions[SessionIndex(sessions, token).value];
         (userId.Some? <==> now <= s.expires) && (userId.Some? ==> userId.value == s.userId))
  {
    match GetSessionFromRequest(cookieHeader)
    case None => None
    case Some(token) =>
      match LookupSession(sessions, token, now)
      case None => None
      case Some(session) => Some(session.userId)
  }

  /**
   * The session records after a request has been looked up: when the first record for
   * its token has expired, that record is gone; nothing else changes.
   */
  function SessionsAfterLookup(sessions: seq<SessionRecord>, cookieHeader: Option<string>, now: int)
    : (after: seq<SessionRecord>)
    ensures |after| <= |sessions| <= |after| + 1
    ensures ResolveUser(sessions, cookieHeader, now).Some? ==> after == sessions
    ensures GetSessionFromRequest(cookieHeader).None? ==> after == sessions
  {
    match GetSessionFromRequest(cookieHeader)
    case None => sessions
    case Some(token) =>
      if SessionIndex(sessions, token).Some? && LookupSession(sessions, token, now).None?
      then RemoveSession(sessions, token) else sessions
  }

  /**
   * `getCurrentUser`: the user of the request's session, if it has one that has not
   * expired; looking it up deletes an expired record.
   */
  method GetCurrentUser(db: Database.MongoDatabase, cookieHeader: Option<string>, now: int) returns (userId: Option<string>)
    modifies db`sessions
    ensures userId == ResolveUser(old(db.sessions), cookieHeader, now)
    ensures db.sessions == SessionsAfterLookup(old(db.sessions), cookieHeader, now)
  {
    var token := GetSessionFromRequest(cookieHeader);
    if token.None? {
      return None;
    }
    var session := db.GetSession(token.value, now);
    if session.None? {
      return None;
    }
    return Some(session.value.userId);
  }

  /**
   * `createSessionResponse`: a new token from the random bytes is stored for the user
   * and set as a cookie on the response; status and body are kept.
   */
  method CreateSessionResponse(db: Database.MongoDatabase, userId: string, response: Response,
                               random: seq<Crypto.byte>, now: int) returns (r: Response)
    requires |random| == Crypto.TokenBytes
    modifies db`sessions
    ensures db.sessions == old(db.sessions) + [SessionRecord(Crypto.SessionToken(random), userId, now + SessionLifetime)]
    ensures r == response.(setCookie := Some(SessionCookie(Crypto.SessionToken(random))))
    ensures SessionIndex(old(db.sessions), Crypto.SessionToken(random)).None? ==>
      ResolveUser(db.sessions, Some(CookiePair(Crypto.SessionToken(random))), now) == Some(userId)
  {
    var token := Crypto.SessionToken(random);
    db.CreateSession(userId, token, now);
    r := response.(setCookie := Some(SessionCookie(token)));
    SessionCookieRoundTrip(random);
    if SessionIndex(old(db.sessions), token).None? {
      IssuedSessionLifetime(old(db.sessions), token, userId, now, now);
    }
  }

  /**
   * `destroySessionResponse`: the request's session, if it names one, is deleted; the
   * response always gets the cleared cookie.
   */
  method DestroySessionResponse(db: Database.MongoDatabase, cookieHeader: Option<string>, response: Response)
    returns (r: Response)
    modifies db`sessions
    ensures GetSessionFromRequest(cookieHeader).None? ==> db.sessions == old(db.sessions)
    ensures GetSessionFromRequest(cookieHeader).Some? ==>
      db.sessions == RemoveSession(old(db.sessions), GetSessionFromRequest(cookieHeader).value)
    ensures r == response.(setCookie := Some(ClearedCookie))
  {
    var token := GetSessionFromRequest(cookieHeader);
    if token.Some? {
      db.DeleteSession(token.value);
    }
    r := response.(setCookie := Some(ClearedCookie));
  }

  /** With one record per token, a request whose session was destroyed is no one afterwards. */
  lemma DestroyedSessionResolvesToNoOne(sessions: seq<SessionRecord>, cookieHeader: Option<string>, now: int)
    requires forall i, j :: 0 <= i < j < |sessions| ==> sessions[i].token != sessions[j].token
    requires GetSessionFromRequest(cookieHeader).Some?
    ensures ResolveUser(RemoveSession(sessions, GetSessionFromRequest(cookieHeader).value), cookieHeader, now).None?
  {
    RemoveThenLookup(sessions, GetSessionFromRequest(cookieHeader).value, now);
  }

  /** A session a user logged in with is honoured for exactly a day, through the cookie. */
  lemma LoginCookieLifetime(sessions: seq<SessionRecord>, userId: string, random: seq<Crypto.byte>,
                            issuedAt: int, now: int)
    requires |random| == Crypto.TokenBytes
    requires SessionIndex(sessions, Crypto.SessionToken(random)).None?
    ensures var after := sessions + [SessionRecord(Crypto.SessionToken(random), userId, issuedAt + SessionLifetime)];
      var user := ResolveUser(after, Some(CookiePair(Crypto.SessionToken(random))), now);
      (now <= issuedAt + SessionLifetime ==> user == Some(userId)) &&
      (now > issuedAt + SessionLifetime ==> user.None?)
  {
    SessionCookieRoundTrip(random);
    IssuedSessionLifetime(sessions, Crypto.SessionToken(random), userId, issuedAt, now);
  }

  /** What `requireAuth` gives back: the user, or the response to send instead. */
  datatype AuthResult = Authorized(userId: string) | Refused(response: Response)

  /** `requireAuth`: a 302 to `/login` when the request has no user, the user otherwise. */
  method RequireAuth(db: Database.MongoDatabase, cookieHeader: Option<string>, now: int) returns (a: AuthResult)
    modifies db`sessions
    ensures !Truthy(ResolveUser(old(db.sessions), cookieHeader, now)) <==> a == Refused(Redirect("/login"))
    ensures a.Authorized? ==> Some(a.userId) == ResolveUser(old(db.sessions), cookieHeader, now)
    ensures db.sessions == SessionsAfterLookup(old(db.sessions), cookieHeader, now)
  {
    var userId := GetCurrentUser(db, cookieHeader, now);
    if !Truthy(userId) {
      return Refused(Redirect("/login"));
    }
    return Authorized(userId.value);
  }
}
