/**
 * `/login`: the sign-in page. A signed-in visitor is sent home. A submitted form is
 * decided by a chain of early returns — both fields filled, a well-formed user name,
 * credentials that verify — and every refusal shows the page again with its message
 * and the user name typed. Success signs the user in with a fresh session.
 */
module Login {
  import opened Wrappers
  import opened Types
  import opened Store
  import opened Http
  import opened Validation
  import Crypto
  import Database
  import Session

  const FillInMessage: string := "Please fill in all fields"
  const FormatMessage: string := "Invalid username format"
  const CredentialsMessage: string := "Invalid username or password"

  datatype Decision = Refused(message: string) | SignedIn(user: User)

  /**
   * The early-return chain of `POST`: empty fields first, then the user-name format,
   * then the store's password check. A field the form lacks arrives as the empty string.
   */
  function Decide(db: Database.MongoDatabase, username: string, password: string): (d: Decision)
    reads db`users
    ensures d.SignedIn? ==>
      username != "" && password != "" && ValidateUsername(username) &&
      d.user in db.users && d.user.username == username &&
      Crypto.VerifyPassword(password, d.user.password, db.kdf)
    ensures d.Refused? ==> d.message in {FillInMessage, FormatMessage, CredentialsMessage}
  {
    if username == "" || password == "" then Refused(FillInMessage)
    else if !ValidateUsername(username) then Refused(FormatMessage)
    else match db.AuthenticateUser(username, password)
      case None => Refused(CredentialsMessage)
      case Some(user) => SignedIn(user)
  }

  /** An empty field is reported before anything else is looked at. */
  lemma EmptyFieldComesFirst(db: Database.MongoDatabase, username: string, password: string)
    requires username == "" || password == ""
    ensures Decide(db, username, password) == Refused(FillInMessage)
  {
  }

  /** A malformed user name is refused whatever the store holds: no password is checked. */
  lemma MalformedNameNotAuthenticated(db1: Database.MongoDatabase, db2: Database.MongoDatabase,
                                      username: string, password: string)
    requires username != "" && password != "" && !ValidateUsername(username)
    ensures Decide(db1, username, password) == Decide(db2, username, password) == Refused(FormatMessage)
  {
  }

  /** With well-formed input, the answer is exactly the store's password check. */
  lemma DecisionIsAuthentication(db: Database.MongoDatabase, username: string, password: string)
    requires username != "" && password != "" && ValidateUsername(username)
    ensures db.AuthenticateUser(username, password).None? <==> Decide(db, username, password) == Refused(CredentialsMessage)
    ensures db.AuthenticateUser(username, password).Some? ==>
      Decide(db, username, password) == SignedIn(db.AuthenticateUser(username, password).value)
  {
  }

  /** An unknown user name is refused with the same message as a wrong password. */
  lemma UnknownNameRefused(db: Database.MongoDatabase, username: string, password: string)
    requires username != "" && password != "" && ValidateUsername(username)
    requires forall j :: 0 <= j < |db.users| ==> db.users[j].username != username
    ensures Decide(db, username, password) == Refused(CredentialsMessage)
  {
  }

  /**
   * `POST`: a refusal shows the page with its message and the user name typed, and
   * stores nothing; success records a session for the user and sets its cookie on a
   * 302 to `/`, after which that cookie names the user.
   */
  method Post(db: Database.MongoDatabase, username: string, password: string, random: seq<Crypto.byte>, now: int)
    returns (r: Response)
    requires |random| == Crypto.TokenBytes
    modifies db`sessions
    ensures var d := Decide(db, username, password);
      var token := Crypto.SessionToken(random);
      if d.Refused? then
        r == Page(LoginPage(Some(d.message), Some(username))) && db.sessions == old(db.sessions)
      else
        db.sessions == old(db.sessions) + [SessionRecord(token, d.user.userId, now + SessionLifetime)] &&
        r == Redirect("/").(setCookie := Some(Session.SessionCookie(token))) &&
        (SessionIndex(old(db.sessions), token).None? ==>
           Session.ResolveUser(db.sessions, Some(Session.CookiePair(token)), now) == Some(d.user.userId))
  {
    if username == "" || password == "" {
      return Page(LoginPage(Some(FillInMessage), Some(username)));
    }
    if !ValidateUsername(username) {
      return Page(LoginPage(Some(FormatMessage), Some(username)));
    }
    var user := db.AuthenticateUser(username, password);
    if user.None? {
      return Page(LoginPage(Some(CredentialsMessage), Some(username)));
    }
    r := Session.CreateSessionResponse(db, user.value.userId, Redirect("/"), random, now);
  }

  /** `GET`: a signed-in visitor goes to `/`, anyone else gets the empty form. */
  method Get(db: Database.MongoDatabase, cookieHeader: Option<string>, now: int) returns (r: Response)
    modifies db`sessions
    ensures db.sessions == Session.SessionsAfterLookup(old(db.sessions), cookieHeader, now)
    ensures Session.Truthy(Session.ResolveUser(old(db.sessions), cookieHeader, now)) ==> r == Redirect("/")
    ensures !Session.Truthy(Session.ResolveUser(old(db.sessions), cookieHeader, now)) ==>
      r == Page(LoginPage(None, None))
  {
    var userId := Session.GetCurrentUser(db, cookieHeader, now);
    if Session.Truthy(userId) {
      return Redirect("/");
    }
    return Page(LoginPage(None, None));
  }
}
