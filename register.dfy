/**
 * `/register`: the sign-up page. A signed-in visitor is sent home. A submitted form is
 * cleaned, checked field by field with every failure collected in a fixed order, and
 * only the first failure is shown; a form with none creates the user and signs them
 * in with a fresh session.
 */
module Register {
  import opened Wrappers
  import opened Types
  import opened Store
  import opened Http
  import opened Validation
  import opened Text
  import Crypto
  import Database
  import Session

  const FullnameMessage: string := "Full name must be at least 2 characters long"
  const UsernameMessage: string :=
    "Username must be 3-20 characters long and contain only letters, numbers, and underscores"
  const EmailMessage: string := "Please enter a valid email address"
  const PhoneMessage: string := "Please enter a valid phone number"
  const MismatchMessage: string := "Passwords do not match"
  const UsernameTakenMessage: string := "Username already exists"
  const EmailTakenMessage: string := "Email already registered"

  /**
   * The form as the handler keeps it: the four text fields cleaned, the two passwords
   * exactly as typed. A field the form lacks arrives as the empty string.
   */
  function SanitizeForm(raw: RegisterForm): (f: RegisterForm)
    ensures f.password == raw.password && f.confirmPassword == raw.confirmPassword
    ensures forall i :: 0 <= i < |f.fullname| ==> !IsMarkupChar(f.fullname[i])
    ensures forall i :: 0 <= i < |f.username| ==> !IsMarkupChar(f.username[i])
    ensures forall i :: 0 <= i < |f.email| ==> !IsMarkupChar(f.email[i])
    ensures forall i :: 0 <= i < |f.phone| ==> !IsMarkupChar(f.phone[i])
  {
    RegisterForm(SanitizeString(raw.fullname), SanitizeString(raw.username), SanitizeString(raw.email),
                 SanitizeString(raw.phone), raw.password, raw.confirmPassword)
  }

  /** `!fullname || fullname.length < 2`, the length in UTF-16 code units. */
  predicate FullnameTooShort(fullname: string) {
    Missing(fullname) || Utf16Length(fullname) < 2
  }

  /** `errors` with `message` pushed when the check failed. */
  function Pushed(errors: seq<string>, failed: bool, message: string): (r: seq<string>)
    ensures r == if failed then errors + [message] else errors
  {
    errors + if failed then [message] else []
  }

  /** The failures of the four text fields: full name, user name, e-mail, phone. */
  function FieldErrors(f: RegisterForm): (errors: seq<string>)
  {
    var e := Pushed([], FullnameTooShort(f.fullname), FullnameMessage);
    var e := Pushed(e, !ValidateUsername(f.username), UsernameMessage);
    var e := Pushed(e, !ValidateEmail(f.email), EmailMessage);
    Pushed(e, !ValidatePhone(f.phone), PhoneMessage)
  }

  /**
   * Every failure, in the order the handler checks: the four text fields, the password
   * rules, the repeated password, a taken user name, a taken e-mail.
   */
  function RegisterErrors(f: RegisterForm, users: seq<User>): (errors: seq<string>)
    ensures f.password != f.confirmPassword ==> MismatchMessage in errors
    ensures UserIndexByName(users, f.username).Some? ==> UsernameTakenMessage in errors
    ensures UserIndexByEmail(users, f.email).Some? ==> EmailTakenMessage in errors
  {
    AccountErrors(FieldErrors(f) + Failed(PasswordRulesBroken(f.password), PasswordMessages), f, users)
  }

  /** The last three checks, after `errors`: the repeated password, a taken user name, a taken e-mail. */
  function AccountErrors(errors: seq<string>, f: RegisterForm, users: seq<User>): (r: seq<string>)
  {
    var e := Pushed(errors, f.password != f.confirmPassword, MismatchMessage);
    var e := Pushed(e, UserIndexByName(users, f.username).Some?, UsernameTakenMessage);
    Pushed(e, UserIndexByEmail(users, f.email).Some?, EmailTakenMessage)
  }

  /** The first password rule the password breaks. */
  function FirstBrokenRule(p: string): (m: Option<string>)
    ensures m.None? <==> 8 <= Utf16Length(p) && HasUpper(p) && HasLower(p) && HasDigit(p) && HasSpecial(p)
  {
    if Utf16Length(p) < 8 then Some(PasswordTooShort)
    else if !HasUpper(p) then Some(PasswordNeedsUpper)
    else if !HasLower(p) then Some(PasswordNeedsLower)
    else if !HasDigit(p) then Some(PasswordNeedsDigit)
    else if !HasSpecial(p) then Some(PasswordNeedsSpecial)
    else None
  }

  /** The first of the four text fields that fails its check. */
  function FirstFieldError(f: RegisterForm): (m: Option<string>)
  {
    if FullnameTooShort(f.fullname) then Some(FullnameMessage)
    else if !ValidateUsername(f.username) then Some(UsernameMessage)
    else if !ValidateEmail(f.email) then Some(EmailMessage)
    else if !ValidatePhone(f.phone) then Some(PhoneMessage)
    else None
  }

  /** The message the page shows: that of the first check, in order, that fails. */
  function FirstRegisterError(f: RegisterForm, users: seq<User>): (m: Option<string>)
    ensures FirstFieldError(f).Some? ==> m == FirstFieldError(f)
    ensures m.None? <==>
      !FullnameTooShort(f.fullname) && ValidateUsername(f.username) && ValidateEmail(f.email) &&
      ValidatePhone(f.phone) && FirstBrokenRule(f.password).None? && f.password == f.confirmPassword &&
      UserIndexByName(users, f.username).None? && UserIndexByEmail(users, f.email).None?
  {
    if FirstFieldError(f).Some? then FirstFieldError(f)
    else if FirstBrokenRule(f.password).Some? then FirstBrokenRule(f.password)
    else if f.password != f.confirmPassword then Some(MismatchMessage)
    else if UserIndexByName(users, f.username).Some? then Some(UsernameTakenMessage)
    else if UserIndexByEmail(users, f.email).Some? then Some(EmailTakenMessage)
    else None
  }

  /** The field errors start with the first failing field, and are empty when none fails. */
  lemma FieldErrorsHead(f: RegisterForm)
    ensures FieldErrors(f) == [] <==> FirstFieldError(f).None?
    ensures FieldErrors(f) != [] ==> FieldErrors(f)[0] == FirstFieldError(f).value
  {
  }

  /** The password errors start with the first broken rule, and are empty when none is broken. */
  lemma PasswordErrorsHead(p: string)
    ensures var errors := Failed(PasswordRulesBroken(p), PasswordMessages);
      (errors == [] <==> FirstBrokenRule(p).None?) &&
      (errors != [] ==> errors[0] == FirstBrokenRule(p).value)
  {
    var f := PasswordRulesBroken(p);
    FailedNone(f, PasswordMessages, 5);
    assert (forall i :: 0 <= i < 5 ==> !f[i]) <==> !f[0] && !f[1] && !f[2] && !f[3] && !f[4];
    if f[0] {
      FailedHead(f, PasswordMessages, 5, 0);
    } else if f[1] {
      FailedHead(f, PasswordMessages, 5, 1);
    } else if f[2] {
      FailedHead(f, PasswordMessages, 5, 2);
    } else if f[3] {
      FailedHead(f, PasswordMessages, 5, 3);
    } else if f[4] {
      FailedHead(f, PasswordMessages, 5, 4);
    }
  }

  /**
   * The collected list is empty exactly when no check fails, and otherwise starts with
   * the message of the first check that fails: the one message the page shows.
   */
  lemma ShownErrorIsFirstFailure(f: RegisterForm, users: seq<User>)
    ensures RegisterErrors(f, users) == [] <==> FirstRegisterError(f, users).None?
    ensures RegisterErrors(f, users) != [] ==> RegisterErrors(f, users)[0] == FirstRegisterError(f, users).value
  {
    FieldErrorsHead(f);
    PasswordErrorsHead(f.password);
    var fields := FieldErrors(f);
    var password := Failed(PasswordRulesBroken(f.password), PasswordMessages);
    var e := fields + password;
    if fields != [] {
      assert e[0] == fields[0];
    } else if password != [] {
      assert e == password;
    } else {
      assert e == [];
    }
    AccountErrorsHead(e, f, users);
  }

  /** The account checks keep a non-empty list's head, and otherwise start with the first that fails. */
  lemma AccountErrorsHead(errors: seq<string>, f: RegisterForm, users: seq<User>)
    ensures var r := AccountErrors(errors, f, users);
      (r == [] <==> errors == [] && f.password == f.confirmPassword &&
                    UserIndexByName(users, f.username).None? && UserIndexByEmail(users, f.email).None?) &&
      (errors != [] ==> r[0] == errors[0]) &&
      (errors == [] && r != [] ==>
         r[0] == if f.password != f.confirmPassword then MismatchMessage
                 else if UserIndexByName(users, f.username).Some? then UsernameTakenMessage
                 else EmailTakenMessage)
  {
  }

  /** No two accounts share a user name or an e-mail address. */
  ghost predicate UniqueAccounts(users: seq<User>) {
    forall i, j :: 0 <= i < j < |users| ==> users[i].username != users[j].username && users[i].email != users[j].email
  }

  /** A form with no failures names a user name and an e-mail no account has. */
  lemma AcceptedFormIsUnused(f: RegisterForm, users: seq<User>)
    requires RegisterErrors(f, users) == []
    ensures forall j :: 0 <= j < |users| ==> users[j].username != f.username && users[j].email != f.email
  {
    ShownErrorIsFirstFailure(f, users);
  }

  /** An account whose user name and e-mail no account has keeps the accounts unique. */
  lemma AddingUnusedKeepsUnique(users: seq<User>, user: User)
    requires forall j :: 0 <= j < |users| ==> users[j].username != user.username && users[j].email != user.email
    ensures UniqueAccounts(users) ==> UniqueAccounts(users + [user])
  {
  }

  /** `errors.push(message)` when the check fails. */
  method PushIf(errors: seq<string>, failed: bool, message: string) returns (next: seq<string>)
    ensures next == Pushed(errors, failed, message)
  {
    next := errors;
    if failed {
      next := next + [message];
    }
  }

  /** The first four checks of the `POST` handler. */
  method CheckFields(f: RegisterForm) returns (errors: seq<string>)
    ensures errors == FieldErrors(f)
  {
    errors := [];
    errors := PushIf(errors, FullnameTooShort(f.fullname), FullnameMessage);
    errors := PushIf(errors, !ValidateUsername(f.username), UsernameMessage);
    errors := PushIf(errors, !ValidateEmail(f.email), EmailMessage);
    errors := PushIf(errors, !ValidatePhone(f.phone), PhoneMessage);
  }

  /** The checks of the `POST` handler, in order. */
  method CollectErrors(db: Database.MongoDatabase, f: RegisterForm) returns (errors: seq<string>)
    ensures errors == RegisterErrors(f, db.users)
  {
    errors := CheckFields(f);
    errors := AddPasswordErrors(errors, f.password);
    errors := AddAccountErrors(db, errors, f);
  }

  /** The password step: appends the messages of the rules the password breaks. */
  method AddPasswordErrors(errors: seq<string>, password: string) returns (next: seq<string>)
    ensures next == errors + Failed(PasswordRulesBroken(password), PasswordMessages)
  {
    next := errors;
    var valid, passwordErrors := ValidatePassword(password);
    if !valid {
      next := next + passwordErrors;
    } else {
      assert next + passwordErrors == next;
    }
  }

  /** The last three checks, against the store's users. */
  method AddAccountErrors(db: Database.MongoDatabase, errors: seq<string>, f: RegisterForm) returns (next: seq<string>)
    ensures next == AccountErrors(errors, f, db.users)
  {
    next := PushIf(errors, f.password != f.confirmPassword, MismatchMessage);
    next := PushIf(next, db.GetUserByUsername(f.username).Some?, UsernameTakenMessage);
    next := PushIf(next, db.GetUserByEmail(f.email).Some?, EmailTakenMessage);
  }

  /**
   * `POST`: with any failure the page is shown again with the first message and the
   * cleaned form, and nothing is stored. Otherwise a user is created from the cleaned
   * form, can then log in with the password given, and is signed in by a new session
   * on a 302 to `/`. Accounts stay unique by user name and by e-mail.
   */
  method Post(db: Database.MongoDatabase, raw: RegisterForm, salt: seq<Crypto.byte>, random: seq<Crypto.byte>, now: int)
    returns (r: Response)
    requires db.Valid() && |salt| == Crypto.SaltLength && |random| == Crypto.TokenBytes
    modifies db`users, db`nextId, db`issued, db`sessions
    ensures db.Valid()
    ensures UniqueAccounts(old(db.users)) ==> UniqueAccounts(db.users)
    ensures var f := SanitizeForm(raw);
      var errors := RegisterErrors(f, old(db.users));
      if errors != [] then
        r == Page(RegisterPage(Some(errors[0]), Some(f))) &&
        db.users == old(db.users) && db.sessions == old(db.sessions) && db.nextId == old(db.nextId)
      else
        |db.users| == |old(db.users)| + 1 &&
        var user := db.users[|old(db.users)|];
        db.users == old(db.users) + [user] &&
        user.userId == Crypto.FreshId(old(db.nextId)) &&
        user.fullname == f.fullname && user.username == f.username && user.email == f.email && user.phone == f.phone &&
        db.AuthenticateUser(f.username, f.password) == Some(user) &&
        db.sessions == old(db.sessions) + [SessionRecord(Crypto.SessionToken(random), user.userId, now + SessionLifetime)] &&
        r == Redirect("/").(setCookie := Some(Session.SessionCookie(Crypto.SessionToken(random))))
  {
    var f := SanitizeForm(raw);
    var errors := CollectErrors(db, f);
    if |errors| > 0 {
      return Page(RegisterPage(Some(errors[0]), Some(f)));
    }
    AcceptedFormIsUnused(f, db.users);
    r := CreateAccount(db, f, salt, random, now);
  }

  /** The success path of `POST`: the user is created, then signed in on a 302 to `/`. */
  method CreateAccount(db: Database.MongoDatabase, f: RegisterForm, salt: seq<Crypto.byte>, random: seq<Crypto.byte>, now: int)
    returns (r: Response)
    requires db.Valid() && |salt| == Crypto.SaltLength && |random| == Crypto.TokenBytes
    requires forall j :: 0 <= j < |db.users| ==> db.users[j].username != f.username && db.users[j].email != f.email
    modifies db`users, db`nextId, db`issued, db`sessions
    ensures db.Valid()
    ensures UniqueAccounts(old(db.users)) ==> UniqueAccounts(db.users)
    ensures |db.users| == |old(db.users)| + 1
    ensures var user := db.users[|old(db.users)|];
      db.users == old(db.users) + [user] &&
      user.userId == Crypto.FreshId(old(db.nextId)) &&
      user.fullname == f.fullname && user.username == f.username && user.email == f.email && user.phone == f.phone &&
      db.AuthenticateUser(f.username, f.password) == Some(user) &&
      db.sessions == old(db.sessions) + [SessionRecord(Crypto.SessionToken(random), user.userId, now + SessionLifetime)] &&
      r == Redirect("/").(setCookie := Some(Session.SessionCookie(Crypto.SessionToken(random))))
  {
    var user := db.CreateUser(f.fullname, f.username, f.email, f.phone, f.password, salt, now);
    AddingUnusedKeepsUnique(old(db.users), user);
    r := Session.CreateSessionResponse(db, user.userId, Redirect("/"), random, now);
  }

  /** `GET`: a signed-in visitor goes to `/`, anyone else gets the empty form. */
  method Get(db: Database.MongoDatabase, cookieHeader: Option<string>, now: int) returns (r: Response)
    modifies db`sessions
    ensures db.sessions == Session.SessionsAfterLookup(old(db.sessions), cookieHeader, now)
    ensures Session.Truthy(Session.ResolveUser(old(db.sessions), cookieHeader, now)) ==> r == Redirect("/")
    ensures !Session.Truthy(Session.ResolveUser(old(db.sessions), cookieHeader, now)) ==>
      r == Page(RegisterPage(None, None))
  {
    var userId := Session.GetCurrentUser(db, cookieHeader, now);
    if Session.Truthy(userId) {
      return Redirect("/");
    }
    return Page(RegisterPage(None, None));
  }
}
