/**
 * Input validation: the pattern tests for e-mail addresses, phone numbers and user
 * names, the clean-up applied to form text, and the three validators that collect
 * error messages check by check.
 */
module Validation {
  import opened Wrappers
  import opened Text
  import Seqs

  // -------------------------------------------------------------------------------
  // Collected errors

  /** The messages of the first `k` checks that failed, in the order of the checks. */
  function FailedAmong(failing: seq<bool>, messages: seq<string>, k: nat): (errors: seq<string>)
    requires |failing| == |messages| && k <= |failing|
    ensures |errors| <= k
    decreases k
  {
    if k == 0 then []
    else FailedAmong(failing, messages, k - 1) + (if failing[k - 1] then [messages[k - 1]] else [])
  }

  /** The messages of all checks that failed, in the order of the checks. */
  function Failed(failing: seq<bool>, messages: seq<string>): (errors: seq<string>)
    requires |failing| == |messages|
  {
    FailedAmong(failing, messages, |failing|)
  }

  predicate Distinct(messages: seq<string>) {
    forall i, j :: 0 <= i < j < |messages| ==> messages[i] != messages[j]
  }

  /** The failed messages keep the order of the checks and name each at most once. */
  lemma {:induction false} FailedInOrder(failing: seq<bool>, messages: seq<string>, k: nat)
    requires |failing| == |messages| && k <= |failing|
    ensures Seqs.IsSubsequence(FailedAmong(failing, messages, k), messages[..k])
    decreases k
  {
    if k > 0 {
      FailedInOrder(failing, messages, k - 1);
      assert messages[..k] == messages[..k - 1] + [messages[k - 1]];
      var before := FailedAmong(failing, messages, k - 1);
      if failing[k - 1] {
        assert FailedAmong(failing, messages, k) == before + [messages[k - 1]];
      } else {
        assert FailedAmong(failing, messages, k) == before;
      }
      Seqs.SubsequenceExtend(FailedAmong(failing, messages, k - 1), messages[..k - 1], messages[k - 1]);
    } else {
      Seqs.SubsequenceRefl(messages[..0]);
    }
  }

  /** With distinct messages, a message is reported exactly when its check fails. */
  lemma {:induction false} FailedExactly(failing: seq<bool>, messages: seq<string>, k: nat, i: nat)
    requires |failing| == |messages| && Distinct(messages) && i < k <= |messages|
    ensures messages[i] in FailedAmong(failing, messages, k) <==> failing[i]
    decreases k
  {
    var before := FailedAmong(failing, messages, k - 1);
    if i < k - 1 {
      FailedExactly(failing, messages, k - 1, i);
    } else if messages[i] in before {
      FailedInOrder(failing, messages, k - 1);
      Seqs.SubsequenceMembers(before, messages[..k - 1], messages[i]);
    }
  }

  /** No message is reported exactly when no check fails. */
  lemma {:induction false} FailedNone(failing: seq<bool>, messages: seq<string>, k: nat)
    requires |failing| == |messages| && k <= |failing|
    ensures FailedAmong(failing, messages, k) == [] <==> forall i :: 0 <= i < k ==> !failing[i]
    decreases k
  {
    if k > 0 {
      FailedNone(failing, messages, k - 1);
    }
  }

  /** The first message reported is that of the first check that failed. */
  lemma {:induction false} FailedHead(failing: seq<bool>, messages: seq<string>, k: nat, i: nat)
    requires |failing| == |messages| && i < k <= |failing|
    requires failing[i] && forall j :: 0 <= j < i ==> !failing[j]
    ensures FailedAmong(failing, messages, k) != [] && FailedAmong(failing, messages, k)[0] == messages[i]
    decreases k
  {
    if k - 1 == i {
      FailedNone(failing, messages, i);
    } else {
      FailedHead(failing, messages, k - 1, i);
    }
  }

  /** `if (failed) errors.push(message)` as the `k`-th check of a validator. */
  method PushIfFailed(errors: seq<string>, failed: bool, ghost failing: seq<bool>, messages: seq<string>, k: nat)
    returns (next: seq<string>)
    requires |failing| == |messages| && k < |failing| && failed == failing[k]
    requires errors == FailedAmong(failing, messages, k)
    ensures next == FailedAmong(failing, messages, k + 1)
    ensures failed ==> next == errors + [messages[k]]
    ensures !failed ==> next == errors
  {
    next := errors;
    if failed {
      next := next + [messages[k]];
    }
  }

  /** Four consecutive checks, the `k`-th to the `k + 3`-th of a validator. */
  method PushFour(errors: seq<string>, c0: bool, c1: bool, c2: bool, c3: bool,
                  ghost failing: seq<bool>, messages: seq<string>, k: nat)
    returns (next: seq<string>)
    requires |failing| == |messages| && k + 4 <= |failing|
    requires c0 == failing[k] && c1 == failing[k + 1] && c2 == failing[k + 2] && c3 == failing[k + 3]
    requires errors == FailedAmong(failing, messages, k)
    ensures next == FailedAmong(failing, messages, k + 4)
  {
    next := PushIfFailed(errors, c0, failing, messages, k);
    next := PushIfFailed(next, c1, failing, messages, k + 1);
    next := PushIfFailed(next, c2, failing, messages, k + 2);
    next := PushIfFailed(next, c3, failing, messages, k + 3);
  }

  /** The facts a validator states about its error list, from the three lemmas above. */
  lemma FailedFacts(failing: seq<bool>, messages: seq<string>)
    requires |failing| == |messages| && Distinct(messages)
    ensures Seqs.IsSubsequence(Failed(failing, messages), messages)
    ensures Failed(failing, messages) == [] <==> forall i :: 0 <= i < |failing| ==> !failing[i]
    ensures forall i :: 0 <= i < |messages| ==> (messages[i] in Failed(failing, messages) <==> failing[i])
  {
    FailedInOrder(failing, messages, |failing|);
    assert messages[..|failing|] == messages;
    FailedNone(failing, messages, |failing|);
    forall i | 0 <= i < |messages| ensures messages[i] in Failed(failing, messages) <==> failing[i] {
      FailedExactly(failing, messages, |failing|, i);
    }
  }

  // -------------------------------------------------------------------------------
  // Pattern tests

  predicate NoSpaceOrAt(s: string) {
    forall i :: 0 <= i < |s| ==> !IsJsWhitespace(s[i]) && s[i] != '@'
  }

  /** `e` splits as `a@b.c` with each block non-empty and free of white space and `@`. */
  ghost predicate EmailShape(e: string, a: string, b: string, c: string) {
    e == a + "@" + b + "." + c && a != "" && b != "" && c != "" &&
    NoSpaceOrAt(a) && NoSpaceOrAt(b) && NoSpaceOrAt(c)
  }

  /** The language of `^[^\s@]+@[^\s@]+\.[^\s@]+$`. */
  ghost predicate MatchesEmailPattern(e: string) {
    exists a, b, c :: EmailShape(e, a, b, c)
  }

  /** A dot with text on both sides of it. */
  predicate HasInnerDot(d: string) {
    exists k :: 0 < k < |d| - 1 && d[k] == '.'
  }

  /** Where the first `@` of `email` is, if it has one. */
  function FirstAt(email: string): (i: Option<nat>)
    ensures i.Some? ==> i.value < |email| && email[i.value] == '@'
    ensures i.Some? ==> forall j :: 0 <= j < i.value ==> email[j] != '@'
    ensures i.None? <==> '@' !in email
  {
    Seqs.FindFirst(email, c => c == '@')
  }

  /** An `@` with none before it is the first one. */
  lemma FirstAtIs(email: string, i: nat)
    requires i < |email| && email[i] == '@'
    requires forall j :: 0 <= j < i ==> email[j] != '@'
    ensures FirstAt(email) == Some(i)
  {
  }

  /** `validateEmail`: text before the first `@`, a dotted domain after it, no white space, one `@`. */
  function ValidateEmail(email: string): (ok: bool)
    ensures ok ==> '@' in email && forall i :: 0 <= i < |email| ==> !IsJsWhitespace(email[i])
  {
    match FirstAt(email)
    case None => false
    case Some(i) =>
      var local := email[..i];
      var domain := email[i + 1..];
      assert forall j :: i < j < |email| ==> email[j] == domain[j - i - 1];
      local != "" && NoSpaceOrAt(local) && NoSpaceOrAt(domain) && HasInnerDot(domain)
  }

  /** An address the test accepts splits as the pattern asks. */
  lemma AcceptedEmailMatches(email: string)
    requires ValidateEmail(email)
    ensures MatchesEmailPattern(email)
  {
    var i := FirstAt(email).value;
    var domain := email[i + 1..];
    var k :| 0 < k < |domain| - 1 && domain[k] == '.';
    EmailPartsShape(email, i, k);
  }

  /** An `@` at `i` and a dot `k` places into the domain cut the address into the pattern's three blocks. */
  lemma EmailPartsShape(email: string, i: nat, k: nat)
    requires 0 < i < |email| && email[i] == '@'
    requires NoSpaceOrAt(email[..i]) && NoSpaceOrAt(email[i + 1..])
    requires 0 < k < |email[i + 1..]| - 1 && email[i + 1..][k] == '.'
    ensures EmailShape(email, email[..i], email[i + 1..][..k], email[i + 1..][k + 1..])
  {
    var a := email[..i];
    var domain := email[i + 1..];
    var b := domain[..k];
    var c := domain[k + 1..];
    assert domain == b + "." + c;
    assert email == a + "@" + domain;
  }

  /** An address of the pattern's shape passes the test. */
  lemma MatchingEmailAccepted(email: string)
    requires MatchesEmailPattern(email)
    ensures ValidateEmail(email)
  {
    var a, b, c :| EmailShape(email, a, b, c);
    assert email[|a|] == '@';
    assert forall j :: 0 <= j < |a| ==> email[j] == a[j];
    FirstAtIs(email, |a|);
    var domain := email[|a| + 1..];
    assert domain == b + "." + c;
    assert domain[|b|] == '.';
    assert NoSpaceOrAt(domain);
  }

  /** The test accepts exactly the language of the regular expression. */
  lemma ValidateEmailMatchesPattern(email: string)
    ensures ValidateEmail(email) <==> MatchesEmailPattern(email)
  {
    if ValidateEmail(email) {
      AcceptedEmailMatches(email);
    }
    if MatchesEmailPattern(email) {
      MatchingEmailAccepted(email);
    }
  }

  /** `[\d\s-()]`: a digit, white space, a hyphen or a parenthesis. */
  predicate IsPhoneChar(c: char) {
    IsDigit(c) || IsJsWhitespace(c) || c == '-' || c == '(' || c == ')'
  }

  predicate IsPhoneBody(s: string) {
    10 <= |s| <= 15 && forall i :: 0 <= i < |s| ==> IsPhoneChar(s[i])
  }

  /** The language of `^[+]?[\d\s-()]{10,15}$`: an optional `+`, then 10 to 15 phone characters. */
  ghost predicate MatchesPhonePattern(p: string) {
    IsPhoneBody(p) || (|p| > 0 && p[0] == '+' && IsPhoneBody(p[1..]))
  }

  /** `validatePhone`: a leading `+` is taken off, and the rest must be 10 to 15 phone characters. */
  function ValidatePhone(phone: string): (ok: bool)
    ensures ok ==> 10 <= |phone| <= 16
  {
    var body := if |phone| > 0 && phone[0] == '+' then phone[1..] else phone;
    IsPhoneBody(body)
  }

  /** Taking the `+` off first loses no match: the test is the regular expression. */
  lemma ValidatePhoneMatchesPattern(phone: string)
    ensures ValidatePhone(phone) <==> MatchesPhonePattern(phone)
  {
    if |phone| > 0 && phone[0] == '+' {
      assert !IsPhoneChar(phone[0]);
    }
  }

  predicate IsWordChar(c: char) {
    IsAsciiUpper(c) || IsAsciiLower(c) || IsDigit(c) || c == '_'
  }

  /**
   * `validateUsername`: `^[a-zA-Z0-9_]{3,20}$`. An accepted name is ASCII, so its UTF-16
   * length is its length, and holds no markup character and no white space.
   */
  predicate ValidateUsername(username: string): (ok: bool)
    ensures ok ==> 3 <= Utf16Length(username) <= 20
    ensures ok ==> forall i :: 0 <= i < |username| ==>
      !IsMarkupChar(username[i]) && !IsJsWhitespace(username[i])
  {
    3 <= |username| <= 20 && forall i :: 0 <= i < |username| ==> IsWordChar(username[i])
  }

  /** The characters `sanitizeString` deletes. */
  predicate IsMarkupChar(c: char) {
    c == '<' || c == '>' || c == '"' || c == '\'' || c == '&'
  }

  /** `sanitizeString`: trimmed, then every `<`, `>`, `"`, `'` and `&` deleted. */
  function SanitizeString(input: string): (r: string)
    ensures forall i :: 0 <= i < |r| ==> !IsMarkupChar(r[i])
    ensures Seqs.IsSubsequence(r, input) && |r| <= |input|
  {
    var t := Trim(input);
    TrimIsSubsequence(input);
    Seqs.FilterIsExact(t, c => !IsMarkupChar(c));
    Seqs.SubsequenceTrans(Seqs.Filter(t, c => !IsMarkupChar(c)), t, input);
    Seqs.SubsequenceLength(Seqs.Filter(t, c => !IsMarkupChar(c)), input);
    Seqs.Filter(t, c => !IsMarkupChar(c))
  }

  lemma TrimIsSubsequence(input: string)
    ensures Seqs.IsSubsequence(Trim(input), input)
  {
    TrimFacts(input);
    var i :| SliceAt(Trim(input), input, i);
    Seqs.SliceIsSubsequence(input, i, i + |Trim(input)|);
  }

  /** A valid user name passes through sanitising unchanged. */
  lemma ValidUsernameIsSanitized(username: string)
    requires ValidateUsername(username)
    ensures SanitizeString(username) == username
  {
    assert !IsJsWhitespace(username[0]) && !IsJsWhitespace(username[|username| - 1]);
    TrimUnchanged(username);
    Seqs.FilterAll(username, c => !IsMarkupChar(c));
  }

  // -------------------------------------------------------------------------------
  // validatePassword

  const PasswordTooShort: string := "Password must be at least 8 characters long"
  const PasswordNeedsUpper: string := "Password must contain at least one uppercase letter"
  const PasswordNeedsLower: string := "Password must contain at least one lowercase letter"
  const PasswordNeedsDigit: string := "Password must contain at least one number"
  const PasswordNeedsSpecial: string := "Password must contain at least one special character"

  const PasswordMessages: seq<string> :=
    [PasswordTooShort, PasswordNeedsUpper, PasswordNeedsLower, PasswordNeedsDigit, PasswordNeedsSpecial]

  /** `[!@#$%^&*(),.?":{}|<>]`. */
  const SpecialChars: string := "!@#$%^&*(),.?\":{}|<>"

  predicate HasUpper(p: string) { exists i :: 0 <= i < |p| && IsAsciiUpper(p[i]) }
  predicate HasLower(p: string) { exists i :: 0 <= i < |p| && IsAsciiLower(p[i]) }
  predicate HasDigit(p: string) { exists i :: 0 <= i < |p| && IsDigit(p[i]) }
  predicate HasSpecial(p: string) { exists i :: 0 <= i < |p| && p[i] in SpecialChars }

  /** Which of the five rules the password breaks, in the order they are checked. */
  function PasswordRulesBroken(p: string): (failing: seq<bool>)
    ensures |failing| == |PasswordMessages|
  {
    [Utf16Length(p) < 8, !HasUpper(p), !HasLower(p), !HasDigit(p), !HasSpecial(p)]
  }

  lemma PasswordMessagesDistinct()
    ensures Distinct(PasswordMessages)
  {
  }

  /**
   * `validatePassword`: one message per broken rule, in rule order; valid exactly
   * when there is none.
   */
  method ValidatePassword(password: string) returns (valid: bool, errors: seq<string>)
    ensures errors == Failed(PasswordRulesBroken(password), PasswordMessages)
    ensures valid <==> errors == []
  {
    ghost var failing := PasswordRulesBroken(password);
    errors := [];
    var k: nat := 0;
    errors := PushIfFailed(errors, Utf16Length(password) < 8, failing, PasswordMessages, k);
    k := k + 1;
    errors := PushIfFailed(errors, !HasUpper(password), failing, PasswordMessages, k);
    k := k + 1;
    errors := PushIfFailed(errors, !HasLower(password), failing, PasswordMessages, k);
    k := k + 1;
    errors := PushIfFailed(errors, !HasDigit(password), failing, PasswordMessages, k);
    k := k + 1;
    errors := PushIfFailed(errors, !HasSpecial(password), failing, PasswordMessages, k);
    k := k + 1;
    valid := |errors| == 0;
  }

  /**
   * The length rule counts UTF-16 code units, as `length` does: six characters, two of
   * them outside the Basic Multilingual Plane, are long enough.
   */
  lemma LengthRuleCountsCodeUnits()
    ensures |"Aa1!\U{1F600}\U{1F600}"| == 6
    ensures !PasswordRulesBroken("Aa1!\U{1F600}\U{1F600}")[0]
  {
  }

  /**
   * The password errors name each broken rule once, in rule order, so there are at
   * most five, and there are none exactly when all five rules hold.
   */
  lemma PasswordErrorsMeaning(password: string)
    ensures var errors := Failed(PasswordRulesBroken(password), PasswordMessages);
      Seqs.IsSubsequence(errors, PasswordMessages) && |errors| <= 5 &&
      (forall i :: 0 <= i < |PasswordMessages| ==> (PasswordMessages[i] in errors <==> PasswordRulesBroken(password)[i])) &&
      (errors == [] <==> 8 <= Utf16Length(password) && HasUpper(password) && HasLower(password) &&
                         HasDigit(password) && HasSpecial(password))
  {
    var f := PasswordRulesBroken(password);
    PasswordMessagesDistinct();
    FailedFacts(f, PasswordMessages);
    assert (forall i :: 0 <= i < |f| ==> !f[i]) <==> !f[0] && !f[1] && !f[2] && !f[3] && !f[4];
  }

  // -------------------------------------------------------------------------------
  // validateMovieForm

  datatype MovieForm = MovieForm(
    movieName: string, movieLang: string, movieGenre: string, ratings: real,
    movieDescription: string, price: real, duration: real, ageRating: string)

  const MovieNameTooShort: string := "Movie name must be at least 2 characters long"
  const MovieLangMissing: string := "Movie language is required"
  const MovieGenreMissing: string := "Movie genre is required"
  const RatingsOutOfRange: string := "Ratings must be between 1 and 10"
  const DescriptionTooShort: string := "Movie description must be at least 10 characters long"
  const PriceNotPositive: string := "Price must be greater than 0"
  const DurationNotPositive: string := "Duration must be greater than 0 minutes"
  const AgeRatingMissing: string := "Age rating is required"

  const MovieMessages: seq<string> := [
    MovieNameTooShort, MovieLangMissing, MovieGenreMissing, RatingsOutOfRange,
    DescriptionTooShort, PriceNotPositive, DurationNotPositive, AgeRatingMissing]

  /** `!s` for a string: it is empty. */
  predicate Missing(s: string) {
    |s| == 0
  }

  /** `!s || s.trim().length < n`: missing, or shorter than `n` UTF-16 code units once trimmed. */
  predicate TooShort(s: string, n: nat) {
    Missing(s) || Utf16Length(Trim(s)) < n
  }

  /** Which of the eight movie-form checks fail, in the order they are made. */
  function MovieChecksFailed(d: MovieForm): (failing: seq<bool>)
    ensures |failing| == |MovieMessages|
  {
    [TooShort(d.movieName, 2),
     Missing(d.movieLang),
     Missing(d.movieGenre),
     d.ratings < 1.0 || d.ratings > 10.0,
     TooShort(d.movieDescription, 10),
     d.price <= 0.0,
     d.duration <= 0.0,
     Missing(d.ageRating)]
  }

  lemma MovieMessagesDistinct()
    ensures Distinct(MovieMessages)
  {
  }

  /** `validateMovieForm`: one message per failed check, in check order; valid exactly when none fails. */
  method ValidateMovieForm(d: MovieForm) returns (valid: bool, errors: seq<string>)
    ensures errors == Failed(MovieChecksFailed(d), MovieMessages)
    ensures valid <==> errors == []
  {
    errors := MovieChecksHead(d);
    errors := MovieChecksTail(d, errors);
    valid := |errors| == 0;
  }

  /** The first four movie checks: name, language, genre, ratings. */
  method MovieChecksHead(d: MovieForm) returns (errors: seq<string>)
    ensures errors == FailedAmong(MovieChecksFailed(d), MovieMessages, 4)
  {
    errors := PushFour([], TooShort(d.movieName, 2), Missing(d.movieLang), Missing(d.movieGenre),
                       d.ratings < 1.0 || d.ratings > 10.0, MovieChecksFailed(d), MovieMessages, 0);
  }

  /** The last four movie checks: description, price, duration, age rating. */
  method MovieChecksTail(d: MovieForm, errors: seq<string>) returns (next: seq<string>)
    requires errors == FailedAmong(MovieChecksFailed(d), MovieMessages, 4)
    ensures next == FailedAmong(MovieChecksFailed(d), MovieMessages, 8)
  {
    next := PushFour(errors, TooShort(d.movieDescription, 10), d.price <= 0.0, d.duration <= 0.0,
                     Missing(d.ageRating), MovieChecksFailed(d), MovieMessages, 4);
  }

  /** The movie-form errors name each failed check once, in check order; none means every field is acceptable. */
  lemma MovieErrorsMeaning(d: MovieForm)
    ensures var errors := Failed(MovieChecksFailed(d), MovieMessages);
      Seqs.IsSubsequence(errors, MovieMessages) &&
      (forall i :: 0 <= i < |MovieMessages| ==> (MovieMessages[i] in errors <==> MovieChecksFailed(d)[i])) &&
      (errors == [] <==> !TooShort(d.movieName, 2) && !Missing(d.movieLang) && !Missing(d.movieGenre) &&
                         1.0 <= d.ratings <= 10.0 && !TooShort(d.movieDescription, 10) &&
                         d.price > 0.0 && d.duration > 0.0 && !Missing(d.ageRating))
  {
    var f := MovieChecksFailed(d);
    MovieMessagesDistinct();
    FailedFacts(f, MovieMessages);
    assert (forall i :: 0 <= i < |f| ==> !f[i]) <==> !f[0] && !f[1] && !f[2] && !f[3] && !f[4] && !f[5] && !f[6] && !f[7];
  }

  // -------------------------------------------------------------------------------
  // validateBookingForm

  /**
   * The booking form. `parsedDate` is what `new Date(date)` gives in milliseconds,
   * `None` for an invalid date; `today` is local midnight of the current day.
   */
  datatype BookingForm = BookingForm(movieId: string, date: string, parsedDate: Option<int>, time: string, seats: int)

  const MovieNotSelected: string := "Movie selection is required"
  const DateNotValid: string := "Please select a valid future date"
  const TimeNotSelected: string := "Please select a showtime"
  const SeatsOutOfRange: string := "Please select between 1 and 10 seats"

  const BookingMessages: seq<string> := [MovieNotSelected, DateNotValid, TimeNotSelected, SeatsOutOfRange]

  /**
   * Which of the four booking-form checks fail. An invalid date compares as not
   * earlier than today, so only an empty or past date fails the date check.
   */
  function BookingChecksFailed(d: BookingForm, today: int): (failing: seq<bool>)
    ensures |failing| == |BookingMessages|
  {
    [Missing(d.movieId),
     Missing(d.date) || (d.parsedDate.Some? && d.parsedDate.value < today),
     Missing(d.time),
     d.seats < 1 || d.seats > 10]
  }

  lemma BookingMessagesDistinct()
    ensures Distinct(BookingMessages)
  {
  }

  /** `validateBookingForm`: one message per failed check, in check order; valid exactly when none fails. */
  method ValidateBookingForm(d: BookingForm, today: int) returns (valid: bool, errors: seq<string>)
    ensures errors == Failed(BookingChecksFailed(d, today), BookingMessages)
    ensures valid <==> errors == []
  {
    ghost var failing := BookingChecksFailed(d, today);
    errors := [];
    var k: nat := 0;
    errors := PushIfFailed(errors, Missing(d.movieId), failing, BookingMessages, k);
    k := k + 1;
    errors := PushIfFailed(errors, Missing(d.date) || (d.parsedDate.Some? && d.parsedDate.value < today), failing, BookingMessages, k);
    k := k + 1;
    errors := PushIfFailed(errors, Missing(d.time), failing, BookingMessages, k);
    k := k + 1;
    errors := PushIfFailed(errors, d.seats < 1 || d.seats > 10, failing, BookingMessages, k);
    k := k + 1;
    valid := |errors| == 0;
  }

  /**
   * The booking-form errors name each failed check once, in check order; none means a
   * movie, a time, 1 to 10 seats and a date that is not known to be in the past.
   */
  lemma BookingErrorsMeaning(d: BookingForm, today: int)
    ensures var errors := Failed(BookingChecksFailed(d, today), BookingMessages);
      Seqs.IsSubsequence(errors, BookingMessages) &&
      (forall i :: 0 <= i < |BookingMessages| ==> (BookingMessages[i] in errors <==> BookingChecksFailed(d, today)[i])) &&
      (errors == [] <==> !Missing(d.movieId) && !Missing(d.date) && !Missing(d.time) && 1 <= d.seats <= 10 &&
                         (d.parsedDate.Some? ==> d.parsedDate.value >= today))
  {
    var f := BookingChecksFailed(d, today);
    BookingMessagesDistinct();
    FailedFacts(f, BookingMessages);
    assert (forall i :: 0 <= i < |f| ==> !f[i]) <==> !f[0] && !f[1] && !f[2] && !f[3];
  }

  /** A date that is present but does not parse is not reported: `NaN < today` is false. */
  lemma UnparseableDatePasses(d: BookingForm, today: int)
    requires !Missing(d.movieId) && !Missing(d.time) && 1 <= d.seats <= 10
    requires !Missing(d.date) && d.parsedDate.None?
    ensures Failed(BookingChecksFailed(d, today), BookingMessages) == []
  {
    BookingErrorsMeaning(d, today);
  }

}
