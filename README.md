# Film booking: a verified model of the booking path, sessions and credentials

This project models the server and client logic of a small cinema-booking web site in
Dafny:

- the booking endpoint (`POST /api/book`): its guards, the snack charge it computes, and
  the booking and snack line items it stores;
- the store behind it: users, admins, movies, screenings, bookings, snacks, booking line
  items and sessions, together with the demo data seeded on first use;
- cookie sessions: parsing the `Cookie` header, issuing, resolving and revoking sessions,
  and the sign-in gate;
- credentials: the salt-then-key Base64 password blob, its check, and URL-safe session
  tokens;
- the form validators, and the register and login handlers built on them;
- the movie list's search and genre filter;
- the booking form in the browser: seat and snack steppers, the live total, the submit
  guards and the request it sends;
- the running-time text on a movie card.

## Modules

| module | file | models |
|---|---|---|
| `Wrappers` | wrappers.dfy | `Option` |
| `Types` | types.dfy | the records of `types/database.ts` |
| `Text` | text.dfy | JavaScript `trim`, `split`, `includes`, `length` in UTF-16 code units, and decimal number text |
| `Seqs` | seqs.dfy | `Array.filter`, `Array.find`, and order-preserving subsequences |
| `Base64` | base64.dfy | `btoa`/`atob` (section 4 of RFC 4648, with the forgiving decoder of `atob`) |
| `Crypto` | crypto.dfy | `utils/crypto.ts` |
| `Store` | store.dfy | the collection queries and updates that the store's methods share |
| `Database` | database.dfy | `utils/database.ts`: the class `MongoDatabase` |
| `Http` | http.dfy | responses, as status, location, set-cookie header and body |
| `Session` | session.dfy | `utils/session.ts` |
| `Validation` | validation.dfy | `utils/validation.ts` |
| `BookApi` | book_api.dfy | `routes/api/book.ts` |
| `Register` | register.dfy | `routes/register.tsx` (handlers only) |
| `Login` | login.dfy | `routes/login.tsx` (handlers only) |
| `Movies` | movies.dfy | the filtering in `routes/movies.tsx` |
| `BookingForm` | booking_form.dfy | the state and handlers of `islands/BookingForm.tsx` |
| `MovieCard` | movie_card.dfy | `formatDuration` in `components/MovieCard.tsx` |

How the model represents the system:

- The store is one object whose collections are sequences. `findOne` takes the first
  match, `insertOne` appends, `deleteOne` removes the first match, and `$inc` changes the
  first screening with the id.
- Ids come from a counter that is rendered as decimal text. A ghost set records every id
  issued so far, so fresh ids can be proved distinct from older ones.
- The clock is the integer parameter `now`, in milliseconds. The booking validator gets
  `today` and the already-parsed date as parameters.
- Random bytes (the salt and token bytes) are method parameters. The key-derivation
  function is a function-valued field of the store, read as an abstract deterministic
  function that yields 32 bytes.
- Money is exact `real`. `Math.round` is `floor(x + 0.5)`.
- Strings are sequences of Unicode scalar values. JavaScript's `length` counts UTF-16
  code units, so every length rule uses `Utf16Length`, which counts a character above
  U+FFFF as two.
- `toLowerCase` is JavaScript's full Unicode case mapping. The movie filters take it as
  the function parameter `lower`, and their properties hold for any such function.

Two behaviours of the code are worth stating plainly:

- The server stores the client's `total_amount` as sent (routes/api/book.ts:72). It
  recomputes only `snacks_total`, and only over snacks that are on sale.
- The client rounds the total once, on the aggregate (islands/BookingForm.tsx:58). It
  does not round per ticket.

## Model

| member | source | states |
|---|---|---|
| BookApi.Post | routes/api/book.ts:15-97 | With the guards' verdict on the resolved user, body and screenings: a refusal returns that response and leaves bookings, screenings, line items and ids untouched. Otherwise the response is 200 with the fresh booking id, one confirmed booking is appended, only that screening loses the seats, and the snack line items are appended. The session list becomes `SessionsAfterLookup` of the request. |
| BookApi.Guard | routes/api/book.ts:17-52 | The early-return guards, run against the store, give exactly the verdict of `Admit`. |
| BookApi.Admit | routes/api/book.ts:17-52 | An admitted request has a truthy user, a screening id, at least one seat, a screening with that id, and no more seats than it has free. Every refusal is 401, 400, 404 or 500. |
| BookApi.AdmitOrder | routes/api/book.ts:17-52 | The checks run in order: no user gives 401; an unreadable body gives 500; a missing id or fewer than one seat gives 400; an unknown screening gives 404. |
| BookApi.AdmitTooManySeats | routes/api/book.ts:45-52 | Asking for more seats than are free gives 400 with "Only N seats available", where N is the screening's free seats. |
| BookApi.AdmitAccepts | routes/api/book.ts:28-52 | A well-formed request within availability is admitted, with the screening it names. |
| BookApi.Book | routes/api/book.ts:54-88 | On the success path, the booking gets the next fresh id and is confirmed. Its total is the client's value, and its snack total is computed over on-sale snacks. The screening's free seats drop by the seats booked, and the store's invariant is kept: exact seat inventory, distinct screening ids, issued ids. |
| BookApi.RequestSnacksTotal | routes/api/book.ts:55-64 | The snack charge is 0 for an empty list. Otherwise it is the sum over the request of price times quantity, using the on-sale catalogue. |
| BookApi.SumSnacks | routes/api/book.ts:58-63 | The loop's running total equals `SnacksTotal` of the items. |
| BookApi.SnackCharge | routes/api/book.ts:59-62 | An item whose snack is not on sale adds nothing. |
| BookApi.SnacksTotalAppend | routes/api/book.ts:58-63 | The snack total is additive over concatenation of requests. |
| BookApi.SnacksTotalUnknown | routes/api/book.ts:59-62 | A request naming only unknown snacks costs nothing. |
| BookApi.SnacksTotalNonnegative | routes/api/book.ts:58-63 | With prices and quantities that are not negative, the snack total is not negative. |
| BookApi.SnacksTotalRepeated | routes/api/book.ts:58-63 | A duplicated item is charged twice. Duplicates are not merged or rejected. |
| BookApi.OffSaleSnackListedButNotCharged | routes/api/book.ts:57-78 | A snack that exists but is off sale adds nothing to `snacks_total`, yet still gets a priced line item. |
| BookApi.AddLineItems | routes/api/book.ts:77-79 | Line items are added, in request order, only when the request lists snacks. |
| BookApi.BookingFor | routes/api/book.ts:67-74 | The stored booking carries the user, screening and seats, status `confirmed`, the client's total unchanged, and the recomputed snack total. |
| Database.MongoDatabase.constructor | utils/database.ts:18-23 | A new store is empty and not yet initialised. |
| Database.MongoDatabase.GenerateId | utils/crypto.ts:102-104 | Each call yields an id never issued before and records it as issued. |
| Database.MongoDatabase.CreateUser | utils/database.ts:174-191 | Appends one user with a fresh id and the given fields. The stored password is the Base64 blob of salt then key, and it verifies against the password given. A new user name then authenticates to this user. |
| Database.MongoDatabase.AuthenticateUser | utils/database.ts:193-200 | Answers null when no user has the name. Otherwise it answers the first user with the name, and does so exactly when the password verifies against that user's blob. |
| Database.MongoDatabase.GetUserByUsername | utils/database.ts:202-205 | Null exactly when no user has the name; otherwise a stored user with that name. |
| Database.MongoDatabase.GetUserByEmail | utils/database.ts:207-210 | Null exactly when no user has the e-mail; otherwise a stored user with that e-mail. |
| Database.MongoDatabase.AuthenticateAdmin | utils/database.ts:304-311 | The same decision as for users, over admins: the answer, when there is one, is the first admin with the name, and it comes exactly when the password verifies against that admin's blob. |
| Database.MongoDatabase.GetMovies | utils/database.ts:213-216 | All movies, in stored order. |
| Database.MongoDatabase.GetScreeningsByMovieId | utils/database.ts:236-239 | An order-preserving subsequence of the screenings, holding exactly those of the movie. |
| Database.MongoDatabase.GetScreeningById | utils/database.ts:241-244 | Null exactly when no screening has the id; otherwise the first one with it. |
| Database.MongoDatabase.GetMoviesWithScreenings | utils/database.ts:223-233 | One entry per movie, in order, each carrying that movie's screenings. |
| Database.MongoDatabase.CreateBooking | utils/database.ts:247-267 | Appends the booking under a fresh id and subtracts its seats from the first screening with the id. There is no availability check, and nothing else changes. The inventory invariant is kept when the seats fit. |
| Database.MongoDatabase.GetSnacks | utils/database.ts:275-278 | An order-preserving subsequence of the catalogue, holding exactly the snacks that are on sale. |
| Database.MongoDatabase.AddBookingSnacks | utils/database.ts:280-301 | Appends one line item per request item whose snack exists, in order. Each carries the quantity and the catalogue price at call time. |
| Database.MongoDatabase.CreateSession | utils/database.ts:314-320 | Appends (token, user, now + 24 h) and keeps the user's other sessions. |
| Database.MongoDatabase.GetSession | utils/database.ts:322-334 | Returns nothing for an unknown token. A record that expired strictly before `now` is deleted and not returned. Otherwise the record is returned, even when it expires exactly at `now`. |
| Database.MongoDatabase.DeleteSession | utils/database.ts:336-339 | Removes the first record with the token; an unknown token changes nothing. |
| Database.MongoDatabase.InitializeDefaultData | utils/database.ts:25-170 | Runs once. It seeds the admin, movies and snacks only into empty collections, and keeps existing screenings as a prefix. On first use with no movies, the movies are the sample movies under the ids issued right after the admin's, and screening number (m·7 + d)·5 + t after the old ones is movie m's screening on day d at show time t, under the id issued in that order, with 100 of 100 seats and the time's price modifier. With no snacks, the snacks are the sample snacks in order, under the next ids, all on sale. No seeded id was issued before. |
| Database.MongoDatabase.SeedAdmin | utils/database.ts:30-45 | Adds the default admin, with a verifying password blob, only when no admin has that name. |
| Database.MongoDatabase.SeedMovies | utils/database.ts:47-139 | Only when there are no movies: the movies become the three sample movies under the next three ids, followed by their screening plan; otherwise movies and screenings are unchanged. The new screening ids were never issued before. |
| Database.MongoDatabase.SeedSampleMovies | utils/database.ts:47-139 | Into an empty movie collection: the three sample movies under the next three ids, then their screening plan under the ids after those, appended to the old screenings; no new id was issued before. |
| Database.MongoDatabase.GenerateIds | utils/database.ts:55-89 | Consecutive `generateId` calls hand out the supply's next names in order, and the counter advances by the number of calls. |
| Database.MongoDatabase.SeedScreenings | utils/database.ts:111-137 | Appends seven days times five show times per movie, keeping the old screenings as a prefix. The screening at offset (m·7 + d)·5 + t is movie m's on day d at show time t, carries the id issued at that step, has 100 free of 100 seats and the time's price modifier; no such id was issued before. |
| Database.MongoDatabase.SeedSnacks | utils/database.ts:141-164 | Only when there are no snacks: the snacks become the five sample snacks in order, the k-th under the k-th next id, all on sale, with ids never issued before; otherwise the snacks are unchanged. |
| Database.MongoDatabase.SeedCatalogue | utils/database.ts:47-164 | Movies with their screenings, then snacks, each only into an empty collection; the snack ids follow the ids the movie seeding used. |
| Database.MongoDatabase.SeedMovieDays | utils/database.ts:116-134 | The loop over the seven days of one movie extends the screening plan by that movie's 35 slots, each under the next id. |
| Database.MongoDatabase.SeedDayTimes | utils/database.ts:121-132 | The loop over the five show times of one day extends the screening plan by that day's five slots, each under the next id. |
| Database.PriceModifierFor | utils/database.ts:130 | The modifier is 1.2 exactly for 19:00 and 22:00, and 1.0 otherwise. |
| Database.SampleMovies | utils/database.ts:53-106 | One seeded movie per given id, in order, carrying that id. |
| Database.SampleSnack | utils/database.ts:148-162 | A seeded snack has the id given and is on sale. |
| Database.SampleSnacks | utils/database.ts:141-164 | The sample snacks in order, the k-th under the k-th given id, all on sale. |
| Database.FreshIds | utils/database.ts:141-164 | The k-th id handed out after counter n is the one the supply issues for n + k. |
| Database.NotIssuedYet | utils/database.ts:124 | An id the supply has yet to reach was never issued. |
| Database.SeededScreening | utils/database.ts:122-131 | A seeded screening has the movie, date, show time and id given, 100 of 100 seats and the time's price modifier. |
| Database.SlotInjective | utils/database.ts:116-134 | Distinct (movie, day, show time) triples land at distinct positions of the seeded list. |
| Database.PlanStep | utils/database.ts:121-132 | Appending the next slot's screening extends the screening plan. |
| Database.SeedingStep | utils/database.ts:121-132 | One more generated id and screening keeps the seeding invariant: the plan so far, fresh ids, and the counter in step. |
| Database.FreshAdditionsKeepInventory | utils/database.ts:113-137 | Adding screenings under ids never issued keeps the inventory invariant and distinct screening ids. |
| Database.NewUserFoundByName | utils/database.ts:189-200 | A user appended under an unused name is the one found by that name. |
| Database.NewAdminFoundByName | utils/database.ts:304-311 | The same, for admins. |
| Store.DecrementFirstEffect | utils/database.ts:259-264 | `$inc` changes only the first screening with the id, by minus the seats. An unknown id changes nothing. |
| Store.BookingKeepsInventory | utils/database.ts:247-267 | Booking at most the free seats keeps 0 ≤ free ≤ total, and keeps total − free equal to the seats booked for each screening. |
| Store.FreshScreeningsKeepInventory | utils/database.ts:128-129 | Screenings added with free = total and no bookings keep the invariant. |
| Store.SeatsBookedUnreferenced | utils/database.ts:247-267 | A screening no booking names has no seats booked. |
| Store.OnSale | utils/database.ts:275-278 | No more snacks than the catalogue, and every one of them is on sale. |
| Store.OnSaleExact | utils/database.ts:275-278 | The on-sale filter is an order-preserving subsequence, holding exactly the snacks that are on sale. |
| Store.LineFor | utils/database.ts:287-295 | A request item yields one line item when its snack exists, with the catalogue price, and none otherwise. |
| Store.LineItems | utils/database.ts:286-296 | At most one line item per request entry, exactly one when every entry's snack exists, and each carries the booking id. |
| Store.LineItemsPriced | utils/database.ts:286-296 | Every line item carries the booking id and a catalogue snack's price. |
| Store.LineItemsOnePerKnownItem | utils/database.ts:286-296 | When every item exists, there is one line item per item, in order, with the same id and quantity. |
| Store.LineItemsSkipUnknown | utils/database.ts:287 | Items whose snack does not exist yield no line items. |
| Store.LookupSession | utils/database.ts:322-334 | An unknown token gives nothing. For a known token, the first record with it is returned exactly when it has not expired before `now`. |
| Store.RemoveSession | utils/database.ts:336-339 | Removes exactly the first record with the token, and nothing for an unknown token. |
| Store.IssuedSessionLifetime | utils/database.ts:314-334 | A new session resolves to its user until 24 h after issue, and not after. |
| Store.RemoveThenLookup | utils/database.ts:336-339 | With distinct tokens, a deleted token no longer resolves. |
| Session.GetSessionFromRequest | utils/session.ts:8-19 | No cookie header gives no token, and an empty value gives no token. |
| Session.ParseCookie | utils/session.ts:12-16 | A trimmed part splits into a name without `=` and an optional value without `=`. The value is missing exactly when the part has no `=`. |
| Session.CookiePairParses | utils/session.ts:12-16 | `name=value` parses to that name and value. |
| Session.CookieValueStopsAtEquals | utils/session.ts:14-15 | Text after a second `=` is dropped. |
| Session.LastCookieWins | utils/session.ts:12-16 | Of several cookies with one name, the last one's value is kept. |
| Session.AbsentCookie | utils/session.ts:12-16 | A name no part carries is absent from the parsed cookies. |
| Session.SessionTokenIsLastCookie | utils/session.ts:8-19 | The token read is the value of the last `session_token` cookie, when that value is non-empty. |
| Session.NoSessionCookie | utils/session.ts:8-19 | A header without `session_token` gives no token. |
| Session.CookieJar | utils/session.ts:12-16 | Every part's cookie name is in the parsed cookies, and no name there holds `=`. |
| Session.ResolveUser | utils/session.ts:21-29 | No token, or no record for it, gives no one. Otherwise the user is that of the first record for the token, exactly when it has not expired before `now`. |
| Session.SessionsAfterLookup | utils/session.ts:21-29 | A lookup deletes at most one record. The list is unchanged when the request has no token or resolves to a user. |
| Session.GetCurrentUser | utils/session.ts:21-29 | Returns the user of the request's unexpired session, and null otherwise. The session list becomes `SessionsAfterLookup` of the request. |
| Session.CreateSessionResponse | utils/session.ts:31-43 | Stores a new session for the user, and keeps the response while adding the session cookie. The cookie then resolves to that user. |
| Session.SessionCookie | utils/session.ts:36 | The set-cookie header starts with `session_token=<token>`. |
| Session.PairNamesValue | utils/session.ts:8-19 | The header `session_token=v` gives the token `v`, or nothing when `v` is empty. |
| Session.SessionCookieRoundTrip | utils/session.ts:8-43 | The cookie pair set for a generated token reads back as that token. |
| Session.ClearedCookieHasNoSession | utils/session.ts:52 | The cleared cookie carries no session. |
| Session.DestroySessionResponse | utils/session.ts:45-59 | Deletes the request's session only when it carries a token. It always sets the empty cookie with `Max-Age=0`. |
| Session.DestroyedSessionResolvesToNoOne | utils/session.ts:45-59 | After sign-out, with distinct tokens, the same cookie resolves to no one. |
| Session.LoginCookieLifetime | utils/session.ts:31-43 | The cookie of a new session resolves to its user for 24 h. |
| Session.RequireAuth | utils/session.ts:61-70 | Without a signed-in user it gives a 302 to `/login`; with one it gives that user. The session list becomes `SessionsAfterLookup` of the request. |
| Crypto.HashPassword | utils/crypto.ts:6-44 | The blob is the Base64 of the 16-byte salt followed by the 32-byte key. It is 64 characters long and verifies against the same password. |
| Crypto.SaltOf | utils/crypto.ts:54 | The salt is the first 16 bytes, or all of them when there are fewer. |
| Crypto.StoredHashOf | utils/crypto.ts:55 | Salt followed by stored hash is the decoded blob. |
| Crypto.VerifyPassword | utils/crypto.ts:46-91 | Verifies only blobs that decode. Malformed Base64 gives false, not an error. |
| Crypto.VerifyIsPrefixTest | utils/crypto.ts:54-87 | A decodable blob verifies exactly when the derived key matches the start of the bytes after the salt. Extra stored bytes are ignored, and a shorter stored hash fails. |
| Crypto.HashThenVerify | utils/crypto.ts:46-91 | A salt-then-hash blob verifies a candidate exactly when the candidate's key is a prefix of the stored hash. |
| Crypto.VerifyHashedPassword | utils/crypto.ts:6-91 | The password that made a blob verifies against it. |
| Crypto.VerifiedBlobLength | utils/crypto.ts:46-91 | A blob that verifies decodes to at least 48 bytes. |
| Crypto.SessionToken | utils/crypto.ts:93-100 | The token has no `+`, `/` or `=`. |
| Crypto.SessionTokenIsUrlSafeEncoding | utils/crypto.ts:96-99 | The token is the unpadded Base64 with `+` mapped to `-` and `/` to `_`. |
| Crypto.SessionTokenDecodes | utils/crypto.ts:93-100 | Mapping the token back to the standard alphabet and decoding gives the random bytes. |
| Crypto.SessionTokenAlphabet | utils/crypto.ts:93-100 | Every character of the token is a letter, a digit, `-` or `_`. |
| Crypto.SessionTokenInjective | utils/crypto.ts:93-100 | Different random bytes give different tokens. |
| Crypto.SessionTokenLength | utils/crypto.ts:94-100 | A token from 32 bytes has 43 characters. |
| Crypto.ReplaceAll | utils/crypto.ts:97-98 | Replaces every occurrence of one character and keeps the rest, position by position. |
| Crypto.RemoveAll | utils/crypto.ts:99 | Drops every occurrence of the character and keeps all other characters. |
| Crypto.FreshId | utils/crypto.ts:102-104 | Ids are non-empty text. |
| Crypto.FreshIdInjective | utils/crypto.ts:102-104 | Different counters give different ids. |
| Base64.DecodeEncode | utils/crypto.ts:43-51 | Decoding the padded encoding gives back the bytes. |
| Base64.DecodeUnpaddedText | utils/crypto.ts:96-99 | Decoding the unpadded encoding gives back the bytes too. |
| Base64.UnpaddedRoundTrip | utils/crypto.ts:43-51 | The group decoder inverts the group encoder on every byte sequence. |
| Base64.EncodedLength | utils/crypto.ts:96-99 | The unpadded text of n bytes has ⌈4n/3⌉ characters. |
| Base64.Encode | utils/crypto.ts:43 | The padded encoding's length is a multiple of four. |
| Base64.EncodeUnpadded | utils/crypto.ts:43 | Every character is in the alphabet, and the length mod 4 follows the byte count mod 3. |
| Base64.Decode | utils/crypto.ts:49-51 | Decoded bytes are never more than the text's characters. |
| Base64.StripEncoding | utils/crypto.ts:99 | Removing the padding from the padded encoding gives the unpadded encoding. |
| Base64.GroupRoundTrip | utils/crypto.ts:43-51 | Three bytes survive the four-character group. |
| Base64.Tail1RoundTrip | utils/crypto.ts:43-51 | One trailing byte survives its two characters. |
| Base64.Tail2RoundTrip | utils/crypto.ts:43-51 | Two trailing bytes survive their three characters. |
| Base64.CharOf | utils/crypto.ts:43 | Every sextet has an alphabet character, which decodes back to it and is never `=`. |
| Validation.ValidateEmail | utils/validation.ts:3-6 | An accepted address contains `@` and no whitespace. |
| Validation.ValidateEmailMatchesPattern | utils/validation.ts:3-6 | Accepted exactly when it is a@b.c with a, b and c non-empty and free of whitespace and `@`. |
| Validation.AcceptedEmailMatches | utils/validation.ts:3-6 | Every accepted address has that shape. |
| Validation.MatchingEmailAccepted | utils/validation.ts:3-6 | Every address of that shape is accepted. |
| Validation.ValidatePhone | utils/validation.ts:8-11 | An accepted number has 10 to 16 characters. |
| Validation.ValidatePhoneMatchesPattern | utils/validation.ts:8-11 | Accepted exactly when it is an optional `+` and then 10 to 15 characters from digits, whitespace, `-`, `(` and `)`. |
| Validation.SanitizeString | utils/validation.ts:47-49 | The result has none of `< > " ' &`, is a subsequence of the input, and is no longer. |
| Validation.ValidUsernameIsSanitized | utils/validation.ts:42-49 | A valid user name passes through the sanitiser unchanged. |
| Validation.ValidateUsername | utils/validation.ts:42-45 | An accepted name has 3 to 20 UTF-16 code units and holds no markup character and no white space. |
| Validation.ValidatePassword | utils/validation.ts:13-40 | The errors are the messages of the failing rules in rule order, and the password is valid exactly when there are none. The length rule counts UTF-16 code units. |
| Validation.LengthRuleCountsCodeUnits | utils/validation.ts:16 | A password of four ASCII characters and two emoji is 6 characters long but passes the 8-unit length rule. |
| Validation.PasswordErrorsMeaning | utils/validation.ts:13-40 | At most five errors, in rule order. Each message appears exactly when its rule fails, and there are none exactly when every rule holds. |
| Validation.ValidateMovieForm | utils/validation.ts:51-99 | The errors are the messages of the failing checks in check order, and the form is valid exactly when there are none. |
| Validation.MovieChecksHead | utils/validation.ts:63-77 | The first four checks: name, language, genre and the ratings range. |
| Validation.MovieChecksTail | utils/validation.ts:79-93 | The last four checks: description, price, duration and age rating. |
| Validation.MovieErrorsMeaning | utils/validation.ts:63-98 | Each movie message appears exactly when its check fails, and the form is valid exactly when all checks hold. |
| Validation.ValidateBookingForm | utils/validation.ts:101-133 | The errors are the messages of the failing checks, and the form is valid exactly when there are none. |
| Validation.BookingErrorsMeaning | utils/validation.ts:109-127 | The form is rejected for an empty movie, an empty date or a date before today, an empty time, and seats outside 1 to 10; each message appears exactly when its check fails. A non-empty date that does not parse passes the date check, since an invalid date never compares as earlier than today. |
| Validation.UnparseableDatePasses | utils/validation.ts:113-117 | A present date that does not parse draws no error: with the other fields fine the form passes. |
| Validation.FailedFacts | utils/validation.ts:13-40 | The collected errors are an order-preserving subsequence of the messages. Each message appears exactly when its check fails, and the list is empty exactly when all checks hold. |
| Validation.PushIfFailed | utils/validation.ts:16-37 | An `if (...) errors.push(m)` step appends the message exactly when its check fails. |
| Register.Post | routes/register.tsx:31-109 | With errors, it renders the first one with the cleaned form and stores nothing. Otherwise it creates one user from the cleaned form, who can log in with the password given, and signs them in with a 302 to `/`. Accounts stay unique by name and by e-mail. |
| Register.CreateAccount | routes/register.tsx:86-102 | Creates the user and signs them in with a new session and a 302 to `/`. |
| Register.RegisterErrors | routes/register.tsx:43-77 | A password mismatch, a taken user name and a taken e-mail each put their message in the list. |
| Register.FirstRegisterError | routes/register.tsx:43-84 | A failing field check is reported first. There is no error exactly when every field, password, mismatch and account check passes. |
| Register.CollectErrors | routes/register.tsx:43-77 | The errors collected are exactly the ordered list of field, password, mismatch and taken-account failures. |
| Register.CheckFields | routes/register.tsx:45-59 | The field checks, in order: full name, user name, e-mail, phone. |
| Register.AddPasswordErrors | routes/register.tsx:61-64 | Appends all of the password rules' messages, in rule order. |
| Register.AddAccountErrors | routes/register.tsx:66-77 | Appends the mismatch, then name taken, then e-mail taken. |
| Register.ShownErrorIsFirstFailure | routes/register.tsx:43-84 | There are no errors exactly when no check fails, and the error shown is the first failing check in the fixed order. |
| Register.AccountErrorsHead | routes/register.tsx:66-77 | The account checks add nothing exactly when the passwords match and neither name nor e-mail is taken. They keep an earlier first error, and otherwise start with the first account check that fails. |
| Register.AcceptedFormIsUnused | routes/register.tsx:70-88 | A form that produces no errors names an unused user name and an unused e-mail. |
| Register.AddingUnusedKeepsUnique | routes/register.tsx:70-94 | Adding a user whose name and e-mail are unused keeps accounts unique. |
| Register.SanitizeForm | routes/register.tsx:33-40 | Name, user name, e-mail and phone lose their markup characters; the two password fields are unchanged. |
| Register.FirstBrokenRule | utils/validation.ts:13-40 | The first broken password rule is absent exactly when all five rules hold, the length counted in UTF-16 code units. |
| Register.FieldErrorsHead | routes/register.tsx:45-59 | The field errors are empty exactly when no field check fails, and they start with the first failing one. |
| Register.PasswordErrorsHead | routes/register.tsx:61-64 | The password errors start with the first broken rule. |
| Register.Get | routes/register.tsx:18-29 | A signed-in visitor is sent to `/`; anyone else gets the empty form. The session list becomes `SessionsAfterLookup` of the request. |
| Login.Post | routes/login.tsx:29-65 | A refusal renders its message and echoes the user name, and stores no session. Success stores a session for the user and sends a 302 to `/` with the cookie, which then names that user. |
| Login.Decide | routes/login.tsx:35-56 | Sign-in happens only with both fields filled, a valid user name, and a stored user with that name whose password verifies. Every refusal is one of the three messages. |
| Login.EmptyFieldComesFirst | routes/login.tsx:35-40 | An empty field gives "Please fill in all fields", whatever else holds. |
| Login.MalformedNameNotAuthenticated | routes/login.tsx:42-47 | A malformed name is refused with the format message, whatever the store holds. |
| Login.DecisionIsAuthentication | routes/login.tsx:50-56 | With well-formed input, refusal with the credentials message happens exactly when authentication fails; otherwise the authenticated user signs in. |
| Login.UnknownNameRefused | routes/login.tsx:50-56 | An unknown user name is refused with the credentials message. |
| Login.Get | routes/login.tsx:16-27 | A signed-in visitor is sent to `/`; anyone else gets the empty form. The session list becomes `SessionsAfterLookup` of the request. |
| Movies.Param | routes/movies.tsx:25-26 | An empty parameter counts as absent. |
| Movies.ListIsFilteredSubsequence | routes/movies.tsx:28-44 | The list is an order-preserving subsequence of all movies, holding exactly those that pass the active filters under the case mapping `lower`. |
| Movies.NoFilterListsAll | routes/movies.tsx:28-44 | With neither filter, every movie is listed, in order. |
| Movies.SearchIgnoresCase | routes/movies.tsx:31-37 | Two queries that agree after the case mapping `lower` list the same movies, for any case mapping. |
| BookingForm.Form.constructor | islands/BookingForm.tsx:21-26 | A new form has no date or time, one seat, no snacks and no error. |
| BookingForm.Form.SelectDate | islands/BookingForm.tsx:138-141 | Choosing a date clears the chosen time. |
| BookingForm.Form.SelectTime | islands/BookingForm.tsx:164-165 | Choosing an enabled show sets its time, and the selected screening is then the first show at that time, as `find` gives it. |
| BookingForm.Form.DecreaseSeats | islands/BookingForm.tsx:196 | The seat count steps down, but not below 1, and the form stays consistent. |
| BookingForm.Form.IncreaseSeats | islands/BookingForm.tsx:204 | The seat count steps up, capped by the screening's free seats, or by 10 when that is 0 or there is no screening. |
| BookingForm.Form.DecreaseSnack | islands/BookingForm.tsx:230 | Only that snack's quantity changes, stepping down to no less than 0. |
| BookingForm.Form.IncreaseSnack | islands/BookingForm.tsx:240 | Only that snack's quantity changes, stepping up to no more than 10. |
| BookingForm.Form.CalculateTotal | islands/BookingForm.tsx:40-59 | The total is the rounded sum of the ticket part and the snack sum. |
| BookingForm.Form.Submit | islands/BookingForm.tsx:61-90 | Blocks with the first failing guard's message and sends nothing. Otherwise it clears the error and sends the screening, the seats, the positive snack entries and the total. |
| BookingForm.ClientSnackSum | islands/BookingForm.tsx:51-56 | When no entry has a positive quantity, the snack sum is 0. |
| BookingForm.ClientSnackSumNonnegative | islands/BookingForm.tsx:51-56 | With prices that are not negative, the snack sum is not negative, whatever the quantities. |
| BookingForm.AddSnacks | islands/BookingForm.tsx:51-56 | The loop adds exactly the snack sum to its running total. |
| BookingForm.SeatsDown | islands/BookingForm.tsx:196 | The result is at least 1 and no more than the count before. |
| BookingForm.SeatCap | islands/BookingForm.tsx:204 | The cap is the free seats when non-zero, else 10. |
| BookingForm.SeatsUp | islands/BookingForm.tsx:204 | The result is one more than before, or the cap, whichever is smaller. |
| BookingForm.SnackDown | islands/BookingForm.tsx:230 | Never negative; one less when the quantity is at least 1. |
| BookingForm.SnackUp | islands/BookingForm.tsx:240 | Never more than 10; one more when below 10. |
| BookingForm.SnackSteppersStayInRange | islands/BookingForm.tsx:230-240 | From a quantity in 0 to 10, both steppers stay in 0 to 10 and move by at most one. |
| BookingForm.SeatSteppersKeepOne | islands/BookingForm.tsx:196-204 | The steppers keep at least one seat and stay under the cap. |
| BookingForm.KeyIndex | islands/BookingForm.tsx:24 | Finds the first entry for a snack; absent exactly when no entry has it. |
| BookingForm.Quantity | islands/BookingForm.tsx:230-240 | A snack without an entry counts as 0. |
| BookingForm.SetQuantity | islands/BookingForm.tsx:33-38 | At most one entry is added. |
| BookingForm.SetQuantityEffect | islands/BookingForm.tsx:33-38 | The snack now reads the new quantity and every other snack keeps its own. Keys keep their order, and a new key is appended. |
| BookingForm.SetQuantityKeepsRecord | islands/BookingForm.tsx:33-38 | Setting a quantity in 0 to 10 keeps keys distinct and quantities in range. |
| BookingForm.EntryCharge | islands/BookingForm.tsx:51-56 | An unknown snack or a quantity of 0 or less adds nothing. |
| BookingForm.TicketPart | islands/BookingForm.tsx:44-48 | With no screening selected, tickets add nothing. |
| BookingForm.Round | islands/BookingForm.tsx:58 | The result is the integer nearest the total, with halves rounded up. |
| BookingForm.TotalOf | islands/BookingForm.tsx:40-59 | The total is within one half of tickets plus snacks, so it is rounded once, on the aggregate. |
| BookingForm.Payload | islands/BookingForm.tsx:86-88 | Every sent entry has a positive quantity. |
| BookingForm.PayloadIsPositiveEntries | islands/BookingForm.tsx:86-88 | The sent snacks are an order-preserving subsequence holding exactly the entries with a positive quantity. |
| BookingForm.ClientSnacksMatchServer | islands/BookingForm.tsx:51-56 | The client's snack sum equals the server's snack total of the payload over the same catalogue. |
| BookingForm.SubmitOutcome | islands/BookingForm.tsx:64-90 | A request is sent exactly when date, time and seats are set and a screening matches with enough free seats. The request carries that screening, the seats and the total. |
| BookingForm.SubmitGuardOrder | islands/BookingForm.tsx:64-77 | The guards fire in order with their messages: missing selection, unknown screening, too many seats. |
| BookingForm.SentRequestIsAdmitted | islands/BookingForm.tsx:61-90 | A sent request from a signed-in user passes the server's guards when the server holds the same screening. The server's snack total then equals the client's snack sum. |
| BookingForm.ScreeningAt | islands/BookingForm.tsx:31 | Finds a show at the chosen time; absent exactly when none has it. |
| MovieCard.FormatDuration | components/MovieCard.tsx:12-16 | The text always ends in "m". |
| MovieCard.Hours | components/MovieCard.tsx:13 | The hours are the floor of minutes over 60. |
| MovieCard.JsRemainder | components/MovieCard.tsx:14 | The remainder has the sign of the minutes, is below 60 in size, and differs from the minutes by a multiple of 60. |
| MovieCard.DurationSplits | components/MovieCard.tsx:13-14 | For non-negative minutes: hours × 60 + minutes = total, and 0 ≤ minutes < 60. |
| MovieCard.HoursShape | components/MovieCard.tsx:15 | From 60 minutes on, the text is "Hh Mm". |
| MovieCard.MinutesShape | components/MovieCard.tsx:15 | Below an hour, the text is "Mm". |
| MovieCard.NegativeShape | components/MovieCard.tsx:13-15 | A negative time shows only its signed remainder. |
| MovieCard.FormatDurationInjective | components/MovieCard.tsx:12-16 | Different non-negative times give different texts. |
| Text.SplitJoin | utils/session.ts:12 | Splitting on a separator and joining back gives the original string. |
| Seqs.FilterIsExact | routes/movies.tsx:32-36 | `filter` keeps an order-preserving subsequence holding exactly the elements that pass. |
| Seqs.FilterCounts | routes/movies.tsx:32-36 | `filter` keeps each passing element as many times as the input has it, and drops every other. |
| Text.Utf16Length | utils/validation.ts:16 | The UTF-16 length is between the number of characters and twice it, and equals it exactly when no character is above U+FFFF. |
| Text.Includes | routes/movies.tsx:33-35 | `includes` holds exactly when the needle occurs at some position. |
| Text.TrimFacts | utils/session.ts:13 | The trimmed text is a slice of the input, with no whitespace at either end. |
| Text.NatToStringInjective | components/MovieCard.tsx:15 | Different numbers have different decimal texts. |

## Left out

- Movies.ListMovies: the Unicode case-mapping table behind `toLowerCase` is not modelled. It is the parameter `lower`, so no property depends on what it maps.
- Text.Includes: matches on Unicode scalar values, not UTF-16 code units. For well-formed strings the two agree, so lone surrogates are the only inputs left out.
- Concurrency: the availability check (routes/api/book.ts:45) and the decrement (utils/database.ts:261) are separate operations. The model is sequential, so it makes no claim against overselling under parallel requests.
- PBKDF2, SHA-256 and the Web Crypto key import and export are one abstract deterministic key-derivation function that yields 32 bytes.
- `getRandomValues` and `randomUUID` are not modelled as randomness. Salt and token bytes are parameters.
- Crypto.FreshId: `randomUUID` is modelled as a counter rendered as text. The model captures only that ids are fresh, not their UUID format.
- The clock is the integer `now`. `setHours` and its local-time and daylight-saving effects are left out, and so are the `toISOString` date strings of the seed. The seeded screening's date is a parameter function.
- Date parsing in `validateBookingForm` is not modelled: the parsed date (or its failure) and `today` are inputs.
- Floating point is not modelled: prices and modifiers are exact reals, so no IEEE-754 rounding of `net_amount * price_modifier` is captured.
- `seats_booked` and `duration` are integers. Fractional JSON numbers are not modelled.
- MongoDB plumbing (`utils/mongodb.ts`, `getCollection`, environment variables) is replaced by sequences in one object.
- `req.json()` throwing is modelled as a missing body, which gives 500.
- The `catch` of the register `POST` is not modelled, because the in-memory `createUser` cannot fail.
- The client treats snack quantities as a record keyed by snack id, in insertion order. JavaScript lists integer-like keys first; that order is not modelled.
- Rendering (JSX, styling, the UI-only components and pages) is not modelled, nor the page data of routes/index.tsx and routes/movies.tsx.
- The user lookup at routes/movies.tsx:22, which passes a user id as a user name, is display-only and is not modelled.
- In the booking form, `fetch`, the handling of its response, `window.location` and the `isSubmitting` flag are not modelled. Only the request that would be sent is.
- routes/api/logout.ts is a thin wrapper over `destroySessionResponse`, which is modelled. routes/index.tsx takes two slices of the movie list and is not part of this model.
- `getMovieById` and `getBookingsByUserId` are single `findOne`/`find` queries used only by pages; they are not part of this model.
- Database.MongoDatabase.constructor: the source constructor starts `initializeDefaultData` without awaiting it. Here seeding is the separate call `InitializeDefaultData`, and the constructor leaves the store empty.
