/**
 * `MongoDatabase`: the site's store, one collection per record kind, held in memory.
 * Inserting appends, `findOne` takes the first match, `deleteOne` removes the first
 * match. Ids come from a supply of names never handed out before, the clock is the
 * `now` parameter (milliseconds), and random salts are parameters.
 */
module Database {
  import opened Wrappers
  import opened Types
  import opened Store
  import Crypto
  import Seqs

  /** The start times of the daily screenings. */
  const ShowTimes: seq<string> := ["10:00:00", "13:00:00", "16:00:00", "19:00:00", "22:00:00"]
  const SeedDays: nat := 7
  const SeedSeats: int := 100
  const DefaultAdminName: string := "admin"
  const DefaultAdminPassword: string := "admin123"

  /** Evening screenings cost 20% more. */
  function PriceModifierFor(time: string): (m: real)
    ensures m == 1.2 || m == 1.0
    ensures m == 1.2 <==> time == "19:00:00" || time == "22:00:00"
  {
    if time == "19:00:00" || time == "22:00:00" then 1.2 else 1.0
  }

  /** The state of a screening as seeding writes it. */
  predicate IsSeededScreening(s: Screening) {
    s.availableSeats == SeedSeats && s.totalSeats == SeedSeats &&
    s.time in ShowTimes && s.priceModifier == PriceModifierFor(s.time)
  }

  const SampleMovieCount: nat := 3
  const SampleSnackCount: nat := 5

  const BlackPantherDescription: string :=
    "T'Challa, heir to the hidden but advanced kingdom of Wakanda, must step forward to lead his people into a new future."
  const SupergirlDescription: string :=
    "Kara Zor-El, Superman's cousin, discovers her powers and becomes Earth's newest protector."
  const WandaVisionDescription: string :=
    "Wanda Maximoff and Vision live idealized suburban lives, hiding their true powers."

  /** The `k`-th sample movie, under the id `id`. */
  function SampleMovie(k: nat, id: string, now: int): (m: Movie)
    requires k < SampleMovieCount
    ensures m.movieId == id
  {
    if k == 0 then
      Movie(id, "Black Panther", "English", "Action, Superhero", 9.5, BlackPantherDescription,
            250.0, 8.0, 270.0, Some("/static/images/movies/captain-marvel.png"),
            Some("/static/images/black-banner.png"), 134, "13+", now, now)
    else if k == 1 then
      Movie(id, "Supergirl", "English", "Action, Superhero", 8.5, SupergirlDescription,
            220.0, 8.0, 238.0, Some("/static/images/series/supergirl.jpg"),
            Some("/static/images/supergirl-banner.jpg"), 120, "13+", now, now)
    else
      Movie(id, "Wanda Vision", "English", "Fantasy, Drama", 9.0, WandaVisionDescription,
            280.0, 8.0, 302.0, Some("/static/images/series/wanda.png"),
            Some("/static/images/wanda-banner.jpg"), 150, "13+", now, now)
  }

  /** The sample movies under the ids `ids`, in order. */
  function SampleMovies(ids: seq<string>, now: int): (ms: seq<Movie>)
    requires |ids| == SampleMovieCount
    ensures |ms| == |ids| && forall k :: 0 <= k < |ids| ==> ms[k].movieId == ids[k]
  {
    seq(|ids|, k requires 0 <= k < |ids| => SampleMovie(k, ids[k], now))
  }

  /** The `k`-th sample snack, under the id `id`; every sample snack is on sale. */
  function SampleSnack(k: nat, id: string, now: int): (s: Snack)
    requires k < SampleSnackCount
    ensures s.snackId == id && s.available
  {
    if k == 0 then Snack(id, "Large Popcorn", 150.0, Popcorn, true, now)
    else if k == 1 then Snack(id, "Medium Popcorn", 100.0, Popcorn, true, now)
    else if k == 2 then Snack(id, "Cola", 80.0, Drinks, true, now)
    else if k == 3 then Snack(id, "Candy Mix", 60.0, Candy, true, now)
    else Snack(id, "Popcorn & Drink Combo", 200.0, Combo, true, now)
  }

  /** The id supply's counter after movie seeding from `n`: the movie ids and their screening ids, if any. */
  function AfterMovies(movies0: seq<Movie>, n: nat): nat {
    if |movies0| == 0 then n + SampleMovieCount + SampleMovieCount * SeedDays * |ShowTimes| else n
  }

  /**
   * Movie seeding with the id supply at `n`: nothing when there were movies; otherwise the
   * sample movies under the next three ids, and the existing screenings followed by one
   * screening per (movie, day, show time) under the ids after those.
   */
  ghost predicate MoviesSeeded(movies0: seq<Movie>, movies: seq<Movie>, screenings0: seq<Screening>,
                               screenings: seq<Screening>, n: nat, now: int, dayLabel: nat -> string)
  {
    (|movies0| > 0 ==> movies == movies0 && screenings == screenings0) &&
    (|movies0| == 0 ==>
       movies == SampleMovies(FreshIds(n, SampleMovieCount), now) &&
       |screenings| >= |screenings0| && screenings[..|screenings0|] == screenings0 &&
       ScreeningsPlanned(screenings[|screenings0|..], FreshIds(n, SampleMovieCount), n + SampleMovieCount,
                         dayLabel, now))
  }

  /** Snack seeding with the id supply at `n`: nothing when there were snacks, else the sample snacks under the next ids. */
  predicate SnacksSeeded(snacks0: seq<Snack>, snacks: seq<Snack>, n: nat, now: int) {
    (|snacks0| > 0 ==> snacks == snacks0) &&
    (|snacks0| == 0 ==> snacks == SampleSnacks(FreshIds(n, SampleSnackCount), now))
  }

  /** A name of the supply at or past the counter has not been handed out. */
  lemma NotIssuedYet(issued: set<string>, nextId: nat, k: nat)
    requires IssuedBelow(issued, nextId) && nextId <= k
    ensures Crypto.FreshId(k) !in issued
  {
  }

  /** The sample snacks under the ids `ids`, in order. */
  function SampleSnacks(ids: seq<string>, now: int): (ss: seq<Snack>)
    requires |ids| == SampleSnackCount
    ensures |ss| == |ids| && forall k :: 0 <= k < |ids| ==> ss[k].snackId == ids[k] && ss[k].available
  {
    seq(|ids|, k requires 0 <= k < |ids| => SampleSnack(k, ids[k], now))
  }

  /** The `count` names the id supply hands out next when its counter is at `n`. */
  function FreshIds(n: nat, count: nat): (ids: seq<string>)
    ensures |ids| == count && forall k :: 0 <= k < count ==> ids[k] == Crypto.FreshId(n + k)
  {
    seq(count, k requires 0 <= k < count => Crypto.FreshId(n + k))
  }

  /** The position among the seeded screenings of movie `m`, day `d` and show time `t`, in loop order. */
  function SeedSlot(m: nat, d: nat, t: nat): nat {
    (m * SeedDays + d) * |ShowTimes| + t
  }

  /** Different (movie, day, show time) triples in range have different positions. */
  lemma SlotInjective(m1: nat, d1: nat, t1: nat, m2: nat, d2: nat, t2: nat)
    requires d1 < SeedDays && d2 < SeedDays && t1 < |ShowTimes| && t2 < |ShowTimes|
    requires SeedSlot(m1, d1, t1) == SeedSlot(m2, d2, t2)
    ensures m1 == m2 && d1 == d2 && t1 == t2
  {
    assert SeedSlot(m1, d1, t1) == m1 * 35 + d1 * 5 + t1;
    assert SeedSlot(m2, d2, t2) == m2 * 35 + d2 * 5 + t2;
  }

  /** The position after the last show time of a day is the first of the next day, and so on for movies. */
  lemma SlotCarry(m: nat, d: nat)
    ensures SeedSlot(m, d, |ShowTimes|) == SeedSlot(m, d + 1, 0)
    ensures SeedSlot(m, SeedDays, 0) == SeedSlot(m + 1, 0, 0)
    ensures SeedSlot(m, 0, 0) == m * SeedDays * |ShowTimes|
  {
  }

  /** The screening seeding writes for a movie, a date and the `t`-th show time, under the `n`-th id. */
  function SeededScreening(n: nat, movieId: string, date: string, t: nat, now: int): (s: Screening)
    requires t < |ShowTimes|
    ensures IsSeededScreening(s) && s.screeningId == Crypto.FreshId(n)
    ensures s.movieId == movieId && s.date == date && s.time == ShowTimes[t]
  {
    Screening(Crypto.FreshId(n), movieId, date, ShowTimes[t], SeedSeats, SeedSeats,
              PriceModifierFor(ShowTimes[t]), now)
  }

  /**
   * Every (movie, day, show time) whose position lies in `added` has there its screening,
   * named by the id supply at `n0` plus that position.
   */
  ghost predicate PlannedUpTo(added: seq<Screening>, movieIds: seq<string>, n0: nat, dayLabel: nat -> string,
                              now: int) {
    forall m: nat, d: nat, t: nat ::
      m < |movieIds| && d < SeedDays && t < |ShowTimes| && SeedSlot(m, d, t) < |added| ==>
      added[SeedSlot(m, d, t)] == SeededScreening(n0 + SeedSlot(m, d, t), movieIds[m], dayLabel(d), t, now)
  }

  /** The nested seeding loops' output: 7 days of 5 show times per movie, each at its position. */
  ghost predicate ScreeningsPlanned(added: seq<Screening>, movieIds: seq<string>, n0: nat,
                                    dayLabel: nat -> string, now: int) {
    |added| == |movieIds| * SeedDays * |ShowTimes| && PlannedUpTo(added, movieIds, n0, dayLabel, now)
  }

  /** Appending the screening for the next position keeps every position planned. */
  lemma PlanStep(added: seq<Screening>, movieIds: seq<string>, n0: nat, dayLabel: nat -> string, now: int,
                 m: nat, d: nat, t: nat)
    requires m < |movieIds| && d < SeedDays && t < |ShowTimes| && |added| == SeedSlot(m, d, t)
    requires PlannedUpTo(added, movieIds, n0, dayLabel, now)
    ensures PlannedUpTo(added + [SeededScreening(n0 + |added|, movieIds[m], dayLabel(d), t, now)],
                        movieIds, n0, dayLabel, now)
  {
    var next := added + [SeededScreening(n0 + |added|, movieIds[m], dayLabel(d), t, now)];
    forall m': nat, d': nat, t': nat |
      m' < |movieIds| && d' < SeedDays && t' < |ShowTimes| && SeedSlot(m', d', t') < |next|
      ensures next[SeedSlot(m', d', t')] ==
              SeededScreening(n0 + SeedSlot(m', d', t'), movieIds[m'], dayLabel(d'), t', now)
    {
      if SeedSlot(m', d', t') == |added| {
        SlotInjective(m', d', t', m, d, t);
      }
    }
  }

  /** No id handed out so far is the `k`-th name of the supply for `k` not yet reached. */
  ghost predicate IssuedBelow(issued: set<string>, nextId: nat) {
    forall k: nat :: Crypto.FreshId(k) in issued ==> k < nextId
  }

  class MongoDatabase {
    var users: seq<User>
    var admins: seq<Admin>
    var movies: seq<Movie>
    var screenings: seq<Screening>
    var bookings: seq<Booking>
    var snacks: seq<Snack>
    var bookingSnacks: seq<BookingSnack>
    var sessions: seq<SessionRecord>
    var initialized: bool
    /** The fresh-id supply: the next name is `FreshId(nextId)`; `issued` holds those given out. */
    var nextId: nat
    ghost var issued: set<string>
    /** PBKDF2 as the store sees it. */
    const kdf: Crypto.Kdf

    /**
     * The store's invariant: the seat inventory is exact, screening ids are distinct,
     * and every screening and every booking's screening was named by the id supply.
     */
    ghost predicate Valid()
      reads this`screenings, this`bookings, this`issued, this`nextId
    {
      Crypto.KdfOutputsKey(kdf) &&
      InventoryHolds(screenings, bookings) &&
      DistinctScreeningIds(screenings) &&
      (forall i :: 0 <= i < |screenings| ==> screenings[i].screeningId in issued) &&
      (forall j :: 0 <= j < |bookings| ==> bookings[j].screeningId in issued) &&
      IssuedBelow(issued, nextId)
    }

    /** A store with empty collections; seeding is `InitializeDefaultData`. */
    constructor (kdf: Crypto.Kdf)
      requires Crypto.KdfOutputsKey(kdf)
      ensures Valid() && !initialized && this.kdf == kdf
      ensures users == [] && admins == [] && movies == [] && screenings == [] && bookings == []
      ensures snacks == [] && bookingSnacks == [] && sessions == []
    {
      users, admins, movies, screenings, bookings := [], [], [], [], [];
      snacks, bookingSnacks, sessions := [], [], [];
      initialized := false;
      nextId := 0;
      issued := {};
      this.kdf := kdf;
    }

    /** `generateId`: a name never handed out before. */
    method GenerateId() returns (id: string)
      modifies this`nextId, this`issued
      ensures id == Crypto.FreshId(old(nextId))
      ensures nextId == old(nextId) + 1 && issued == old(issued) + {id}
      ensures IssuedBelow(old(issued), old(nextId)) ==> id !in old(issued) && IssuedBelow(issued, nextId)
      ensures old(Valid()) ==> Valid()
    {
      id := Crypto.FreshId(nextId);
      ghost var n := nextId;
      if IssuedBelow(issued, n) {
        forall k: nat | Crypto.FreshId(k) in issued + {id} ensures k < n + 1 {
          if Crypto.FreshId(k) == id {
            Crypto.FreshIdInjective(k, n);
          }
        }
      }
      nextId := nextId + 1;
      issued := issued + {id};
    }

    // -------------------------------------------------------------------------------
    // Users

    /**
     * `createUser`: a new user with a fresh id and the password stored as a salted
     * PBKDF2 blob, appended to the users.
     */
    method CreateUser(fullname: string, username: string, email: string, phone: string,
                      password: string, salt: seq<Crypto.byte>, now: int) returns (user: User)
      requires Valid() && |salt| == Crypto.SaltLength
      modifies this`users, this`nextId, this`issued
      ensures Valid()
      ensures user.userId == Crypto.FreshId(old(nextId)) && user.userId !in old(issued)
      ensures user == User(user.userId, fullname, username, email, phone, user.password, now)
      ensures user.password == Crypto.Base64.Encode(salt + kdf(password, salt))
      ensures Crypto.VerifyPassword(password, user.password, kdf)
      ensures users == old(users) + [user]
      ensures UserIndexByName(old(users), username).None? ==> AuthenticateUser(username, password) == Some(user)
    {
      var userId := GenerateId();
      var hashed := Crypto.HashPassword(password, salt, kdf);
      user := User(userId, fullname, username, email, phone, hashed, now);
      users := users + [user];
      if UserIndexByName(old(users), username).None? {
        NewUserFoundByName(old(users), user);
      }
    }

    /** `authenticateUser`: the first user with that name, if the password verifies against it. */
    function AuthenticateUser(username: string, password: string): (r: Option<User>)
      reads this`users
      ensures r.Some? ==> r.value in users && r.value.username == username
                          && Crypto.VerifyPassword(password, r.value.password, kdf)
      ensures UserIndexByName(users, username).None? ==> r.None?
      ensures r.Some? ==> UserIndexByName(users, username).Some? && r.value == users[UserIndexByName(users, username).value]
      ensures UserIndexByName(users, username).Some? ==>
        (r.Some? <==> Crypto.VerifyPassword(password, users[UserIndexByName(users, username).value].password, kdf))
    {
      match UserIndexByName(users, username)
      case None => None
      case Some(i) => if Crypto.VerifyPassword(password, users[i].password, kdf) then Some(users[i]) else None
    }

    /** `getUserByUsername`: the first user with that name. */
    function GetUserByUsername(username: string): (r: Option<User>)
      reads this`users
      ensures r.Some? ==> r.value in users && r.value.username == username
      ensures r.None? <==> forall j :: 0 <= j < |users| ==> users[j].username != username
    {
      match UserIndexByName(users, username)
      case None => None
      case Some(i) => Some(users[i])
    }

    /** `getUserByEmail`: the first user with that email. */
    function GetUserByEmail(email: string): (r: Option<User>)
      reads this`users
      ensures r.Some? ==> r.value in users && r.value.email == email
      ensures r.None? <==> forall j :: 0 <= j < |users| ==> users[j].email != email
    {
      match UserIndexByEmail(users, email)
      case None => None
      case Some(i) => Some(users[i])
    }

    /** `authenticateAdmin`: the first administrator with that name, if the password verifies. */
    function AuthenticateAdmin(username: string, password: string): (r: Option<Admin>)
      reads this`admins
      ensures r.Some? ==> r.value in admins && r.value.username == username
                          && Crypto.VerifyPassword(password, r.value.password, kdf)
      ensures AdminIndexByName(admins, username).None? ==> r.None?
      ensures r.Some? ==> AdminIndexByName(admins, username).Some? && r.value == admins[AdminIndexByName(admins, username).value]
      ensures AdminIndexByName(admins, username).Some? ==>
        (r.Some? <==> Crypto.VerifyPassword(password, admins[AdminIndexByName(admins, username).value].password, kdf))
    {
      match AdminIndexByName(admins, username)
      case None => None
      case Some(i) => if Crypto.VerifyPassword(password, admins[i].password, kdf) then Some(admins[i]) else None
    }

    // -------------------------------------------------------------------------------
    // Movies and screenings

    function GetMovies(): (r: seq<Movie>)
      reads this`movies
      ensures r == movies
    {
      movies
    }

    /** `getScreeningsByMovieId`: that movie's screenings, in store order. */
    function GetScreeningsByMovieId(movieId: string): (r: seq<Screening>)
      reads this`screenings
      ensures Seqs.IsSubsequence(r, screenings)
      ensures forall s :: s in r <==> s in screenings && s.movieId == movieId
    {
      Seqs.FilterIsExact(screenings, (s: Screening) => s.movieId == movieId);
      Seqs.Filter(screenings, (s: Screening) => s.movieId == movieId)
    }

    /** `getScreeningById`: the first screening with that id. */
    function GetScreeningById(id: string): (r: Option<Screening>)
      reads this`screenings
      ensures r.Some? ==> r.value in screenings && r.value.screeningId == id
      ensures r.None? <==> forall j :: 0 <= j < |screenings| ==> screenings[j].screeningId != id
      ensures r.Some? ==> r.value == screenings[ScreeningIndex(screenings, id).value]
    {
      match ScreeningIndex(screenings, id)
      case None => None
      case Some(i) => Some(screenings[i])
    }

    /** `getMoviesWithScreenings`: every movie, in order, with its own screenings. */
    method GetMoviesWithScreenings() returns (result: seq<MovieWithScreenings>)
      ensures |result| == |movies|
      ensures forall k :: 0 <= k < |result| ==>
        result[k].movie == movies[k] && result[k].screenings == GetScreeningsByMovieId(movies[k].movieId)
    {
      var ms := GetMovies();
      result := [];
      for k := 0 to |ms|
        invariant |result| == k
        invariant forall j :: 0 <= j < k ==>
          result[j].movie == ms[j] && result[j].screenings == GetScreeningsByMovieId(ms[j].movieId)
      {
        var screeningsOf := GetScreeningsByMovieId(ms[k].movieId);
        result := result + [MovieWithScreenings(ms[k], screeningsOf)];
      }
    }

    // -------------------------------------------------------------------------------
    // Bookings and snacks

    /**
     * `createBooking`: stores the booking under a fresh id, then takes its seats off the
     * first screening with its id. It checks nothing: the free seats may go below zero,
     * and the booking is kept when no screening matches.
     */
    method CreateBooking(userId: string, screeningId: string, seatsBooked: int, status: BookingStatus,
                         totalAmount: real, snacksTotal: real, now: int) returns (booking: Booking)
      modifies this`bookings, this`screenings, this`nextId, this`issued
      ensures booking == Booking(Crypto.FreshId(old(nextId)), userId, screeningId, seatsBooked, status,
                                 totalAmount, snacksTotal, now, now)
      ensures IssuedBelow(old(issued), old(nextId)) ==> booking.bookingId !in old(issued)
      ensures bookings == old(bookings) + [booking]
      ensures screenings == DecrementFirst(old(screenings), screeningId, seatsBooked)
      ensures nextId == old(nextId) + 1 && issued == old(issued) + {booking.bookingId}
      ensures old(Valid()) && ScreeningIndex(old(screenings), screeningId).Some? &&
              0 <= seatsBooked <= old(screenings)[ScreeningIndex(old(screenings), screeningId).value].availableSeats
              ==> Valid()
    {
      ghost var wasValid := Valid();
      var bookingId := GenerateId();
      booking := Booking(bookingId, userId, screeningId, seatsBooked, status, totalAmount, snacksTotal, now, now);
      bookings := bookings + [booking];
      var match_ := ScreeningIndex(screenings, screeningId);
      if match_.Some? {
        var i := match_.value;
        screenings := screenings[i := screenings[i].(availableSeats := screenings[i].availableSeats - seatsBooked)];
      }
      if wasValid && match_.Some? && 0 <= seatsBooked <= old(screenings)[match_.value].availableSeats {
        BookingKeepsInventory(old(screenings), old(bookings), booking);
        assert forall i :: 0 <= i < |screenings| ==> screenings[i].screeningId == old(screenings)[i].screeningId;
      }
    }

    /** `getSnacks`: the snacks on sale, in store order. */
    function GetSnacks(): (r: seq<Snack>)
      reads this`snacks
      ensures Seqs.IsSubsequence(r, snacks)
      ensures forall s :: s in r <==> s in snacks && s.available
    {
      OnSaleExact(snacks);
      OnSale(snacks)
    }

    /**
     * `addBookingSnacks`: one line item per request entry whose snack exists (on sale or
     * not), priced at the catalogue price of the moment, in request order.
     */
    method AddBookingSnacks(bookingId: string, items: seq<SnackItem>)
      modifies this`bookingSnacks
      ensures bookingSnacks == old(bookingSnacks) + LineItems(snacks, bookingId, items)
    {
      var catalogue := snacks;
      var lines: seq<BookingSnack> := [];
      for k := 0 to |items|
        invariant lines == LineItems(catalogue, bookingId, items[..k])
        invariant bookingSnacks == old(bookingSnacks)
      {
        LineItemsStep(catalogue, bookingId, items, k);
        var found := SnackIndex(catalogue, items[k].snackId);
        if found.Some? {
          lines := lines + [BookingSnack(bookingId, items[k].snackId, items[k].quantity, catalogue[found.value].price)];
        }
      }
      assert items[..|items|] == items;
      if |lines| > 0 {
        bookingSnacks := bookingSnacks + lines;
      } else {
        assert old(bookingSnacks) + lines == old(bookingSnacks);
      }
    }

    // -------------------------------------------------------------------------------
    // Sessions

    /** `createSession`: records the token for the user, expiring 24 hours from `now`. */
    method CreateSession(userId: string, token: string, now: int)
      modifies this`sessions
      ensures sessions == old(sessions) + [SessionRecord(token, userId, now + SessionLifetime)]
    {
      sessions := sessions + [SessionRecord(token, userId, now + SessionLifetime)];
    }

    /**
     * `getSession`: the first record with the token. One that expired strictly before
     * `now` is deleted and not returned; one expiring exactly at `now` is still valid.
     */
    method GetSession(token: string, now: int) returns (r: Option<SessionRecord>)
      modifies this`sessions
      ensures r == LookupSession(old(sessions), token, now)
      ensures sessions == if SessionIndex(old(sessions), token).Some? && r.None?
                          then RemoveSession(old(sessions), token) else old(sessions)
    {
      var found := SessionIndex(sessions, token);
      if found.None? {
        return None;
      }
      var session := sessions[found.value];
      if session.expires < now {
        sessions := RemoveSession(sessions, token);
        return None;
      }
      return Some(session);
    }

    /** `deleteSession`: removes the first record with the token; nothing when there is none. */
    method DeleteSession(token: string)
      modifies this`sessions
      ensures sessions == RemoveSession(old(sessions), token)
    {
      sessions := RemoveSession(sessions, token);
    }

    // -------------------------------------------------------------------------------
    // Seeding

    /**
     * `initializeDefaultData`: adds the default administrator if no administrator is
     * called `admin`; the sample movies and 7 days of 5 screenings each if there are no
     * movies; the sample snacks if there are no snacks. Runs once.
     */
    method InitializeDefaultData(adminSalt: seq<Crypto.byte>, now: int, dayLabel: nat -> string)
      requires Valid() && |adminSalt| == Crypto.SaltLength
      modifies this`admins, this`movies, this`screenings, this`snacks, this`nextId, this`issued,
               this`initialized
      ensures Valid() && initialized
      ensures old(initialized) ==>
        admins == old(admins) && movies == old(movies) && screenings == old(screenings) && snacks == old(snacks)
      ensures !old(initialized) && AdminIndexByName(old(admins), DefaultAdminName).None? ==>
        AuthenticateAdmin(DefaultAdminName, DefaultAdminPassword).Some?
      ensures AdminIndexByName(old(admins), DefaultAdminName).Some? ==> admins == old(admins)
      ensures |old(movies)| > 0 ==> movies == old(movies) && screenings == old(screenings)
      ensures |old(snacks)| > 0 ==> snacks == old(snacks)
      ensures !old(initialized) && |old(movies)| == 0 ==>
        |screenings| == |old(screenings)| + SampleMovieCount * SeedDays * |ShowTimes|
      ensures !old(initialized) ==>
        MoviesSeeded(old(movies), movies, old(screenings), screenings, SeedStart(old(admins), old(nextId)), now, dayLabel)
      ensures !old(initialized) && |old(snacks)| == 0 ==>
        |snacks| == SampleSnackCount && forall k :: 0 <= k < |snacks| ==> snacks[k].available
      ensures !old(initialized) ==>
        SnacksSeeded(old(snacks), snacks, AfterMovies(old(movies), SeedStart(old(admins), old(nextId))), now)
      ensures !old(initialized) && |old(snacks)| == 0 ==>
        forall k :: 0 <= k < |snacks| ==> snacks[k].snackId !in old(issued)
      ensures forall k :: |old(screenings)| <= k < |screenings| ==> screenings[k].screeningId !in old(issued)
      ensures |screenings| >= |old(screenings)| && screenings[..|old(screenings)|] == old(screenings)
      ensures forall k :: |old(screenings)| <= k < |screenings| ==> IsSeededScreening(screenings[k])
    {
      if initialized {
        return;
      }
      SeedAdmin(adminSalt, now);
      SeedCatalogue(now, dayLabel);
      initialized := true;
    }

    /** The movie and screening seeding, then the snack seeding, each only into empty collections. */
    method SeedCatalogue(now: int, dayLabel: nat -> string)
      requires Valid()
      modifies this`movies, this`screenings, this`snacks, this`nextId, this`issued
      ensures Valid() && old(issued) <= issued
      ensures MoviesSeeded(old(movies), movies, old(screenings), screenings, old(nextId), now, dayLabel)
      ensures SnacksSeeded(old(snacks), snacks, AfterMovies(old(movies), old(nextId)), now)
      ensures |old(movies)| == 0 ==> |screenings| == |old(screenings)| + SampleMovieCount * SeedDays * |ShowTimes|
      ensures |old(snacks)| == 0 ==>
        |snacks| == SampleSnackCount && forall k :: 0 <= k < |snacks| ==> snacks[k].available
      ensures |old(snacks)| == 0 ==> forall k :: 0 <= k < |snacks| ==> snacks[k].snackId !in old(issued)
      ensures forall k :: |old(screenings)| <= k < |screenings| ==> screenings[k].screeningId !in old(issued)
      ensures |screenings| >= |old(screenings)| && screenings[..|old(screenings)|] == old(screenings)
      ensures forall k :: |old(screenings)| <= k < |screenings| ==> IsSeededScreening(screenings[k])
    {
      var movieIds := SeedMovies(now, dayLabel);
      SeedSnacks(now);
    }

    /** The id supply's counter once the administrator is seeded, starting from `nextId`. */
    static function SeedStart(admins: seq<Admin>, nextId: nat): nat {
      if AdminIndexByName(admins, DefaultAdminName).None? then nextId + 1 else nextId
    }


    /** The default administrator, `admin` with password `admin123`, as a super admin, unless one exists. */
    method SeedAdmin(adminSalt: seq<Crypto.byte>, now: int)
      requires Valid() && |adminSalt| == Crypto.SaltLength
      modifies this`admins, this`nextId, this`issued
      ensures Valid()
      ensures AdminIndexByName(old(admins), DefaultAdminName).Some? ==> admins == old(admins)
      ensures AdminIndexByName(old(admins), DefaultAdminName).None? ==>
        |admins| == |old(admins)| + 1 && admins[..|old(admins)|] == old(admins) &&
        admins[|old(admins)|].role == SuperAdmin &&
        AuthenticateAdmin(DefaultAdminName, DefaultAdminPassword) == Some(admins[|old(admins)|])
      ensures nextId == if AdminIndexByName(old(admins), DefaultAdminName).None? then old(nextId) + 1 else old(nextId)
      ensures old(issued) <= issued
    {
      if AdminIndexByName(admins, DefaultAdminName).None? {
        var adminId := GenerateId();
        var hashed := Crypto.HashPassword(DefaultAdminPassword, adminSalt, kdf);
        var admin := Admin(adminId, DefaultAdminName, hashed, SuperAdmin, now);
        NewAdminFoundByName(admins, admin);
        admins := admins + [admin];
      }
    }

    /** The sample movies, inserted together, then their screenings, when there are no movies. */
    method SeedMovies(now: int, dayLabel: nat -> string) returns (ids: seq<string>)
      requires Valid()
      modifies this`movies, this`screenings, this`nextId, this`issued
      ensures Valid() && old(issued) <= issued
      ensures |old(movies)| > 0 ==> ids == [] && movies == old(movies) && screenings == old(screenings)
      ensures |old(movies)| == 0 ==>
        |ids| == SampleMovieCount && movies == SampleMovies(ids, now) &&
        |screenings| == |old(screenings)| + SampleMovieCount * SeedDays * |ShowTimes|
      ensures |screenings| >= |old(screenings)| && screenings[..|old(screenings)|] == old(screenings)
      ensures forall k :: |old(screenings)| <= k < |screenings| ==>
        IsSeededScreening(screenings[k]) && screenings[k].movieId in ids
      ensures |old(movies)| == 0 ==> ids == FreshIds(old(nextId), SampleMovieCount)
      ensures MoviesSeeded(old(movies), movies, old(screenings), screenings, old(nextId), now, dayLabel)
      ensures nextId == AfterMovies(old(movies), old(nextId))
      ensures forall k :: |old(screenings)| <= k < |screenings| ==> screenings[k].screeningId !in old(issued)
    {
      ids := [];
      if |movies| > 0 {
        return;
      }
      ids := SeedSampleMovies(now, dayLabel);
    }

    /** Movie seeding proper: the sample movies under fresh ids, then their screenings. */
    method SeedSampleMovies(now: int, dayLabel: nat -> string) returns (ids: seq<string>)
      requires Valid() && |movies| == 0
      modifies this`movies, this`screenings, this`nextId, this`issued
      ensures Valid() && old(issued) <= issued
      ensures ids == FreshIds(old(nextId), SampleMovieCount) && movies == SampleMovies(ids, now)
      ensures |screenings| == |old(screenings)| + SampleMovieCount * SeedDays * |ShowTimes|
      ensures screenings[..|old(screenings)|] == old(screenings)
      ensures ScreeningsPlanned(screenings[|old(screenings)|..], ids, old(nextId) + SampleMovieCount, dayLabel, now)
      ensures forall k :: |old(screenings)| <= k < |screenings| ==>
        IsSeededScreening(screenings[k]) && screenings[k].movieId in ids &&
        screenings[k].screeningId !in old(issued)
      ensures nextId == AfterMovies(old(movies), old(nextId))
    {
      ids := GenerateIds(SampleMovieCount);
      movies := SampleMovies(ids, now);
      SeedScreenings(ids, now, dayLabel);
    }

    /** `count` calls of `generateId` in a row. */
    method GenerateIds(count: nat) returns (ids: seq<string>)
      requires Valid()
      modifies this`nextId, this`issued
      ensures Valid() && old(issued) <= issued
      ensures ids == FreshIds(old(nextId), count) && nextId == old(nextId) + count
    {
      ids := [];
      for k := 0 to count
        invariant |ids| == k
        invariant forall j :: 0 <= j < k ==> ids[j] == Crypto.FreshId(old(nextId) + j)
        invariant nextId == old(nextId) + k && old(issued) <= issued
        invariant Valid()
      {
        var id := GenerateId();
        ids := ids + [id];
      }
    }

    /** The sample snacks, all on sale, when there are no snacks. */
    method SeedSnacks(now: int)
      requires Valid()
      modifies this`snacks, this`nextId, this`issued
      ensures Valid() && old(issued) <= issued
      ensures |old(snacks)| > 0 ==> snacks == old(snacks)
      ensures |old(snacks)| == 0 ==>
        |snacks| == SampleSnackCount && forall k :: 0 <= k < |snacks| ==> snacks[k].available
      ensures SnacksSeeded(old(snacks), snacks, old(nextId), now)
      ensures |old(snacks)| == 0 ==> forall k :: 0 <= k < |snacks| ==> snacks[k].snackId !in old(issued)
    {
      if |snacks| > 0 {
        return;
      }
      var sample: seq<Snack> := [];
      for k := 0 to SampleSnackCount
        invariant |sample| == k
        invariant forall j :: 0 <= j < k ==> sample[j].available
        invariant forall j :: 0 <= j < k ==> sample[j] == SampleSnack(j, Crypto.FreshId(old(nextId) + j), now)
        invariant nextId == old(nextId) + k && old(issued) <= issued
        invariant Valid() && snacks == old(snacks)
      {
        var id := GenerateId();
        sample := sample + [SampleSnack(k, id, now)];
      }
      forall j | 0 <= j < SampleSnackCount ensures sample[j].snackId !in old(issued) {
        NotIssuedYet(old(issued), old(nextId), old(nextId) + j);
      }
      snacks := snacks + sample;
      assert snacks == sample == SampleSnacks(FreshIds(old(nextId), SampleSnackCount), now);
      assert SnacksSeeded(old(snacks), snacks, old(nextId), now);
    }

    /**
     * The nested seeding loops: for each movie, for each of the next 7 days, one
     * screening per show time with all 100 seats free, appended after the existing ones.
     */
    method SeedScreenings(movieIds: seq<string>, now: int, dayLabel: nat -> string)
      requires Valid()
      modifies this`screenings, this`nextId, this`issued
      ensures Valid() && old(issued) <= issued
      ensures |screenings| == |old(screenings)| + |movieIds| * SeedDays * |ShowTimes|
      ensures screenings[..|old(screenings)|] == old(screenings)
      ensures forall k :: |old(screenings)| <= k < |screenings| ==>
        IsSeededScreening(screenings[k]) && screenings[k].movieId in movieIds
      ensures ScreeningsPlanned(screenings[|old(screenings)|..], movieIds, old(nextId), dayLabel, now)
      ensures nextId == old(nextId) + |movieIds| * SeedDays * |ShowTimes|
      ensures forall k :: |old(screenings)| <= k < |screenings| ==> screenings[k].screeningId !in old(issued)
    {
      ghost var issued0 := issued;
      ghost var next0 := nextId;
      var added: seq<Screening> := [];
      for m := 0 to |movieIds|
        invariant screenings == old(screenings)
        invariant |added| == SeedSlot(m, 0, 0)
        invariant Seeding(added, movieIds, next0, issued0, issued, nextId, dayLabel, now)
      {
        added := SeedMovieDays(added, movieIds, m, now, dayLabel, next0, issued0);
      }
      SlotCarry(|movieIds|, 0);
      FreshAdditionsKeepInventory(screenings, bookings, added, issued0, next0);
      forall k | 0 <= k < |added| ensures added[k].screeningId !in issued0 {
        assert AddedScreening(added[k], next0 + k, issued, movieIds);
      }
      screenings := screenings + added;
      assert screenings[|old(screenings)|..] == added;
    }

    /** The middle loop: the 7 days of the `m`-th movie. */
    method SeedMovieDays(added: seq<Screening>, movieIds: seq<string>, m: nat, now: int, dayLabel: nat -> string,
                         ghost next0: nat, ghost issued0: set<string>) returns (more: seq<Screening>)
      requires m < |movieIds| && |added| == SeedSlot(m, 0, 0)
      requires Seeding(added, movieIds, next0, issued0, issued, nextId, dayLabel, now)
      modifies this`nextId, this`issued
      ensures |more| == SeedSlot(m + 1, 0, 0)
      ensures Seeding(more, movieIds, next0, issued0, issued, nextId, dayLabel, now)
    {
      more := added;
      for day := 0 to SeedDays
        invariant |more| == SeedSlot(m, day, 0)
        invariant Seeding(more, movieIds, next0, issued0, issued, nextId, dayLabel, now)
      {
        more := SeedDayTimes(more, movieIds, m, day, now, dayLabel, next0, issued0);
      }
      SlotCarry(m, SeedDays);
    }

    /** The inner loop: one screening per show time for the `m`-th movie on day `day`. */
    method SeedDayTimes(added: seq<Screening>, movieIds: seq<string>, m: nat, day: nat, now: int,
                        dayLabel: nat -> string, ghost next0: nat, ghost issued0: set<string>)
      returns (more: seq<Screening>)
      requires m < |movieIds| && day < SeedDays && |added| == SeedSlot(m, day, 0)
      requires Seeding(added, movieIds, next0, issued0, issued, nextId, dayLabel, now)
      modifies this`nextId, this`issued
      ensures |more| == SeedSlot(m, day + 1, 0)
      ensures Seeding(more, movieIds, next0, issued0, issued, nextId, dayLabel, now)
    {
      more := added;
      for t := 0 to |ShowTimes|
        invariant |more| == SeedSlot(m, day, t)
        invariant Seeding(more, movieIds, next0, issued0, issued, nextId, dayLabel, now)
      {
        ghost var issuedBefore, nextBefore := issued, nextId;
        var id := GenerateId();
        var time := ShowTimes[t];
        var s := Screening(id, movieIds[m], dayLabel(day), time, SeedSeats, SeedSeats,
                           PriceModifierFor(time), now);
        assert s == SeededScreening(next0 + |more|, movieIds[m], dayLabel(day), t, now);
        SeedingStep(more, movieIds, next0, issued0, issuedBefore, nextBefore, issued, nextId, dayLabel, now,
                    m, day, t);
        more := more + [s];
      }
      SlotCarry(m, day);
    }
  }

  /** A seeded screening named by the `k`-th id of the supply. */
  ghost predicate AddedScreening(s: Screening, k: nat, issued: set<string>, movieIds: seq<string>) {
    s.screeningId == Crypto.FreshId(k) && s.screeningId in issued &&
    IsSeededScreening(s) && s.movieId in movieIds
  }

  /**
   * What the seeding loops have done so far, with the id supply at `nextId` and the ids
   * `issued`: `added` holds the screenings made, in loop order, each named by the supply
   * from `next0` on and recorded as issued.
   */
  ghost predicate Seeding(added: seq<Screening>, movieIds: seq<string>, next0: nat, issued0: set<string>,
                          issued: set<string>, nextId: nat, dayLabel: nat -> string, now: int)
  {
    nextId == next0 + |added| && issued0 <= issued && IssuedBelow(issued, nextId) &&
    (forall k :: 0 <= k < |added| ==> AddedScreening(added[k], next0 + k, issued, movieIds)) &&
    PlannedUpTo(added, movieIds, next0, dayLabel, now)
  }

  /** Making the screening of the next position with the next id keeps the seeding on plan. */
  lemma SeedingStep(added: seq<Screening>, movieIds: seq<string>, next0: nat, issued0: set<string>,
                    issued: set<string>, nextId: nat, issued': set<string>, nextId': nat,
                    dayLabel: nat -> string, now: int, m: nat, d: nat, t: nat)
    requires m < |movieIds| && d < SeedDays && t < |ShowTimes| && |added| == SeedSlot(m, d, t)
    requires Seeding(added, movieIds, next0, issued0, issued, nextId, dayLabel, now)
    requires nextId' == nextId + 1 && issued' == issued + {Crypto.FreshId(nextId)} && IssuedBelow(issued', nextId')
    ensures Seeding(added + [SeededScreening(next0 + |added|, movieIds[m], dayLabel(d), t, now)],
                    movieIds, next0, issued0, issued', nextId', dayLabel, now)
  {
    PlanStep(added, movieIds, next0, dayLabel, now, m, d, t);
    var next := added + [SeededScreening(next0 + |added|, movieIds[m], dayLabel(d), t, now)];
    forall k | 0 <= k < |next| ensures AddedScreening(next[k], next0 + k, issued', movieIds) {
      if k < |added| {
        assert AddedScreening(added[k], next0 + k, issued, movieIds);
      }
    }
  }

  /**
   * Appending screenings named by the supply from `next0` on, with all seats free, keeps
   * the inventory exact and the ids distinct, when every id in use was issued before.
   */
  lemma FreshAdditionsKeepInventory(ss: seq<Screening>, bs: seq<Booking>, added: seq<Screening>,
                                    issued0: set<string>, next0: nat)
    requires InventoryHolds(ss, bs) && DistinctScreeningIds(ss)
    requires forall i :: 0 <= i < |ss| ==> ss[i].screeningId in issued0
    requires forall j :: 0 <= j < |bs| ==> bs[j].screeningId in issued0
    requires IssuedBelow(issued0, next0)
    requires forall k :: 0 <= k < |added| ==>
      added[k].screeningId == Crypto.FreshId(next0 + k) && IsSeededScreening(added[k])
    ensures InventoryHolds(ss + added, bs)
    ensures DistinctScreeningIds(ss + added)
  {
    var all := ss + added;
    forall k | 0 <= k < |added|
      ensures added[k].screeningId !in issued0
    {
    }
    FreshScreeningsKeepInventory(ss, bs, added);
    forall i, j | 0 <= i < j < |all| ensures all[i].screeningId != all[j].screeningId {
      if i >= |ss| {
        var a, b := i - |ss|, j - |ss|;
        if added[a].screeningId == added[b].screeningId {
          Crypto.FreshIdInjective(next0 + a, next0 + b);
        }
      } else if j >= |ss| {
        assert all[i].screeningId in issued0;
      }
    }
  }

  /** A user appended under a name no earlier user has is the one found by that name. */
  lemma NewUserFoundByName(users: seq<User>, user: User)
    requires UserIndexByName(users, user.username).None?
    ensures UserIndexByName(users + [user], user.username) == Some(|users|)
  {
    assert (users + [user])[|users|] == user;
  }

  /** An administrator appended under a name no earlier one has is the one found by that name. */
  lemma NewAdminFoundByName(admins: seq<Admin>, admin: Admin)
    requires AdminIndexByName(admins, admin.username).None?
    ensures AdminIndexByName(admins + [admin], admin.username) == Some(|admins|)
  {
    assert (admins + [admin])[|admins|] == admin;
  }
}
