/**
 * `POST /api/book`: the booking endpoint. The guards run in a fixed order, each ending
 * the request with an error answer: no signed-in user (401), a body that is not JSON
 * (500), no screening id or fewer than one seat (400), an unknown screening (404), more
 * seats than are free (400). Past them the snack total is summed over the snacks on
 * sale, the booking is stored as confirmed with the total the client sent, and the
 * snack line items are attached.
 */
module BookApi {
  import opened Wrappers
  import opened Types
  import opened Store
  import opened Http
  import Text
  import Crypto
  import Database
  import Session
  import Seqs

  /**
   * The JSON body of the request, once parsed. A missing `screening_id` is the empty
   * string, a missing `seats_booked` is 0 and a missing `snacks` list is empty.
   */
  datatype BookingRequest = BookingRequest(
    screeningId: string, seatsBooked: int, snacks: seq<SnackItem>, totalAmount: real)

  const ConfirmedMessage: string := "Booking confirmed successfully"

  // -------------------------------------------------------------------------------
  // The snack total

  /** What one request entry adds to the total: price times quantity, nothing for an id not on sale. */
  function SnackCharge(onSale: seq<Snack>, item: SnackItem): (charge: real)
    ensures SnackIndex(onSale, item.snackId).None? ==> charge == 0.0
  {
    match SnackIndex(onSale, item.snackId)
    case None => 0.0
    case Some(i) => onSale[i].price * item.quantity as real
  }

  /** `snacksTotal`: the charges of all request entries, entry by entry. */
  function SnacksTotal(onSale: seq<Snack>, items: seq<SnackItem>): (total: real)
    decreases |items|
  {
    if items == [] then 0.0
    else SnacksTotal(onSale, items[..|items| - 1]) + SnackCharge(onSale, items[|items| - 1])
  }

  /** The total over two runs of entries is the sum of their totals. */
  lemma {:induction false} SnacksTotalAppend(onSale: seq<Snack>, xs: seq<SnackItem>, ys: seq<SnackItem>)
    ensures SnacksTotal(onSale, xs + ys) == SnacksTotal(onSale, xs) + SnacksTotal(onSale, ys)
    decreases |ys|
  {
    if ys == [] {
      assert xs + ys == xs;
    } else {
      var last := ys[|ys| - 1];
      assert (xs + ys)[..|xs + ys| - 1] == xs + ys[..|ys| - 1];
      SnacksTotalAppend(onSale, xs, ys[..|ys| - 1]);
      assert (xs + ys)[|xs + ys| - 1] == last;
    }
  }

  /** Entries whose ids are not on sale add nothing. */
  lemma {:induction false} SnacksTotalUnknown(onSale: seq<Snack>, items: seq<SnackItem>)
    requires forall k :: 0 <= k < |items| ==> SnackIndex(onSale, items[k].snackId).None?
    ensures SnacksTotal(onSale, items) == 0.0
    decreases |items|
  {
    if items != [] {
      SnacksTotalUnknown(onSale, items[..|items| - 1]);
    }
  }

  /** With prices that are not negative, entries with quantities that are not negative cost nothing negative. */
  lemma {:induction false} SnacksTotalNonnegative(onSale: seq<Snack>, items: seq<SnackItem>)
    requires forall k :: 0 <= k < |onSale| ==> onSale[k].price >= 0.0
    requires forall i :: 0 <= i < |items| ==> items[i].quantity >= 0
    ensures SnacksTotal(onSale, items) >= 0.0
    decreases |items|
  {
    if items != [] {
      var init, last := items[..|items| - 1], items[|items| - 1];
      SnacksTotalNonnegative(onSale, init);
      assert SnackCharge(onSale, last) >= 0.0 by {
        match SnackIndex(onSale, last.snackId)
        case None =>
        case Some(i) => ProductNonnegative(onSale[i].price, last.quantity as real);
      }
      assert SnacksTotal(onSale, items) == SnacksTotal(onSale, init) + SnackCharge(onSale, last);
    }
  }

  lemma ProductNonnegative(a: real, b: real)
    requires a >= 0.0 && b >= 0.0
    ensures a * b >= 0.0
  {
  }

  /** A repeated entry is charged every time it appears. */
  lemma SnacksTotalRepeated(onSale: seq<Snack>, items: seq<SnackItem>, item: SnackItem)
    ensures SnacksTotal(onSale, items + [item, item]) == SnacksTotal(onSale, items) + 2.0 * SnackCharge(onSale, item)
  {
    SnacksTotalAppend(onSale, items, [item, item]);
    assert [item, item][..1] == [item];
    assert [item][..0] == [];
    assert SnacksTotal(onSale, [item]) == SnackCharge(onSale, item);
    assert SnacksTotal(onSale, [item, item]) == SnacksTotal(onSale, [item]) + SnackCharge(onSale, item);
  }

  /**
   * The total is taken over the snacks on sale while the line items are taken over
   * the whole catalogue: a snack that exists but is off sale is listed on the booking
   * at its price and charged nothing.
   */
  lemma OffSaleSnackListedButNotCharged(catalogue: seq<Snack>, bookingId: string, item: SnackItem)
    requires forall j :: 0 <= j < |catalogue| ==> !catalogue[j].available
    requires SnackIndex(catalogue, item.snackId).Some?
    ensures SnacksTotal(OnSale(catalogue), [item]) == 0.0
    ensures LineItems(catalogue, bookingId, [item])
            == [BookingSnack(bookingId, item.snackId, item.quantity,
                             catalogue[SnackIndex(catalogue, item.snackId).value].price)]
  {
    var onSale := OnSale(catalogue);
    OnSaleExact(catalogue);
    assert onSale == [];
    assert [item][..0] == [];
  }

  /** The running sum of the handler, entry by entry. */
  method SumSnacks(onSale: seq<Snack>, items: seq<SnackItem>) returns (total: real)
    ensures total == SnacksTotal(onSale, items)
  {
    total := 0.0;
    for k := 0 to |items|
      invariant total == SnacksTotal(onSale, items[..k])
    {
      assert items[..k + 1][..k] == items[..k];
      var found := SnackIndex(onSale, items[k].snackId);
      if found.Some? {
        total := total + onSale[found.value].price * items[k].quantity as real;
      }
    }
    assert items[..|items|] == items;
  }

  // -------------------------------------------------------------------------------
  // The guards

  /** How the guards settle a request: an error answer, or a booking to make. */
  datatype Admission =
    | Refused(response: Response)
    | Admitted(userId: string, request: BookingRequest, screening: Screening)

  /**
   * The guards in the handler's order. `userId` is who the session names, `body` the
   * parsed JSON (`None` when it is not JSON) and `screenings` the store's screenings.
   */
  function Admit(userId: Option<string>, body: Option<BookingRequest>, screenings: seq<Screening>): (a: Admission)
    ensures a.Admitted? ==>
      Session.Truthy(userId) && a.userId == userId.value && body == Some(a.request) &&
      ScreeningIndex(screenings, a.request.screeningId).Some? &&
      a.screening == screenings[ScreeningIndex(screenings, a.request.screeningId).value] &&
      1 <= a.request.seatsBooked <= a.screening.availableSeats
    ensures a.Refused? ==> a.response.status in {401, 500, 400, 404}
  {
    if !Session.Truthy(userId) then Refused(Json(401, ErrorJson("Authentication required")))
    else if body.None? then Refused(Json(500, ErrorJson("Internal server error")))
    else
      var req := body.value;
      if req.screeningId == "" || req.seatsBooked < 1 then Refused(Json(400, ErrorJson("Invalid booking data")))
      else match ScreeningIndex(screenings, req.screeningId)
        case None => Refused(Json(404, ErrorJson("Screening not found")))
        case Some(i) =>
          if req.seatsBooked > screenings[i].availableSeats then
            Refused(Json(400, ErrorJson("Only " + Text.IntToString(screenings[i].availableSeats) + " seats available")))
          else Admitted(userId.value, req, screenings[i])
  }

  /** Each guard, checked in turn, gives its own answer. */
  lemma AdmitOrder(userId: Option<string>, body: Option<BookingRequest>, screenings: seq<Screening>)
    ensures !Session.Truthy(userId) ==> Admit(userId, body, screenings).response.status == 401
    ensures Session.Truthy(userId) && body.None? ==>
      Admit(userId, body, screenings) == Refused(Json(500, ErrorJson("Internal server error")))
    ensures Session.Truthy(userId) && body.Some? && (body.value.screeningId == "" || body.value.seatsBooked < 1) ==>
      Admit(userId, body, screenings) == Refused(Json(400, ErrorJson("Invalid booking data")))
    ensures (Session.Truthy(userId) && body.Some? && body.value.screeningId != "" && body.value.seatsBooked >= 1 &&
             forall j :: 0 <= j < |screenings| ==> screenings[j].screeningId != body.value.screeningId) ==>
      Admit(userId, body, screenings).response.status == 404
  {
  }

  /** Too many seats gives 400 with the number of free seats in the message. */
  lemma AdmitTooManySeats(userId: string, req: BookingRequest, screenings: seq<Screening>, i: nat)
    requires userId != "" && req.screeningId != "" && req.seatsBooked >= 1
    requires ScreeningIndex(screenings, req.screeningId) == Some(i)
    requires req.seatsBooked > screenings[i].availableSeats
    ensures Admit(Some(userId), Some(req), screenings)
            == Refused(Json(400, ErrorJson("Only " + Text.IntToString(screenings[i].availableSeats) + " seats available")))
  {
  }

  /** A request that passes every guard is admitted. */
  lemma AdmitAccepts(userId: string, req: BookingRequest, screenings: seq<Screening>, i: nat)
    requires userId != "" && req.screeningId != "" && 1 <= req.seatsBooked
    requires ScreeningIndex(screenings, req.screeningId) == Some(i)
    requires req.seatsBooked <= screenings[i].availableSeats
    ensures Admit(Some(userId), Some(req), screenings) == Admitted(userId, req, screenings[i])
  {
  }

  // -------------------------------------------------------------------------------
  // The handler

  /** The booking the handler stores for an admitted request. */
  function BookingFor(a: Admission, bookingId: string, onSale: seq<Snack>, now: int): (b: Booking)
    requires a.Admitted?
    ensures b.bookingStatus == Confirmed && b.totalAmount == a.request.totalAmount
    ensures b.snacksTotal == SnacksTotal(onSale, a.request.snacks)
    ensures b.userId == a.userId && b.screeningId == a.request.screeningId && b.seatsBooked == a.request.seatsBooked
  {
    Booking(bookingId, a.userId, a.request.screeningId, a.request.seatsBooked, Confirmed,
            a.request.totalAmount, SnacksTotal(onSale, a.request.snacks), now, now)
  }

  /**
   * `POST`: resolves the session (which may drop an expired one), runs the guards and,
   * when they pass, books. A refused request changes nothing but the session list; an
   * admitted one adds one confirmed booking under a fresh id, takes its seats off its
   * screening and adds its snack line items.
   */
  method Post(db: Database.MongoDatabase, cookieHeader: Option<string>, body: Option<BookingRequest>, now: int)
    returns (r: Response)
    requires db.Valid()
    modifies db`sessions, db`bookings, db`screenings, db`nextId, db`issued, db`bookingSnacks
    ensures db.Valid()
    ensures db.sessions == Session.SessionsAfterLookup(old(db.sessions), cookieHeader, now)
    ensures var a := Admit(Session.ResolveUser(old(db.sessions), cookieHeader, now), body, old(db.screenings));
      if a.Refused? then
        r == a.response &&
        db.bookings == old(db.bookings) && db.screenings == old(db.screenings) &&
        db.bookingSnacks == old(db.bookingSnacks) && db.nextId == old(db.nextId)
      else
        var id := Crypto.FreshId(old(db.nextId));
        r == Json(200, BookingJson(id, ConfirmedMessage)) &&
        db.bookings == old(db.bookings) + [BookingFor(a, id, OnSale(old(db.snacks)), now)] &&
        db.screenings == DecrementFirst(old(db.screenings), a.request.screeningId, a.request.seatsBooked) &&
        db.bookingSnacks == old(db.bookingSnacks) + LineItems(old(db.snacks), id, a.request.snacks)
  {
    var userId := Session.GetCurrentUser(db, cookieHeader, now);
    var a := Guard(db, userId, body);
    if a.Refused? {
      return a.response;
    }
    r := Book(db, a.userId, a.request, now);
  }

  /** The guards of the handler, as early returns, against the store's screenings. */
  method Guard(db: Database.MongoDatabase, userId: Option<string>, body: Option<BookingRequest>) returns (a: Admission)
    ensures a == Admit(userId, body, db.screenings)
  {
    if !Session.Truthy(userId) {
      return Refused(Json(401, ErrorJson("Authentication required")));
    }
    if body.None? {
      return Refused(Json(500, ErrorJson("Internal server error")));
    }
    var req := body.value;
    if req.screeningId == "" || req.seatsBooked < 1 {
      return Refused(Json(400, ErrorJson("Invalid booking data")));
    }
    var screening := db.GetScreeningById(req.screeningId);
    if screening.None? {
      return Refused(Json(404, ErrorJson("Screening not found")));
    }
    if req.seatsBooked > screening.value.availableSeats {
      return Refused(Json(400, ErrorJson("Only " + Text.IntToString(screening.value.availableSeats) + " seats available")));
    }
    a := Admitted(userId.value, req, screening.value);
  }

  /** The part of the handler past the guards: the snack total, the booking, the line items. */
  method Book(db: Database.MongoDatabase, userId: string, req: BookingRequest, now: int) returns (r: Response)
    requires db.Valid()
    requires ScreeningIndex(db.screenings, req.screeningId).Some?
    requires 0 <= req.seatsBooked <= db.screenings[ScreeningIndex(db.screenings, req.screeningId).value].availableSeats
    modifies db`bookings, db`screenings, db`nextId, db`issued, db`bookingSnacks
    ensures db.Valid()
    ensures var id := Crypto.FreshId(old(db.nextId));
      r == Json(200, BookingJson(id, ConfirmedMessage)) &&
      db.bookings == old(db.bookings) + [Booking(id, userId, req.screeningId, req.seatsBooked, Confirmed, req.totalAmount,
                                                SnacksTotal(OnSale(old(db.snacks)), req.snacks),
                                                now, now)] &&
      db.screenings == DecrementFirst(old(db.screenings), req.screeningId, req.seatsBooked) &&
      db.bookingSnacks == old(db.bookingSnacks) + LineItems(old(db.snacks), id, req.snacks)
  {
    var snacksTotal := RequestSnacksTotal(db, req.snacks);
    var booking := db.CreateBooking(userId, req.screeningId, req.seatsBooked, Confirmed, req.totalAmount, snacksTotal, now);
    AddLineItems(db, booking.bookingId, req.snacks);
    r := Json(200, BookingJson(booking.bookingId, ConfirmedMessage));
  }

  /** The snack total of the handler: nothing without snacks, else the request's entries priced against the snacks on sale. */
  method RequestSnacksTotal(db: Database.MongoDatabase, items: seq<SnackItem>) returns (total: real)
    ensures total == SnacksTotal(OnSale(db.snacks), items)
  {
    total := 0.0;
    if |items| > 0 {
      var onSale := db.GetSnacks();
      total := SumSnacks(onSale, items);
    }
  }

  /** The handler's `addBookingSnacks` step, taken only when the request lists snacks. */
  method AddLineItems(db: Database.MongoDatabase, bookingId: string, items: seq<SnackItem>)
    modifies db`bookingSnacks
    ensures db.bookingSnacks == old(db.bookingSnacks) + LineItems(db.snacks, bookingId, items)
  {
    if |items| > 0 {
      db.AddBookingSnacks(bookingId, items);
    } else {
      assert db.bookingSnacks + LineItems(db.snacks, bookingId, items) == db.bookingSnacks;
    }
  }
}
