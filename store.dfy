/**
 * The record-level logic of the store, on plain sequences: first-match lookups (a
 * collection's `findOne`), the seat inventory that bookings and screenings must agree
 * on, the `$inc` that a booking applies to its screening, snack line items, and
 * session records with their expiry.
 */
module Store {
  import opened Wrappers
  import opened Types
  import Seqs

  /** `findOne({ screening_id })`: the position of the first screening with that id. */
  function ScreeningIndex(ss: seq<Screening>, id: string): (r: Option<nat>)
    ensures r.Some? ==> r.value < |ss| && ss[r.value].screeningId == id
    ensures r.None? <==> forall j :: 0 <= j < |ss| ==> ss[j].screeningId != id
  {
    Seqs.FindFirst(ss, (s: Screening) => s.screeningId == id)
  }

  /** `findOne({ snack_id })` over a snack list. */
  function SnackIndex(snacks: seq<Snack>, id: string): (r: Option<nat>)
    ensures r.Some? ==> r.value < |snacks| && snacks[r.value].snackId == id
    ensures r.Some? ==> forall j :: 0 <= j < r.value ==> snacks[j].snackId != id
    ensures r.None? <==> forall j :: 0 <= j < |snacks| ==> snacks[j].snackId != id
  {
    Seqs.FindFirst(snacks, (s: Snack) => s.snackId == id)
  }

  /** `findOne({ username })` over the users. */
  function UserIndexByName(users: seq<User>, username: string): (r: Option<nat>)
    ensures r.Some? ==> r.value < |users| && users[r.value].username == username
    ensures r.Some? ==> forall j :: 0 <= j < r.value ==> users[j].username != username
    ensures r.None? <==> forall j :: 0 <= j < |users| ==> users[j].username != username
  {
    Seqs.FindFirst(users, (u: User) => u.username == username)
  }

  /** `findOne({ email })` over the users. */
  function UserIndexByEmail(users: seq<User>, email: string): (r: Option<nat>)
    ensures r.Some? ==> r.value < |users| && users[r.value].email == email
    ensures r.None? <==> forall j :: 0 <= j < |users| ==> users[j].email != email
  {
    Seqs.FindFirst(users, (u: User) => u.email == email)
  }

  /** `findOne({ username })` over the administrators. */
  function AdminIndexByName(admins: seq<Admin>, username: string): (r: Option<nat>)
    ensures r.Some? ==> r.value < |admins| && admins[r.value].username == username
    ensures r.Some? ==> forall j :: 0 <= j < r.value ==> admins[j].username != username
    ensures r.None? <==> forall j :: 0 <= j < |admins| ==> admins[j].username != username
  {
    Seqs.FindFirst(admins, (a: Admin) => a.username == username)
  }

  // ---------------------------------------------------------------------------------
  // Seat inventory

  /** The seats of all bookings recorded against screening `id`. */
  function SeatsBooked(bs: seq<Booking>, id: string): int
    decreases |bs|
  {
    if bs == [] then 0
    else SeatsBooked(bs[..|bs| - 1], id)
         + (if bs[|bs| - 1].screeningId == id then bs[|bs| - 1].seatsBooked else 0)
  }

  /** One more booking adds its seats to its own screening's count and to no other. */
  lemma SeatsBookedAppend(bs: seq<Booking>, b: Booking, id: string)
    ensures SeatsBooked(bs + [b], id)
            == SeatsBooked(bs, id) + (if b.screeningId == id then b.seatsBooked else 0)
  {
    assert (bs + [b])[..|bs|] == bs;
  }

  /** A screening no booking refers to has no seats booked. */
  lemma {:induction false} SeatsBookedUnreferenced(bs: seq<Booking>, id: string)
    requires forall j :: 0 <= j < |bs| ==> bs[j].screeningId != id
    ensures SeatsBooked(bs, id) == 0
    decreases |bs|
  {
    if bs != [] {
      SeatsBookedUnreferenced(bs[..|bs| - 1], id);
    }
  }

  /**
   * The seat inventory: every screening has between zero and all of its seats free,
   * and the seats taken are exactly those its bookings hold.
   */
  ghost predicate InventoryHolds(ss: seq<Screening>, bs: seq<Booking>) {
    forall i :: 0 <= i < |ss| ==>
      0 <= ss[i].availableSeats <= ss[i].totalSeats &&
      ss[i].totalSeats - ss[i].availableSeats == SeatsBooked(bs, ss[i].screeningId)
  }

  ghost predicate DistinctScreeningIds(ss: seq<Screening>) {
    forall i, j :: 0 <= i < j < |ss| ==> ss[i].screeningId != ss[j].screeningId
  }

  /**
   * `updateOne({ screening_id: id }, { $inc: { available_seats: -n } })`: the first
   * screening with that id loses `n` free seats, whatever the result; no match, no change.
   */
  function DecrementFirst(ss: seq<Screening>, id: string, n: int): (r: seq<Screening>)
    ensures |r| == |ss|
  {
    match ScreeningIndex(ss, id)
    case None => ss
    case Some(i) => ss[i := ss[i].(availableSeats := ss[i].availableSeats - n)]
  }

  /**
   * The effect of the decrement, stated per screening: the first match has exactly `n`
   * fewer free seats and is otherwise the same record; every other screening is untouched.
   */
  lemma DecrementFirstEffect(ss: seq<Screening>, id: string, n: int)
    ensures ScreeningIndex(ss, id).None? ==> DecrementFirst(ss, id, n) == ss
    ensures forall j :: 0 <= j < |ss| && Some(j) != ScreeningIndex(ss, id) ==>
      DecrementFirst(ss, id, n)[j] == ss[j]
    ensures ScreeningIndex(ss, id).Some? ==>
      var i := ScreeningIndex(ss, id).value;
      DecrementFirst(ss, id, n)[i] == ss[i].(availableSeats := ss[i].availableSeats - n)
  {
  }

  /**
   * A booking of `b.seatsBooked` seats, no more than are free, recorded together with
   * its decrement keeps the inventory exact and the screening ids distinct.
   */
  lemma BookingKeepsInventory(ss: seq<Screening>, bs: seq<Booking>, b: Booking)
    requires InventoryHolds(ss, bs) && DistinctScreeningIds(ss)
    requires ScreeningIndex(ss, b.screeningId).Some?
    requires 0 <= b.seatsBooked <= ss[ScreeningIndex(ss, b.screeningId).value].availableSeats
    ensures InventoryHolds(DecrementFirst(ss, b.screeningId, b.seatsBooked), bs + [b])
    ensures DistinctScreeningIds(DecrementFirst(ss, b.screeningId, b.seatsBooked))
  {
    var i := ScreeningIndex(ss, b.screeningId).value;
    var r := DecrementFirst(ss, b.screeningId, b.seatsBooked);
    assert r == ss[i := ss[i].(availableSeats := ss[i].availableSeats - b.seatsBooked)];
    forall j | 0 <= j < |r|
      ensures 0 <= r[j].availableSeats <= r[j].totalSeats
      ensures r[j].totalSeats - r[j].availableSeats == SeatsBooked(bs + [b], r[j].screeningId)
    {
      SeatsBookedAppend(bs, b, r[j].screeningId);
      if j != i {
        assert r[j] == ss[j];
        assert ss[j].screeningId != ss[i].screeningId;
      }
    }
  }

  /**
   * Screenings with new ids, all seats free, keep the inventory when no booking refers
   * to any of those ids.
   */
  lemma FreshScreeningsKeepInventory(ss: seq<Screening>, bs: seq<Booking>, added: seq<Screening>)
    requires InventoryHolds(ss, bs)
    requires forall k :: 0 <= k < |added| ==>
      0 <= added[k].availableSeats == added[k].totalSeats &&
      forall j :: 0 <= j < |bs| ==> bs[j].screeningId != added[k].screeningId
    ensures InventoryHolds(ss + added, bs)
  {
    forall k | 0 <= k < |added|
      ensures SeatsBooked(bs, added[k].screeningId) == 0
    {
      SeatsBookedUnreferenced(bs, added[k].screeningId);
    }
  }

  // ---------------------------------------------------------------------------------
  // Snack line items

  /** The snacks on sale (`available: true`), in catalogue order. */
  function OnSale(catalogue: seq<Snack>): (r: seq<Snack>)
    ensures |r| <= |catalogue|
    ensures forall i :: 0 <= i < |r| ==> r[i].available
  {
    Seqs.Filter(catalogue, (s: Snack) => s.available)
  }

  /** The snacks on sale are the catalogue's available snacks, in catalogue order. */
  lemma OnSaleExact(catalogue: seq<Snack>)
    ensures Seqs.IsSubsequence(OnSale(catalogue), catalogue)
    ensures forall s :: s in OnSale(catalogue) <==> s in catalogue && s.available
  {
    Seqs.FilterIsExact(catalogue, (s: Snack) => s.available);
  }

  /** The line item one request entry gives: none when no snack has that id. */
  function LineFor(catalogue: seq<Snack>, bookingId: string, item: SnackItem): (r: seq<BookingSnack>)
    ensures |r| <= 1
    ensures r != [] <==> SnackIndex(catalogue, item.snackId).Some?
    ensures r != [] ==> r[0] == BookingSnack(bookingId, item.snackId, item.quantity,
                                            catalogue[SnackIndex(catalogue, item.snackId).value].price)
  {
    match SnackIndex(catalogue, item.snackId)
    case None => []
    case Some(k) => [BookingSnack(bookingId, item.snackId, item.quantity, catalogue[k].price)]
  }

  /** The line items `addBookingSnacks` writes for `items`, in request order. */
  function LineItems(catalogue: seq<Snack>, bookingId: string, items: seq<SnackItem>): (r: seq<BookingSnack>)
    ensures |r| <= |items|
    ensures (forall i :: 0 <= i < |items| ==> SnackIndex(catalogue, items[i].snackId).Some?) ==> |r| == |items|
    ensures forall k :: 0 <= k < |r| ==> r[k].bookingId == bookingId
    decreases |items|
  {
    if items == [] then []
    else LineItems(catalogue, bookingId, items[..|items| - 1])
         + LineFor(catalogue, bookingId, items[|items| - 1])
  }

  /** Processing one more request entry appends its line item, if any. */
  lemma LineItemsStep(catalogue: seq<Snack>, bookingId: string, items: seq<SnackItem>, k: nat)
    requires k < |items|
    ensures LineItems(catalogue, bookingId, items[..k + 1])
            == LineItems(catalogue, bookingId, items[..k]) + LineFor(catalogue, bookingId, items[k])
  {
    assert items[..k + 1][..k] == items[..k];
  }

  /**
   * Every line item belongs to the booking and carries the catalogue price of the first
   * snack with its id, as the catalogue stood when the items were written.
   */
  lemma {:induction false} LineItemsPriced(catalogue: seq<Snack>, bookingId: string, items: seq<SnackItem>)
    ensures forall j :: 0 <= j < |LineItems(catalogue, bookingId, items)| ==>
      var l := LineItems(catalogue, bookingId, items)[j];
      l.bookingId == bookingId && SnackIndex(catalogue, l.snackId).Some? &&
      l.pricePerItem == catalogue[SnackIndex(catalogue, l.snackId).value].price
    decreases |items|
  {
    if items != [] {
      LineItemsPriced(catalogue, bookingId, items[..|items| - 1]);
    }
  }

  /**
   * When every requested snack exists, there is one line item per request entry, in the
   * same order, with the requested id and quantity unchanged (zero, negative and repeated
   * entries included).
   */
  lemma {:induction false} LineItemsOnePerKnownItem(catalogue: seq<Snack>, bookingId: string, items: seq<SnackItem>)
    requires forall j :: 0 <= j < |items| ==> SnackIndex(catalogue, items[j].snackId).Some?
    ensures |LineItems(catalogue, bookingId, items)| == |items|
    ensures forall j :: 0 <= j < |items| ==>
      LineItems(catalogue, bookingId, items)[j].snackId == items[j].snackId &&
      LineItems(catalogue, bookingId, items)[j].quantity == items[j].quantity
    decreases |items|
  {
    if items != [] {
      var init := items[..|items| - 1];
      LineItemsOnePerKnownItem(catalogue, bookingId, init);
      var prefix := LineItems(catalogue, bookingId, init);
      var last := LineFor(catalogue, bookingId, items[|items| - 1]);
      assert |last| == 1;
      var all: seq<BookingSnack> := prefix + last;
      assert LineItems(catalogue, bookingId, items) == all;
      forall j | 0 <= j < |items|
        ensures all[j].snackId == items[j].snackId && all[j].quantity == items[j].quantity
      {
        if j < |init| {
          assert all[j] == prefix[j] && init[j] == items[j];
        } else {
          assert j == |prefix| && all[j] == last[0];
        }
      }
    }
  }

  /** Entries naming no snack are skipped: they contribute no line item. */
  lemma {:induction false} LineItemsSkipUnknown(catalogue: seq<Snack>, bookingId: string, items: seq<SnackItem>)
    requires forall j :: 0 <= j < |items| ==> SnackIndex(catalogue, items[j].snackId).None?
    ensures LineItems(catalogue, bookingId, items) == []
    decreases |items|
  {
    if items != [] {
      LineItemsSkipUnknown(catalogue, bookingId, items[..|items| - 1]);
    }
  }

  // ---------------------------------------------------------------------------------
  // Sessions

  /** Sessions last 24 hours; times are in milliseconds. */
  const SessionLifetime: int := 24 * 60 * 60 * 1000

  datatype SessionRecord = SessionRecord(token: string, userId: string, expires: int)

  function SessionIndex(sessions: seq<SessionRecord>, token: string): (r: Option<nat>)
    ensures r.Some? ==> r.value < |sessions| && sessions[r.value].token == token
    ensures r.Some? ==> forall j :: 0 <= j < r.value ==> sessions[j].token != token
    ensures r.None? <==> forall j :: 0 <= j < |sessions| ==> sessions[j].token != token
  {
    Seqs.FindFirst(sessions, (s: SessionRecord) => s.token == token)
  }

  /** `deleteOne({ token })`: the first record with that token goes, the rest keep their order. */
  function RemoveSession(sessions: seq<SessionRecord>, token: string): (r: seq<SessionRecord>)
    ensures SessionIndex(sessions, token).None? ==> r == sessions
    ensures SessionIndex(sessions, token).Some? ==>
      |r| == |sessions| - 1 &&
      var i := SessionIndex(sessions, token).value;
      r[..i] == sessions[..i] && r[i..] == sessions[i + 1..]
  {
    match SessionIndex(sessions, token)
    case None => sessions
    case Some(i) => sessions[..i] + sessions[i + 1..]
  }

  /**
   * What `getSession` answers at time `now`: nothing for an unknown token or for a
   * record whose expiry is strictly before `now`, and the record otherwise.
   */
  function LookupSession(sessions: seq<SessionRecord>, token: string, now: int): (r: Option<SessionRecord>)
    ensures r.Some? ==> r.value in sessions && r.value.token == token && now <= r.value.expires
    ensures SessionIndex(sessions, token).None? ==> r.None?
    ensures SessionIndex(sessions, token).Some? ==>
      var i := SessionIndex(sessions, token).value;
      (r.Some? <==> now <= sessions[i].expires) && (r.Some? ==> r.value == sessions[i])
  {
    match SessionIndex(sessions, token)
    case None => None
    case Some(i) => if sessions[i].expires < now then None else Some(sessions[i])
  }

  /**
   * A session issued at `issuedAt` under a token no earlier record uses is honoured up to
   * and including `issuedAt + SessionLifetime`, and refused after it.
   */
  lemma IssuedSessionLifetime(sessions: seq<SessionRecord>, token: string, userId: string, issuedAt: int, now: int)
    requires SessionIndex(sessions, token).None?
    ensures var after := sessions + [SessionRecord(token, userId, issuedAt + SessionLifetime)];
      (now <= issuedAt + SessionLifetime ==> LookupSession(after, token, now).Some? &&
                                             LookupSession(after, token, now).value.userId == userId) &&
      (now > issuedAt + SessionLifetime ==> LookupSession(after, token, now).None?)
  {
    var after := sessions + [SessionRecord(token, userId, issuedAt + SessionLifetime)];
    assert after[|sessions|].token == token;
    assert SessionIndex(after, token) == Some(|sessions|);
  }

  /** After the record for a token is removed, a lookup finds the next record with it, if any. */
  lemma RemoveThenLookup(sessions: seq<SessionRecord>, token: string, now: int)
    requires forall i, j :: 0 <= i < j < |sessions| ==> sessions[i].token != sessions[j].token
    ensures LookupSession(RemoveSession(sessions, token), token, now).None?
  {
    var r := RemoveSession(sessions, token);
    if SessionIndex(sessions, token).Some? {
      var i := SessionIndex(sessions, token).value;
      forall j | 0 <= j < |r| ensures r[j].token != token {
        if j < i {
          assert r[j] == sessions[j];
        } else {
          assert r[j] == sessions[j + 1];
        }
      }
    }
  }
}
