/**
 * The booking form on a movie's page: the visitor picks a date, then a show time, then
 * a number of seats and snacks with steppers, sees a running total and submits. The
 * hook state (`selectedDate`, `selectedTime`, `selectedSeats`, `selectedSnacks`,
 * `error`) is the class's fields; each handler is a method. Prices are exact reals and
 * `Math.round` is "nearest integer, halves up".
 */
module BookingForm {
  import opened Wrappers
  import opened Types
  import opened Store
  import Seqs
  import Text
  import BookApi

  const SelectMessage: string := "Please select date, time, and number of seats"
  const InvalidScreeningMessage: string := "Invalid screening selection"

  /** The steppers' upper bound for one snack, and the seat stepper's bound without a screening cap. */
  const MaxSnackQuantity: int := 10
  const DefaultSeatCap: int := 10

  // -------------------------------------------------------------------------------
  // Seat and snack steppers

  /** `Math.max(1, seats - 1)`. */
  function SeatsDown(n: int): (m: int)
    ensures m >= 1 && m <= if n > 1 then n else 1
  {
    if n - 1 > 1 then n - 1 else 1
  }

  /** `selectedScreening?.available_seats || 10`: no screening, or zero seats, means 10. */
  function SeatCap(s: Option<Screening>): (cap: int)
    ensures s.Some? && s.value.availableSeats != 0 ==> cap == s.value.availableSeats
    ensures s.None? || s.value.availableSeats == 0 ==> cap == DefaultSeatCap
  {
    if s.Some? && s.value.availableSeats != 0 then s.value.availableSeats else DefaultSeatCap
  }

  /** `Math.min(cap, seats + 1)`: one more seat, but never past the cap. */
  function SeatsUp(n: int, cap: int): (m: int)
    ensures m <= cap && m <= n + 1
    ensures m == cap || m == n + 1
  {
    if cap < n + 1 then cap else n + 1
  }

  /** `Math.max(0, qty - 1)`. */
  function SnackDown(q: int): (r: int)
    ensures 0 <= r && (q >= 1 ==> r == q - 1)
  {
    if q - 1 > 0 then q - 1 else 0
  }

  /** `Math.min(10, qty + 1)`. */
  function SnackUp(q: int): (r: int)
    ensures r <= MaxSnackQuantity && (q < MaxSnackQuantity ==> r == q + 1)
  {
    if q + 1 < MaxSnackQuantity then q + 1 else MaxSnackQuantity
  }

  /** From a count in range, both steppers stay in [0, 10] and move by at most one. */
  lemma SnackSteppersStayInRange(q: int)
    requires 0 <= q <= MaxSnackQuantity
    ensures 0 <= SnackDown(q) <= MaxSnackQuantity && 0 <= SnackUp(q) <= MaxSnackQuantity
    ensures q - 1 <= SnackDown(q) <= q && q <= SnackUp(q) <= q + 1
  {
  }

  /** From one seat or more, the seat steppers keep at least one seat when the cap is not negative. */
  lemma SeatSteppersKeepOne(n: int, s: Option<Screening>)
    requires n >= 1
    requires s.Some? ==> s.value.availableSeats >= 0
    ensures SeatsDown(n) >= 1 && SeatsUp(n, SeatCap(s)) >= 1
    ensures s.Some? && s.value.availableSeats > 0 ==> SeatsUp(n, SeatCap(s)) <= s.value.availableSeats
    ensures (s.None? || s.value.availableSeats == 0) ==> SeatsUp(n, SeatCap(s)) <= DefaultSeatCap
  {
  }

  // -------------------------------------------------------------------------------
  // The snack selection: `Record<string, number>` in key insertion order

  /** The position of the entry for `id`, if the record has one. */
  function KeyIndex(items: seq<SnackItem>, id: string): (r: Option<nat>)
    ensures r.Some? ==> r.value < |items| && items[r.value].snackId == id
    ensures r.Some? ==> forall j :: 0 <= j < r.value ==> items[j].snackId != id
    ensures r.None? <==> forall j :: 0 <= j < |items| ==> items[j].snackId != id
  {
    Seqs.FindFirst(items, (e: SnackItem) => e.snackId == id)
  }

  /** `selectedSnacks[id] || 0`. */
  function Quantity(items: seq<SnackItem>, id: string): (q: int)
    ensures KeyIndex(items, id).None? ==> q == 0
  {
    match KeyIndex(items, id)
    case None => 0
    case Some(i) => items[i].quantity
  }

  /** `{ ...prev, [id]: q }`: an existing key keeps its place, a new key goes last. */
  function SetQuantity(items: seq<SnackItem>, id: string, q: int): (r: seq<SnackItem>)
    ensures |items| <= |r| <= |items| + 1
  {
    match KeyIndex(items, id)
    case Some(i) => items[i := SnackItem(id, q)]
    case None => items + [SnackItem(id, q)]
  }

  ghost predicate DistinctKeys(items: seq<SnackItem>) {
    forall i, j :: 0 <= i < j < |items| ==> items[i].snackId != items[j].snackId
  }

  ghost predicate QuantitiesInRange(items: seq<SnackItem>) {
    forall i :: 0 <= i < |items| ==> 0 <= items[i].quantity <= MaxSnackQuantity
  }

  /** Two records whose keys agree on `a`'s positions, and `b` has no `id` beyond them, place `id` alike. */
  lemma KeyIndexSameKeys(a: seq<SnackItem>, b: seq<SnackItem>, id: string)
    requires |a| <= |b|
    requires forall j :: 0 <= j < |a| ==> a[j].snackId == b[j].snackId
    requires forall j :: |a| <= j < |b| ==> b[j].snackId != id
    ensures KeyIndex(a, id) == KeyIndex(b, id)
  {
    var ka := KeyIndex(a, id);
    var kb := KeyIndex(b, id);
    if ka.Some? {
      assert b[ka.value].snackId == id;
      assert kb.Some? && kb.value <= ka.value;
    }
  }

  /**
   * `handleSnackChange(id, q)`: afterwards `id` reads `q`, every other key reads what it
   * read before, the keys keep their order, and a new key is added last.
   */
  lemma SetQuantityEffect(items: seq<SnackItem>, id: string, q: int, other: string)
    requires other != id
    ensures Quantity(SetQuantity(items, id, q), id) == q
    ensures Quantity(SetQuantity(items, id, q), other) == Quantity(items, other)
    ensures forall j :: 0 <= j < |items| ==> SetQuantity(items, id, q)[j].snackId == items[j].snackId
    ensures KeyIndex(items, id).None? ==> SetQuantity(items, id, q) == items + [SnackItem(id, q)]
  {
    var r := SetQuantity(items, id, q);
    match KeyIndex(items, id)
    case Some(i) =>
      KeyIndexSameKeys(items, r, id);
      KeyIndexSameKeys(items, r, other);
    case None =>
      KeyIndexSameKeys(items, r, other);
      assert r[|items|].snackId == id;
      assert KeyIndex(r, id) == Some(|items|);
  }

  /** Setting a quantity in [0, 10] keeps the keys distinct and every quantity in [0, 10]. */
  lemma SetQuantityKeepsRecord(items: seq<SnackItem>, id: string, q: int)
    requires DistinctKeys(items) && QuantitiesInRange(items)
    requires 0 <= q <= MaxSnackQuantity
    ensures DistinctKeys(SetQuantity(items, id, q)) && QuantitiesInRange(SetQuantity(items, id, q))
  {
  }

  // -------------------------------------------------------------------------------
  // The total

  /** What one selected snack adds: its price times the quantity, for a known snack and a positive quantity. */
  function EntryCharge(catalogue: seq<Snack>, e: SnackItem): (charge: real)
    ensures SnackIndex(catalogue, e.snackId).None? || e.quantity <= 0 ==> charge == 0.0
  {
    match SnackIndex(catalogue, e.snackId)
    case None => 0.0
    case Some(i) => if e.quantity > 0 then catalogue[i].price * e.quantity as real else 0.0
  }

  /** The snack part of `calculateTotal`, entry by entry in key order. */
  function ClientSnackSum(catalogue: seq<Snack>, items: seq<SnackItem>): (sum: real)
    ensures (forall i :: 0 <= i < |items| ==> items[i].quantity <= 0) ==> sum == 0.0
    decreases |items|
  {
    if items == [] then 0.0
    else ClientSnackSum(catalogue, items[..|items| - 1]) + EntryCharge(catalogue, items[|items| - 1])
  }

  /** With prices that are not negative the snack part is never negative, whatever the quantities. */
  lemma {:induction false} ClientSnackSumNonnegative(catalogue: seq<Snack>, items: seq<SnackItem>)
    requires forall k :: 0 <= k < |catalogue| ==> catalogue[k].price >= 0.0
    ensures ClientSnackSum(catalogue, items) >= 0.0
    decreases |items|
  {
    if items != [] {
      ClientSnackSumNonnegative(catalogue, items[..|items| - 1]);
      var e := items[|items| - 1];
      match SnackIndex(catalogue, e.snackId)
      case None =>
      case Some(i) =>
        if e.quantity > 0 {
          BookApi.ProductNonnegative(catalogue[i].price, e.quantity as real);
        }
    }
  }

  /** The ticket part: net price times the show's modifier times the seats, only once a show is chosen. */
  function TicketPart(movie: Movie, s: Option<Screening>, seats: int): (t: real)
    ensures s.None? ==> t == 0.0
  {
    if s.Some? then movie.netAmount * s.value.priceModifier * seats as real else 0.0
  }

  /** `Math.round`: the nearest integer, halves rounded up. */
  function Round(x: real): (r: int)
    ensures r as real - 0.5 <= x < r as real + 0.5
  {
    (x + 0.5).Floor
  }

  /** `calculateTotal()`: the ticket part plus the snack part, rounded once, on the sum. */
  function TotalOf(movie: Movie, s: Option<Screening>, seats: int, catalogue: seq<Snack>, items: seq<SnackItem>): (total: int)
    ensures total as real - 0.5 <= TicketPart(movie, s, seats) + ClientSnackSum(catalogue, items) < total as real + 0.5
  {
    Round(TicketPart(movie, s, seats) + ClientSnackSum(catalogue, items))
  }

  // -------------------------------------------------------------------------------
  // The payload and the submit guards

  /** The `snacks` list sent to the server: the entries with a positive quantity, in key order. */
  function Payload(items: seq<SnackItem>): (p: seq<SnackItem>)
    ensures |p| <= |items|
    ensures forall i :: 0 <= i < |p| ==> p[i].quantity > 0
  {
    Seqs.Filter(items, (e: SnackItem) => e.quantity > 0)
  }

  /** The payload lists exactly the entries with a positive quantity, in the record's order. */
  lemma PayloadIsPositiveEntries(items: seq<SnackItem>)
    ensures Seqs.IsSubsequence(Payload(items), items)
    ensures forall e :: e in Payload(items) <==> e in items && e.quantity > 0
  {
    Seqs.FilterIsExact(items, (e: SnackItem) => e.quantity > 0);
  }

  /**
   * The client's snack part equals what the server charges for the payload against the
   * same catalogue: entries the payload drops would have added nothing.
   */
  lemma {:induction false} ClientSnacksMatchServer(catalogue: seq<Snack>, items: seq<SnackItem>)
    ensures ClientSnackSum(catalogue, items) == BookApi.SnacksTotal(catalogue, Payload(items))
    decreases |items|
  {
    if items != [] {
      var init := items[..|items| - 1];
      var last := items[|items| - 1];
      assert items == init + [last];
      ClientSnacksMatchServer(catalogue, init);
      ClientSnacksStep(catalogue, init, last);
    }
  }

  /** One more entry adds the same amount on both sides. */
  lemma ClientSnacksStep(catalogue: seq<Snack>, init: seq<SnackItem>, last: SnackItem)
    requires ClientSnackSum(catalogue, init) == BookApi.SnacksTotal(catalogue, Payload(init))
    ensures ClientSnackSum(catalogue, init + [last]) == BookApi.SnacksTotal(catalogue, Payload(init + [last]))
  {
    var items := init + [last];
    assert items[..|items| - 1] == init && items[|items| - 1] == last;
    Seqs.FilterSnoc(init, last, (e: SnackItem) => e.quantity > 0);
    if last.quantity > 0 {
      PositiveEntryCharged(catalogue, init, last);
    } else {
      assert EntryCharge(catalogue, last) == 0.0;
      assert Payload(items) == Payload(init);
    }
  }

  /** An entry with a positive quantity is in the payload, and the server charges it as the client does. */
  lemma PositiveEntryCharged(catalogue: seq<Snack>, init: seq<SnackItem>, last: SnackItem)
    requires last.quantity > 0
    requires Payload(init + [last]) == Payload(init) + [last]
    ensures BookApi.SnacksTotal(catalogue, Payload(init + [last]))
            == BookApi.SnacksTotal(catalogue, Payload(init)) + EntryCharge(catalogue, last)
  {
    BookApi.SnacksTotalAppend(catalogue, Payload(init), [last]);
    assert BookApi.SnacksTotal(catalogue, [last]) == BookApi.SnackCharge(catalogue, last) by {
      assert [last][..0] == [];
    }
  }

  /** How `handleSubmit` ends: an error message and no request, or the request it posts. */
  datatype Submission = Blocked(message: string) | Send(request: BookApi.BookingRequest)

  /** The message for a seat count over the show's availability. */
  function TooManySeatsMessage(available: int): string {
    "Only " + Text.IntToString(available) + " seats available for this show"
  }

  /** The guards of `handleSubmit` in order, then the payload with the rounded total. */
  function SubmitOutcome(date: string, time: string, seats: int, s: Option<Screening>,
                         items: seq<SnackItem>, total: int): (o: Submission)
    ensures o.Send? <==> date != "" && time != "" && seats != 0 && s.Some? && seats <= s.value.availableSeats
    ensures o.Send? ==> o.request.screeningId == s.value.screeningId && o.request.seatsBooked == seats &&
                        o.request.snacks == Payload(items) && o.request.totalAmount == total as real
  {
    if date == "" || time == "" || seats == 0 then Blocked(SelectMessage)
    else if s.None? then Blocked(InvalidScreeningMessage)
    else if seats > s.value.availableSeats then Blocked(TooManySeatsMessage(s.value.availableSeats))
    else Send(BookApi.BookingRequest(s.value.screeningId, seats, Payload(items), total as real))
  }

  /** Each guard, checked in turn, gives its own message. */
  lemma SubmitGuardOrder(date: string, time: string, seats: int, s: Option<Screening>, items: seq<SnackItem>, total: int)
    ensures date == "" || time == "" || seats == 0 ==> SubmitOutcome(date, time, seats, s, items, total) == Blocked(SelectMessage)
    ensures date != "" && time != "" && seats != 0 && s.None? ==>
      SubmitOutcome(date, time, seats, s, items, total) == Blocked(InvalidScreeningMessage)
    ensures date != "" && time != "" && seats != 0 && s.Some? && seats > s.value.availableSeats ==>
      SubmitOutcome(date, time, seats, s, items, total) == Blocked(TooManySeatsMessage(s.value.availableSeats))
  {
  }

  /**
   * A request the form sends, for a show whose server record still has the seats the
   * page showed, passes every server guard, and the server stores the client's snack part
   * as the snack total.
   */
  lemma SentRequestIsAdmitted(userId: string, date: string, time: string, seats: int, s: Option<Screening>,
                              items: seq<SnackItem>, total: int, screenings: seq<Screening>, catalogue: seq<Snack>, i: nat)
    requires userId != "" && seats >= 1
    requires SubmitOutcome(date, time, seats, s, items, total).Send?
    requires s.Some? && s.value.screeningId != ""
    requires ScreeningIndex(screenings, s.value.screeningId) == Some(i) && screenings[i] == s.value
    ensures var req := SubmitOutcome(date, time, seats, s, items, total).request;
      BookApi.Admit(Some(userId), Some(req), screenings) == BookApi.Admitted(userId, req, s.value) &&
      BookApi.SnacksTotal(catalogue, req.snacks) == ClientSnackSum(catalogue, items)
  {
    var req := SubmitOutcome(date, time, seats, s, items, total).request;
    BookApi.AdmitAccepts(userId, req, screenings, i);
    ClientSnacksMatchServer(catalogue, items);
  }

  /** The first show in the list at the selected time: `availableTimes.find(s => s.time === selectedTime)`. */
  function ScreeningAt(times: seq<Screening>, time: string): (r: Option<Screening>)
    ensures r.Some? ==> r.value in times && r.value.time == time
    ensures r.None? <==> forall j :: 0 <= j < |times| ==> times[j].time != time
  {
    match Seqs.FindFirst(times, (s: Screening) => s.time == time)
    case None => None
    case Some(i) => Some(times[i])
  }

  /** The `forEach` of `calculateTotal`: adds each known snack with a positive quantity to the running total. */
  method AddSnacks(start: real, catalogue: seq<Snack>, items: seq<SnackItem>) returns (total: real)
    ensures total == start + ClientSnackSum(catalogue, items)
  {
    total := start;
    for k := 0 to |items|
      invariant total == start + ClientSnackSum(catalogue, items[..k])
    {
      var e := items[k];
      ghost var before := total;
      var i := SnackIndex(catalogue, e.snackId);
      if i.Some? && e.quantity > 0 {
        total := total + catalogue[i.value].price * e.quantity as real;
      }
      assert total == before + EntryCharge(catalogue, e);
      assert items[..k + 1][..k] == items[..k];
    }
    assert items[..|items|] == items;
  }

  // -------------------------------------------------------------------------------
  // The component state

  /** The form's props and hook state. */
  class Form {
    const movie: Movie
    const screeningsByDate: map<string, seq<Screening>>
    const snacks: seq<Snack>

    var selectedDate: string
    var selectedTime: string
    var selectedSeats: int
    var selectedSnacks: seq<SnackItem>
    var error: string

    /** A chosen date is one the date buttons offer; the snack record has distinct keys and counts in [0, 10]. */
    ghost predicate Valid()
      reads this
    {
      (selectedDate != "" ==> selectedDate in screeningsByDate) &&
      DistinctKeys(selectedSnacks) && QuantitiesInRange(selectedSnacks)
    }

    /** The initial hook state: nothing chosen, one seat, no snacks, no error. */
    constructor (movie: Movie, screeningsByDate: map<string, seq<Screening>>, snacks: seq<Snack>)
      ensures Valid()
      ensures this.movie == movie && this.screeningsByDate == screeningsByDate && this.snacks == snacks
      ensures selectedDate == "" && selectedTime == "" && selectedSeats == 1 && selectedSnacks == [] && error == ""
    {
      this.movie := movie;
      this.screeningsByDate := screeningsByDate;
      this.snacks := snacks;
      selectedDate := "";
      selectedTime := "";
      selectedSeats := 1;
      selectedSnacks := [];
      error := "";
    }

    /** `availableTimes`: the shows of the chosen date, none before a date is chosen. */
    function AvailableTimes(): seq<Screening>
      reads this
      requires Valid()
    {
      if selectedDate != "" then screeningsByDate[selectedDate] else []
    }

    /** `selectedScreening`. */
    function SelectedScreening(): Option<Screening>
      reads this
      requires Valid()
    {
      ScreeningAt(AvailableTimes(), selectedTime)
    }

    /** A date button: choosing a date clears the chosen time. */
    method SelectDate(date: string)
      requires Valid() && date in screeningsByDate
      modifies this`selectedDate, this`selectedTime
      ensures Valid()
      ensures selectedDate == date && selectedTime == ""
    {
      selectedDate := date;
      selectedTime := "";
    }

    /** A time button, enabled only for a show of the chosen date with seats left; that show becomes the selection. */
    method SelectTime(s: Screening)
      requires Valid() && s in AvailableTimes() && s.availableSeats != 0
      modifies this`selectedTime
      ensures Valid()
      ensures selectedTime == s.time
      ensures SelectedScreening().Some? && SelectedScreening().value.time == s.time
    {
      selectedTime := s.time;
    }

    /** The seat "−" button. */
    method DecreaseSeats()
      requires Valid()
      modifies this`selectedSeats
      ensures Valid()
      ensures selectedSeats == SeatsDown(old(selectedSeats))
    {
      selectedSeats := SeatsDown(selectedSeats);
    }

    /** The seat "+" button, capped by the selected show's free seats (or 10). */
    method IncreaseSeats()
      requires Valid()
      modifies this`selectedSeats
      ensures Valid()
      ensures selectedSeats == SeatsUp(old(selectedSeats), SeatCap(SelectedScreening()))
    {
      selectedSeats := SeatsUp(selectedSeats, SeatCap(SelectedScreening()));
    }

    /** A snack's "−" button: `handleSnackChange(id, max(0, qty - 1))`. */
    method DecreaseSnack(id: string)
      requires Valid()
      modifies this`selectedSnacks
      ensures Valid()
      ensures selectedSnacks == SetQuantity(old(selectedSnacks), id, SnackDown(Quantity(old(selectedSnacks), id)))
    {
      var q := SnackDown(Quantity(selectedSnacks, id));
      SetQuantityKeepsRecord(selectedSnacks, id, q);
      selectedSnacks := SetQuantity(selectedSnacks, id, q);
    }

    /** A snack's "+" button: `handleSnackChange(id, min(10, qty + 1))`. */
    method IncreaseSnack(id: string)
      requires Valid()
      modifies this`selectedSnacks
      ensures Valid()
      ensures selectedSnacks == SetQuantity(old(selectedSnacks), id, SnackUp(Quantity(old(selectedSnacks), id)))
    {
      var q := SnackUp(Quantity(selectedSnacks, id));
      assert q >= 0 by {
        if KeyIndex(selectedSnacks, id).Some? {
          assert selectedSnacks[KeyIndex(selectedSnacks, id).value].quantity >= 0;
        }
      }
      SetQuantityKeepsRecord(selectedSnacks, id, q);
      selectedSnacks := SetQuantity(selectedSnacks, id, q);
    }

    /** `calculateTotal()`: adds up the tickets and the snacks, then rounds once. */
    method CalculateTotal() returns (total: int)
      requires Valid()
      ensures total == TotalOf(movie, SelectedScreening(), selectedSeats, snacks, selectedSnacks)
    {
      var exact := 0.0;
      var s := SelectedScreening();
      if s.Some? {
        exact := exact + movie.netAmount * s.value.priceModifier * selectedSeats as real;
      }
      assert exact == TicketPart(movie, s, selectedSeats);
      exact := AddSnacks(exact, snacks, selectedSnacks);
      total := Round(exact);
    }

    /**
     * `handleSubmit` up to the `fetch`: a failed guard sets its message and sends
     * nothing; otherwise the error is cleared and the request is built.
     */
    method Submit() returns (request: Option<BookApi.BookingRequest>)
      requires Valid()
      modifies this`error
      ensures var o := SubmitOutcome(selectedDate, selectedTime, selectedSeats, SelectedScreening(), selectedSnacks,
                                     TotalOf(movie, SelectedScreening(), selectedSeats, snacks, selectedSnacks));
        (o.Blocked? ==> request.None? && error == o.message) &&
        (o.Send? ==> request == Some(o.request) && error == "")
    {
      if selectedDate == "" || selectedTime == "" || selectedSeats == 0 {
        error := SelectMessage;
        return None;
      }
      var s := SelectedScreening();
      if s.None? {
        error := InvalidScreeningMessage;
        return None;
      }
      if selectedSeats > s.value.availableSeats {
        error := TooManySeatsMessage(s.value.availableSeats);
        return None;
      }
      error := "";
      var total := CalculateTotal();
      request := Some(BookApi.BookingRequest(s.value.screeningId, selectedSeats, Payload(selectedSnacks), total as real));
    }
  }
}
