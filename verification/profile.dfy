/** The profile page: the transform from booking rows sent by the backend to the
    tickets the page shows, the status colours, and the check-in dialog. */
module Profile {
  import opened Common
  import opened Text

  /** The fields of a row of `GET /api/bookings/user/:userId` that the page keeps
      without reformatting. */
  datatype BookingRow = BookingRow(
    id: nat,
    bookingReference: string,
    flightNumber: string,
    airline: string,
    fromAirport: string,
    toAirport: string,
    passengerName: string,
    seatNumber: Option<string>,
    status: string)

  datatype Ticket = Ticket(
    id: string,
    bookingRef: string,
    flightNumber: string,
    airline: string,
    from: string,
    to: string,
    passenger: string,
    seat: string,
    status: string)

  const UPCOMING: string := "Upcoming"
  const COMPLETED: string := "Completed"
  const CANCELLED: string := "Cancelled"
  const CONFIRMED: string := "Confirmed"
  const NO_SEAT: string := "TBA"

  /** `booking.seat_number || 'TBA'`: a null or empty seat shows as TBA. */
  function SeatLabel(seat: Option<string>): (s: string)
    ensures seat.Some? && seat.value != "" ==> s == seat.value
    ensures seat.None? || seat.value == "" ==> s == NO_SEAT
  {
    match seat
    case None => NO_SEAT
    case Some(v) => if v == "" then NO_SEAT else v
  }

  /** A confirmed booking shows as upcoming; any other status is shown as sent. */
  function StatusLabel(status: string): (s: string)
    ensures status == CONFIRMED ==> s == UPCOMING
    ensures status != CONFIRMED ==> s == status
  {
    if status == CONFIRMED then UPCOMING else status
  }

  /** The transform of one row. The id is the decimal rendering of the row id. */
  function ToTicket(b: BookingRow): (t: Ticket)
    ensures AllDigits(t.id) && ParseDigits(t.id) == b.id
    ensures t.bookingRef == b.bookingReference && t.passenger == b.passengerName
    ensures t.from == b.fromAirport && t.to == b.toAirport
    ensures t.flightNumber == b.flightNumber && t.airline == b.airline
    ensures t.seat == SeatLabel(b.seatNumber)
    ensures t.status == StatusLabel(b.status)
  {
    ParseNatToString(b.id);
    Ticket(NatToString(b.id), b.bookingReference, b.flightNumber, b.airline,
           b.fromAirport, b.toAirport, b.passengerName, SeatLabel(b.seatNumber), StatusLabel(b.status))
  }

  /** `response.data.map(...)`: one ticket per row, in the same order. */
  function ToTickets(rows: seq<BookingRow>): (ts: seq<Ticket>)
    ensures |ts| == |rows|
    ensures forall i :: 0 <= i < |rows| ==> ts[i] == ToTicket(rows[i])
  {
    seq(|rows|, i requires 0 <= i < |rows| => ToTicket(rows[i]))
  }

  /** Rows with different booking ids give tickets with different ids. */
  lemma TicketIdsDistinct(rows: seq<BookingRow>)
    requires forall i, j :: 0 <= i < j < |rows| ==> rows[i].id != rows[j].id
    ensures var ts := ToTickets(rows);
      forall i, j :: 0 <= i < j < |ts| ==> ts[i].id != ts[j].id
  {
  }

  /** The tickets of a list of rows are the tickets of its parts, in order. */
  lemma ToTicketsAppend(a: seq<BookingRow>, b: seq<BookingRow>)
    ensures ToTickets(a + b) == ToTickets(a) + ToTickets(b)
  {
  }

  /** `getStatusColor`. */
  function StatusColor(status: string): (c: string)
    ensures c == "primary" <==> status == UPCOMING
    ensures c == "success" <==> status == COMPLETED
    ensures c == "error" <==> status == CANCELLED
    ensures c == "default" <==> status !in {UPCOMING, COMPLETED, CANCELLED}
  {
    if status == UPCOMING then "primary"
    else if status == COMPLETED then "success"
    else if status == CANCELLED then "error"
    else "default"
  }

  /** The Check-In button is rendered for upcoming tickets only. */
  function CheckInShown(t: Ticket): (b: bool)
    ensures b <==> StatusColor(t.status) == "primary"
  {
    t.status == UPCOMING
  }

  /** A ticket offers check-in exactly when it is drawn in the primary colour, and
      that is the case for a confirmed booking (or one the backend already labels
      upcoming); a cancelled booking never offers it. */
  lemma CheckInShownIffUpcoming(b: BookingRow)
    ensures CheckInShown(ToTicket(b)) <==> StatusColor(ToTicket(b).status) == "primary"
    ensures CheckInShown(ToTicket(b)) <==> b.status == CONFIRMED || b.status == UPCOMING
    ensures b.status == CANCELLED ==> !CheckInShown(ToTicket(b)) && StatusColor(ToTicket(b).status) == "error"
  {
  }

  /** The check-in dialog: `checkInOpen`, `selectedTicket` and `checkedIn`. */
  datatype Dialog = Dialog(open: bool, selected: Option<Ticket>, checkedIn: bool)

  const CLOSED: Dialog := Dialog(false, None, false)

  /** `handleCheckIn`: open the dialog on a ticket, not yet checked in. */
  function HandleCheckIn(d: Dialog, t: Ticket): (d': Dialog)
    ensures d'.open && d'.selected == Some(t) && !d'.checkedIn
  {
    Dialog(true, Some(t), false)
  }

  /** `confirmCheckIn`: with a ticket selected, ask the backend to check in the
      booking whose id the ticket carries, and show success whether or not the
      request succeeded (`apiOk`). The second component is the id the request is
      sent for. Without a selected ticket nothing happens. */
  function ConfirmCheckIn(d: Dialog, apiOk: bool): (r: (Dialog, Option<string>))
    ensures d.selected.None? ==> r == (d, None)
    ensures d.selected.Some? ==>
      r.0 == d.(checkedIn := true) && r.1 == Some(d.selected.value.id)
  {
    match d.selected
    case None => (d, None)
    case Some(t) => (d.(checkedIn := true), Some(t.id))
  }

  /** `handleClose`: back to the closed, empty dialog. */
  function HandleClose(d: Dialog): (d': Dialog)
    ensures !d'.open && d'.selected.None? && !d'.checkedIn
  {
    CLOSED
  }

  /** Opening the dialog on the ticket of a row and confirming sends the check-in
      for that row's booking id, and shows success even when the request fails. */
  lemma CheckInTargetsRow(d: Dialog, b: BookingRow, apiOk: bool)
    ensures var r := ConfirmCheckIn(HandleCheckIn(d, ToTicket(b)), apiOk);
      && r.0.checkedIn && r.0.open
      && r.1.Some? && AllDigits(r.1.value) && ParseDigits(r.1.value) == b.id
      && r == ConfirmCheckIn(HandleCheckIn(d, ToTicket(b)), !apiOk)
  {
  }

  /** Whatever the dialog went through, closing it and opening it again starts
      from a fresh, unchecked state. */
  lemma CloseResets(d: Dialog, t: Ticket, apiOk: bool)
    ensures HandleClose(ConfirmCheckIn(d, apiOk).0) == CLOSED
    ensures HandleCheckIn(ConfirmCheckIn(d, apiOk).0, t) == HandleCheckIn(CLOSED, t)
  {
  }
}
