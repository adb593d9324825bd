/** The booking routes: create (POST `/`), check-in (PATCH `/:id/checkin`) and
    cancel (PATCH `/:id/cancel`). Each transaction is a pure function from the
    database to a reply and the database after it; a thrown error followed by
    ROLLBACK is a reply whose database is the one we started from. */
module Bookings {
  import opened Common
  import opened Text
  import opened Store

  const FLIGHT_NOT_FOUND: string := "Flight not found"
  const NO_SEATS: string := "No available seats"
  const BOOKING_NOT_FOUND: string := "Booking not found"
  const CANCEL_OK: string := "Booking cancelled successfully"

  /** The JSON body of POST `/`. */
  datatype BookingRequest = BookingRequest(
    userId: nat,
    flightId: nat,
    passengerName: string,
    seatNumber: Option<string>,
    totalPrice: int)

  // ---------------------------------------------------------------------------
  // Booking reference

  /** `s.substr(start, length)`, clamped to the string as JavaScript clamps it. */
  function Substr(s: string, start: nat, length: nat): (r: string)
    ensures |r| == Min(length, |s| - Min(start, |s|))
    ensures forall i :: 0 <= i < |r| ==> r[i] == s[start + i]
  {
    s[Min(start, |s|)..Min(start + length, |s|)]
  }

  predicate IsRadix36Digit(c: char) {
    IsDigit(c) || 'a' <= c <= 'z'
  }

  predicate IsUpperAlphanumeric(c: char) {
    IsDigit(c) || 'A' <= c <= 'Z'
  }

  /** What `Math.random().toString(36)` yields: `0.` then lower-case radix-36 digits
      (or just `0` when the draw is exactly zero). */
  predicate IsRadix36Fraction(draw: string) {
    (draw == "0") ||
    (|draw| >= 2 && draw[0] == '0' && draw[1] == '.'
     && forall i :: 2 <= i < |draw| ==> IsRadix36Digit(draw[i]))
  }

  /** `'BKG' + draw.substr(2, 9).toUpperCase()`, the reference a new booking gets,
      where `draw` is the text of the random number. */
  function BookingReference(draw: string): (r: string)
    ensures 3 <= |r| <= 12
    ensures r[..3] == "BKG"
    ensures |r| == 3 + Min(9, |draw| - Min(2, |draw|))
    ensures forall i :: 3 <= i < |r| ==> r[i] == UpperChar(draw[i - 1])
    ensures IsRadix36Fraction(draw) ==> forall i :: 3 <= i < |r| ==> IsUpperAlphanumeric(r[i])
  {
    "BKG" + ToUpper(Substr(draw, 2, 9))
  }

  /** Upper-casing loses nothing on radix-36 digits: the reference gives back the
      nine (at most) characters of the draw it was cut from. */
  lemma ReferenceDeterminesDraw(a: string, b: string)
    requires IsRadix36Fraction(a) && IsRadix36Fraction(b)
    requires BookingReference(a) == BookingReference(b)
    ensures Substr(a, 2, 9) == Substr(b, 2, 9)
  {
    var r := BookingReference(a);
    var sa, sb := Substr(a, 2, 9), Substr(b, 2, 9);
    assert |sa| == |r| - 3 == |sb|;
    forall i | 0 <= i < |sa| ensures sa[i] == sb[i] {
      assert r[i + 3] == UpperChar(a[i + 2]) && BookingReference(b)[i + 3] == UpperChar(b[i + 2]);
      UpperRadix36Injective(a[i + 2], b[i + 2]);
    }
  }

  lemma UpperRadix36Injective(c: char, d: char)
    requires IsRadix36Digit(c) && IsRadix36Digit(d) && UpperChar(c) == UpperChar(d)
    ensures c == d
  {
  }

  // ---------------------------------------------------------------------------
  // Create

  /** The booking row the INSERT writes. */
  function NewBooking(req: BookingRequest, reference: string): Booking {
    Booking(req.userId, req.flightId, reference, req.passengerName, req.seatNumber,
            req.totalPrice, CONFIRMED, false)
  }

  /** The flight row after `available_seats = available_seats - 1`. */
  function TakeSeat(f: Flight): Flight {
    f.(availableSeats := f.availableSeats - 1)
  }

  /** The flight row after `available_seats = available_seats + 1`. */
  function ReturnSeat(f: Flight): Flight {
    f.(availableSeats := f.availableSeats + 1)
  }

  /** The state a successful create leaves: one new Confirmed booking carrying the
      request's fields under the next id, one seat fewer on its flight, nothing else. */
  predicate Booked(db: Db, req: BookingRequest, draw: string, s: Step<(nat, Booking)>) {
    var id := db.nextBookingId;
    && req.flightId in db.flights
    && id in s.db.bookings
    && s.reply == Ok(201, (id, s.db.bookings[id]))
    && s.db.bookings[id].status == CONFIRMED
    && s.db.bookings[id].userId == req.userId
    && s.db.bookings[id].flightId == req.flightId
    && s.db.bookings[id].passengerName == req.passengerName
    && s.db.bookings[id].seatNumber == req.seatNumber
    && s.db.bookings[id].totalPrice == req.totalPrice
    && s.db.bookings[id].bookingReference == BookingReference(draw)
    && !s.db.bookings[id].checkedIn
    && (forall k :: k in db.bookings && k != id ==> k in s.db.bookings && s.db.bookings[k] == db.bookings[k])
    && s.db.bookings.Keys == db.bookings.Keys + {id}
    && s.db.flights.Keys == db.flights.Keys
    && s.db.flights[req.flightId] == db.flights[req.flightId].(availableSeats := db.flights[req.flightId].availableSeats - 1)
    && (forall f :: f in db.flights && f != req.flightId ==> s.db.flights[f] == db.flights[f])
    && s.db.nextBookingId == id + 1
  }

  /** POST `/`: check the flight, insert a Confirmed booking and take one seat,
      all or nothing. Both failures are thrown inside the transaction, so both are
      reported as 500 carrying the thrown message, and nothing changes. */
  function Create(db: Db, req: BookingRequest, draw: string): (s: Step<(nat, Booking)>)
    ensures req.flightId !in db.flights ==> s == Step(Fail(500, FLIGHT_NOT_FOUND), db)
    ensures req.flightId in db.flights && db.flights[req.flightId].availableSeats <= 0
            ==> s == Step(Fail(500, NO_SEATS), db)
    ensures s.reply.Ok? <==> req.flightId in db.flights && db.flights[req.flightId].availableSeats > 0
    ensures s.reply.Ok? ==> Booked(db, req, draw, s)
    ensures s.reply.Ok? && FreshIds(db) ==> db.nextBookingId !in db.bookings && FreshIds(s.db)
  {
    if req.flightId !in db.flights then
      Step(Fail(500, FLIGHT_NOT_FOUND), db)
    else if db.flights[req.flightId].availableSeats <= 0 then
      Step(Fail(500, NO_SEATS), db)
    else
      var id := db.nextBookingId;
      var b := NewBooking(req, BookingReference(draw));
      var db' := Db(db.flights[req.flightId := TakeSeat(db.flights[req.flightId])],
                    db.bookings[id := b], id + 1);
      Step(Ok(201, (id, b)), db')
  }

  // ---------------------------------------------------------------------------
  // Check-in

  /** PATCH `/:id/checkin`: set `checked_in` on that booking and return the row;
      404 when no row has that id. */
  function CheckIn(db: Db, id: nat): (s: Step<Booking>)
    ensures id !in db.bookings ==> s == Step(Fail(404, BOOKING_NOT_FOUND), db)
    ensures id in db.bookings ==>
      && s.reply.Ok? && s.reply.code == 200
      && s.db.flights == db.flights
      && s.db.nextBookingId == db.nextBookingId
      && s.db.bookings.Keys == db.bookings.Keys
      && s.db.bookings[id].checkedIn
      && s.reply.body == s.db.bookings[id]
      && s.db.bookings[id].(checkedIn := db.bookings[id].checkedIn) == db.bookings[id]
      && (forall k :: k in db.bookings && k != id ==> s.db.bookings[k] == db.bookings[k])
  {
    if id !in db.bookings then
      Step(Fail(404, BOOKING_NOT_FOUND), db)
    else
      var b := db.bookings[id].(checkedIn := true);
      Step(Ok(200, b), db.(bookings := db.bookings[id := b]))
  }

  /** Checking in twice leaves the same database and reply as checking in once. */
  lemma CheckInIdempotent(db: Db, id: nat)
    ensures CheckIn(CheckIn(db, id).db, id) == CheckIn(db, id)
  {
    if id in db.bookings {
      var once := CheckIn(db, id).db;
      assert once.bookings[id := once.bookings[id].(checkedIn := true)] == once.bookings;
    }
  }

  // ---------------------------------------------------------------------------
  // Cancel

  /** PATCH `/:id/cancel` as written: mark the booking Cancelled and give one seat
      back to its flight, whatever the booking's status was. A missing booking is
      thrown inside the transaction (500, nothing changes); a flight row that is
      gone makes the seat UPDATE match nothing. */
  function Cancel(db: Db, id: nat): (s: Step<string>)
    ensures id !in db.bookings ==> s == Step(Fail(500, BOOKING_NOT_FOUND), db)
    ensures id in db.bookings ==>
      var fid := db.bookings[id].flightId;
      && s.reply == Ok(200, CANCEL_OK)
      && s.db.nextBookingId == db.nextBookingId
      && s.db.bookings == db.bookings[id := db.bookings[id].(status := CANCELLED)]
      && s.db.flights.Keys == db.flights.Keys
      && (fid in db.flights ==> s.db.flights[fid].availableSeats == db.flights[fid].availableSeats + 1)
      && (forall f :: f in db.flights ==>
            s.db.flights[f] == db.flights[f].(availableSeats := s.db.flights[f].availableSeats))
      && (forall f :: f in db.flights && f != fid ==> s.db.flights[f] == db.flights[f])
  {
    if id !in db.bookings then
      Step(Fail(500, BOOKING_NOT_FOUND), db)
    else
      var b := db.bookings[id];
      var flights := if b.flightId in db.flights
                     then db.flights[b.flightId := ReturnSeat(db.flights[b.flightId])]
                     else db.flights;
      Step(Ok(200, CANCEL_OK), Db(flights, db.bookings[id := b.(status := CANCELLED)], db.nextBookingId))
  }

  /** Cancellation guarded on the booking's status: a seat goes back only when the
      booking still holds one (it is Confirmed); cancelling anything else changes
      nothing. */
  function GuardedCancel(db: Db, id: nat): (s: Step<string>)
    ensures id !in db.bookings ==> s == Step(Fail(500, BOOKING_NOT_FOUND), db)
    ensures id in db.bookings && db.bookings[id].status == CONFIRMED ==> s == Cancel(db, id)
    ensures id in db.bookings && db.bookings[id].status != CONFIRMED ==> s == Step(Ok(200, CANCEL_OK), db)
  {
    if id in db.bookings && db.bookings[id].status == CONFIRMED then Cancel(db, id)
    else if id in db.bookings then Step(Ok(200, CANCEL_OK), db)
    else Step(Fail(500, BOOKING_NOT_FOUND), db)
  }

  // ---------------------------------------------------------------------------
  // Seat accounting

  /** The bookings that hold a seat on flight `fid`. */
  ghost function Holders(bookings: map<nat, Booking>, fid: nat): set<nat> {
    set k | k in bookings && bookings[k].flightId == fid && bookings[k].status == CONFIRMED
  }

  /** Seats still for sale plus seats held by Confirmed bookings. */
  ghost function Balance(db: Db, fid: nat): int
    requires fid in db.flights
  {
    db.flights[fid].availableSeats + |Holders(db.bookings, fid)|
  }

  /** Every flight's seats are accounted for: none is oversold and none is
      created out of thin air, and the booking id sequence is ahead of every id. */
  ghost predicate Sound(db: Db) {
    && FreshIds(db)
    && forall fid :: fid in db.flights ==>
         0 <= db.flights[fid].availableSeats
         && Balance(db, fid) <= db.flights[fid].totalSeats
  }

  lemma HoldersAfterInsert(bookings: map<nat, Booking>, id: nat, b: Booking, fid: nat)
    requires id !in bookings
    ensures Holders(bookings[id := b], fid) ==
            Holders(bookings, fid) + (if b.flightId == fid && b.status == CONFIRMED then {id} else {})
  {
  }

  lemma HoldersAfterStatus(bookings: map<nat, Booking>, id: nat, st: string, fid: nat)
    requires id in bookings
    requires st != CONFIRMED
    ensures Holders(bookings[id := bookings[id].(status := st)], fid) == Holders(bookings, fid) - {id}
  {
  }

  lemma CancelledIsNotConfirmed()
    ensures CANCELLED != CONFIRMED
  {
    assert CANCELLED[1] != CONFIRMED[1];
  }

  /** A successful create moves one seat from "for sale" to "held" on the booked
      flight, so every flight's balance is unchanged. */
  lemma CreateKeepsBalance(db: Db, req: BookingRequest, draw: string)
    requires FreshIds(db)
    requires Create(db, req, draw).reply.Ok?
    ensures var db' := Create(db, req, draw).db;
      forall fid :: fid in db.flights ==> fid in db'.flights && Balance(db', fid) == Balance(db, fid)
  {
    var db' := Create(db, req, draw).db;
    var id := db.nextBookingId;
    forall fid | fid in db.flights
      ensures fid in db'.flights && Balance(db', fid) == Balance(db, fid)
    {
      HoldersAfterInsert(db.bookings, id, db'.bookings[id], fid);
    }
  }

  /** Cancelling a Confirmed booking moves its seat back to "for sale": every
      flight's balance is unchanged. */
  lemma CancelConfirmedKeepsBalance(db: Db, id: nat)
    requires id in db.bookings && db.bookings[id].status == CONFIRMED
    ensures var db' := Cancel(db, id).db;
      forall fid :: fid in db.flights ==> fid in db'.flights && Balance(db', fid) == Balance(db, fid)
  {
    var db' := Cancel(db, id).db;
    CancelledIsNotConfirmed();
    forall fid | fid in db.flights
      ensures fid in db'.flights && Balance(db', fid) == Balance(db, fid)
    {
      HoldersAfterStatus(db.bookings, id, CANCELLED, fid);
      assert id in Holders(db.bookings, fid) <==> fid == db.bookings[id].flightId;
    }
  }

  /** As written, cancelling a booking that holds no seat (already Cancelled, or
      any other status) still returns a seat: the flight's balance grows by one. */
  lemma CancelUnheldAddsSeat(db: Db, id: nat)
    requires id in db.bookings && db.bookings[id].status != CONFIRMED
    requires db.bookings[id].flightId in db.flights
    ensures var fid := db.bookings[id].flightId;
      Balance(Cancel(db, id).db, fid) == Balance(db, fid) + 1
  {
    var fid := db.bookings[id].flightId;
    var db' := Cancel(db, id).db;
    CancelledIsNotConfirmed();
    HoldersAfterStatus(db.bookings, id, CANCELLED, fid);
    assert id !in Holders(db.bookings, fid);
    assert Holders(db'.bookings, fid) == Holders(db.bookings, fid);
  }

  /** Create followed by cancelling the new booking gives back the flights table
      exactly as it was. */
  lemma CreateThenCancelRestoresFlights(db: Db, req: BookingRequest, draw: string)
    requires Create(db, req, draw).reply.Ok?
    ensures var s := Create(db, req, draw);
      Cancel(s.db, s.reply.body.0).db.flights == db.flights
  {
    var s := Create(db, req, draw);
    var fid := req.flightId;
    var after := Cancel(s.db, s.reply.body.0).db.flights;
    assert after[fid] == db.flights[fid];
    assert after == db.flights;
  }

  /** Cancelling the same booking twice gives back two seats. */
  lemma CancelTwiceAddsTwo(db: Db, id: nat)
    requires id in db.bookings && db.bookings[id].flightId in db.flights
    ensures var fid := db.bookings[id].flightId;
      Cancel(Cancel(db, id).db, id).db.flights[fid].availableSeats
        == db.flights[fid].availableSeats + 2
  {
  }

  /** Create keeps every flight's seats accounted for, whatever it replies. */
  lemma CreateKeepsSound(db: Db, req: BookingRequest, draw: string)
    requires Sound(db)
    ensures Sound(Create(db, req, draw).db)
  {
    var s := Create(db, req, draw);
    if s.reply.Ok? {
      CreateKeepsBalance(db, req, draw);
      forall fid | fid in s.db.flights
        ensures 0 <= s.db.flights[fid].availableSeats
        ensures Balance(s.db, fid) <= s.db.flights[fid].totalSeats
      {
        assert fid in db.flights;
      }
    }
  }

  /** The corrected cancel keeps every flight's seats accounted for. */
  lemma GuardedCancelKeepsSound(db: Db, id: nat)
    requires Sound(db)
    ensures Sound(GuardedCancel(db, id).db)
  {
    if id in db.bookings && db.bookings[id].status == CONFIRMED {
      var db' := Cancel(db, id).db;
      var fid := db.bookings[id].flightId;
      CancelConfirmedKeepsBalance(db, id);
      forall f | f in db'.flights
        ensures 0 <= db'.flights[f].availableSeats
        ensures Balance(db', f) <= db'.flights[f].totalSeats
      {
        assert f in db.flights;
      }
      assert FreshIds(db');
    }
  }

  /** No booking route removes a flight, and a new booking names a flight that
      exists, so the foreign key from bookings to flights keeps holding. */
  lemma RoutesKeepReferential(db: Db, req: BookingRequest, draw: string, id: nat)
    requires Referential(db)
    ensures Referential(Create(db, req, draw).db)
    ensures Referential(CheckIn(db, id).db)
    ensures Referential(Cancel(db, id).db)
    ensures Referential(GuardedCancel(db, id).db)
  {
  }

  /** Check-in does not touch seats: every flight's balance is unchanged. */
  lemma CheckInKeepsSound(db: Db, id: nat)
    requires Sound(db)
    ensures Sound(CheckIn(db, id).db)
  {
    if id in db.bookings {
      var db' := CheckIn(db, id).db;
      forall fid | fid in db'.flights
        ensures Holders(db'.bookings, fid) == Holders(db.bookings, fid)
      {
      }
    }
  }

  /** The as-written cancel does not keep seats accounted for: one flight with one
      seat, sold and then cancelled twice, ends with two seats for sale. */
  lemma DoubleCancelOversells()
    ensures var f := Flight("AI-2156", "Air India", "Delhi (DEL)", "Mumbai (BOM)", 0, 9000, 5999, 0, 1, "Boeing 737", "scheduled");
      var b := Booking(1, 7, "BKG1", "A", None, 5999, CONFIRMED, false);
      var db := Db(map[7 := f], map[1 := b], 2);
      var twice := Cancel(Cancel(db, 1).db, 1).db;
      Sound(db) && !Sound(twice) && twice.flights[7].availableSeats == 2
  {
    var f := Flight("AI-2156", "Air India", "Delhi (DEL)", "Mumbai (BOM)", 0, 9000, 5999, 0, 1, "Boeing 737", "scheduled");
    var b := Booking(1, 7, "BKG1", "A", None, 5999, CONFIRMED, false);
    var db := Db(map[7 := f], map[1 := b], 2);
    assert Holders(db.bookings, 7) == {1};
    var twice := Cancel(Cancel(db, 1).db, 1).db;
    assert twice.flights[7].availableSeats == 2;
    assert Balance(twice, 7) >= 2;
  }
}
