/** The database the backend routes act on, with the `flights` and `bookings`
    tables abstracted to maps from row id to row, and the shape of an HTTP reply.
    Timestamps are whole seconds; money is a whole number of rupees. */
module Store {
  import opened Common

  /** One row of the `flights` table. */
  datatype Flight = Flight(
    flightNumber: string,
    airline: string,
    fromAirport: string,
    toAirport: string,
    departureTime: int,
    arrivalTime: int,
    price: int,
    availableSeats: int,
    totalSeats: int,
    aircraftType: string,
    status: string)

  const CONFIRMED: string := "Confirmed"
  const CANCELLED: string := "Cancelled"

  /** One row of the `bookings` table; `status` is free text in the table. */
  datatype Booking = Booking(
    userId: nat,
    flightId: nat,
    bookingReference: string,
    passengerName: string,
    seatNumber: Option<string>,
    totalPrice: int,
    status: string,
    checkedIn: bool)

  /** Both tables, and the next value of the bookings id sequence. */
  datatype Db = Db(
    flights: map<nat, Flight>,
    bookings: map<nat, Booking>,
    nextBookingId: nat)

  /** The id sequence has moved past every booking id in use. */
  predicate FreshIds(db: Db) {
    forall k :: k in db.bookings ==> k < db.nextBookingId
  }

  /** Some booking row points at flight `fid` through `bookings.flight_id`. */
  predicate Referenced(db: Db, fid: nat) {
    exists k :: k in db.bookings && db.bookings[k].flightId == fid
  }

  /** The foreign key from `bookings.flight_id` to `flights.id` holds. */
  predicate Referential(db: Db) {
    forall k :: k in db.bookings ==> db.bookings[k].flightId in db.flights
  }

  /** An HTTP reply: a status code with a JSON body, or `{ error: message }`. */
  datatype Reply<+T> = Ok(code: nat, body: T) | Fail(code: nat, error: string)

  /** What a route returns: its reply and the database after it. */
  datatype Step<+T> = Step(reply: Reply<T>, db: Db)
}
