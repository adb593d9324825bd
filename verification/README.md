# Airline booking: a Dafny model of the booking core

This project models the parts of the airline booking application that carry
sequential logic, and proves properties of them:

- **Booking routes** (`Bookings`). Creating, checking in and cancelling a booking
  are modelled as transitions over the two tables. `flights` and `bookings` are
  maps from row id to row. Each route returns its HTTP reply together with the
  database it leaves, and a transaction that throws and rolls back leaves the
  database it started from. A ghost seat-accounting invariant (`Sound`) ties the
  seats for sale to the Confirmed bookings.
- **Flight routes** (`Flights`). The parameterised query that GET `/search`
  assembles is checked against an independent description: the list of active
  filters, each rendered with its own placeholder `$i`. GET, PUT and DELETE by id
  are also modelled.
- **Seat selection page** (`Seats`): the fixed 174-seat layout, the click handler
  that keeps seat statuses and the `selectedSeats` list in step, the seat
  colours, the total price and the continue button.
- **Payment page** (`Payment`): the card-number, expiry and CVV input filters, and
  the required-field checks per payment method.
- **Profile page** (`Profile`): the booking-row-to-ticket transform, the status
  colours and the check-in dialog.
- **Flight migration script** (`Migration`): airport codes, flight numbers,
  aircraft types, next-day arrival, seat counts, and the per-row loop with its
  migrated and skipped counts.

Shared helpers live in `Common` (`Option`, `Min`) and `Text`. `Text` holds the
JavaScript string operations the sources use: the digit filter, whitespace
removal, decimal rendering and `parseInt`, `trim`, upper-casing and `join`.
`Store` holds the rows, the database and the reply shape.

Every `Math.random()` draw is a parameter. The migration takes it as an exact
fraction `num / den` below one, and the seat map takes it as an occupancy
predicate. Timestamps are whole seconds. Money is a whole number of rupees.

## Model

| member | source | states |
|---|---|---|
| Bookings.Substr | airline-backend/routes/bookings.js:76 | `substr(start, length)` yields `length` characters from `start`, fewer when the string runs out, and nothing when `start` is past the end |
| Bookings.BookingReference | airline-backend/routes/bookings.js:76 | a reference is `BKG` followed by at most 9 characters of the drawn number after its `0.`, each the upper-cased character at the same place in the draw; for a radix-36 draw those characters are upper-case letters or digits |
| Bookings.ReferenceDeterminesDraw | airline-backend/routes/bookings.js:76 | for radix-36 draws, equal references come from draws with the same nine characters after `0.`: upper-casing loses nothing |
| Bookings.Create | airline-backend/routes/bookings.js:67-115 | an unknown flight gives 500 "Flight not found" and a flight with no seats left gives 500 "No available seats", both with the database unchanged; otherwise 201 and exactly one new Confirmed booking with the request's fields under a fresh id, that flight one seat down, no other flight or booking touched |
| Bookings.CheckIn | airline-backend/routes/bookings.js:118-136 | an absent id gives 404 "Booking not found" and changes nothing; otherwise only that booking's `checked_in` becomes true, and the reply is the updated row |
| Bookings.CheckInIdempotent | airline-backend/routes/bookings.js:122-125 | checking in twice gives the same reply and database as checking in once |
| Bookings.Cancel | airline-backend/routes/bookings.js:139-180 | an unknown booking gives 500 "Booking not found" and changes nothing; otherwise the booking becomes Cancelled, its flight gains one seat whatever the booking's earlier status, and no other row changes |
| Bookings.GuardedCancel | airline-backend/routes/bookings.js:160-169 | corrected cancel: it behaves like the route for a Confirmed booking, and for any other existing booking it replies success and leaves the database alone |
| Bookings.CreateKeepsBalance | airline-backend/routes/bookings.js:93-103 | a successful create moves one seat from "for sale" to "held by a Confirmed booking", so seats for sale plus seats held stays the same for every flight |
| Bookings.CancelConfirmedKeepsBalance | airline-backend/routes/bookings.js:160-169 | cancelling a Confirmed booking moves its seat back to "for sale", so seats for sale plus seats held stays the same for every flight |
| Bookings.CancelUnheldAddsSeat | airline-backend/routes/bookings.js:160-169 | as written, cancelling a booking that holds no seat still adds one seat, so the flight's seats for sale plus seats held grows by one |
| Bookings.CreateThenCancelRestoresFlights | airline-backend/routes/bookings.js:100-169 | cancelling the booking just created gives back the flights table exactly as it was before the create |
| Bookings.CancelTwiceAddsTwo | airline-backend/routes/bookings.js:160-169 | cancelling the same booking twice adds two seats to its flight |
| Bookings.CreateKeepsSound | airline-backend/routes/bookings.js:84-103 | create, successful or not, never oversells a flight and never leaves seats for sale below zero |
| Bookings.GuardedCancelKeepsSound | airline-backend/routes/bookings.js:160-169 | the corrected cancel keeps every flight's seats accounted for |
| Bookings.CheckInKeepsSound | airline-backend/routes/bookings.js:122-125 | check-in does not disturb seat accounting |
| Bookings.RoutesKeepReferential | airline-backend/routes/bookings.js:67-180 | create, check-in and both cancels never leave a booking pointing at a missing flight: a new booking names an existing flight and no route removes one |
| Bookings.DoubleCancelOversells | airline-backend/routes/bookings.js:160-169 | a one-seat flight with one Confirmed booking starts sound; after the booking is cancelled twice it has two seats for sale, more than its capacity |
| Flights.AddCondition | airline-backend/routes/flights.js:28-32 | one filter block extends the SQL text, pushes exactly its parameter and bumps the placeholder counter by one |
| Flights.Build | airline-backend/routes/flights.js:20-46 | the filter blocks add one parameter per supplied filter; with none the text is the base query with no parameters; the text always starts with the base query; airport values are bound as `%value%` and the date as given |
| Flights.BuildIsApply | airline-backend/routes/flights.js:24-46 | the three `if` blocks amount to applying, in order, one condition per active filter to the base query |
| Flights.Search | airline-backend/routes/flights.js:20-54 | with no filters the query is the base text plus the ordering and has no parameters; the number of parameters equals the number of supplied filters; the query always starts with the base text and ends with `ORDER BY departure_time ASC`; airport values are bound as `%value%` and the date as given |
| Flights.ActiveInFixedOrder | airline-backend/routes/flights.js:28-44 | filters are applied in the fixed order from, to, date, and each at most once |
| Flights.ApplyRenders | airline-backend/routes/flights.js:28-44 | running the filter block once per filter appends each filter's condition with consecutively numbered placeholders, and appends each filter's bound value to the parameters |
| Flights.SearchMatchesFilters | airline-backend/routes/flights.js:24-46 | the route's query equals the base text, then the i-th active filter's condition with placeholder `$i`, then the ordering; its parameters are the active filters' bound values in the same order |
| Flights.PlaceholderSelectsOwnParam | airline-backend/routes/flights.js:28-44 | the number after `$` in the i-th condition reads back as i + 1, so it selects the i-th filter's own parameter, and no two conditions share a placeholder |
| Flights.GetFlight | airline-backend/routes/flights.js:57-71 | an absent id gives 404 "Flight not found"; otherwise 200 with that row |
| Flights.Complete | airline-backend/routes/flights.js:95 | a body is complete exactly when all nine fields the UPDATE writes are present |
| Flights.Overwrite | airline-backend/routes/flights.js:97-103 | the nine written columns of the updated row, read back, are exactly the body; the row keeps its seat capacity and aircraft type, so it differs from the old row only in those nine columns |
| Flights.PutFlight | airline-backend/routes/flights.js:92-114 | an absent id gives 404 and changes nothing; a body that leaves out any of the nine columns binds NULL, the UPDATE fails and the reply is 500 with nothing changed; otherwise only that row changes, the bookings are untouched, and the reply is the updated row |
| Flights.PutThenGet | airline-backend/routes/flights.js:95-103 | after a PUT with all nine columns, the row holds exactly the body's values plus its old total seats and aircraft type, and the old values of those columns leave no trace; after a PUT missing a column the row is as it was |
| Flights.PutMayExceedCapacity | airline-backend/routes/flights.js:97-103 | PUT accepts more available seats than the flight's total seats |
| Flights.DeleteFlight | airline-backend/routes/flights.js:117-131 | an absent id gives 404 and changes nothing; a flight some booking references is refused by the foreign key, giving 500 with nothing deleted; otherwise only that row is removed |
| Flights.DeleteKeepsReferential | airline-backend/routes/flights.js:117-131 | whatever DELETE answers, no booking is left pointing at a missing flight |
| Flights.DeleteThenNotFound | airline-backend/routes/flights.js:117-125 | after DELETE of an unreferenced flight, GET, PUT and DELETE of that id all give 404 "Flight not found"; a referenced flight stays; every other id reads as before |
| Seats.SeatIdInjective | airline-frontend/src/pages/SeatSelection.tsx:35 | a seat id `${row}${col}` determines its row and column |
| Seats.RowSeats | airline-frontend/src/pages/SeatSelection.tsx:33-42 | one row of a block has one seat per column, in column order, each carrying the block's cabin and price and the status of its occupancy draw |
| Seats.Rows | airline-frontend/src/pages/SeatSelection.tsx:32-44 | rows lo..hi of a block have (hi - lo + 1) times the number of columns seats, every place of the block appears exactly once, and every seat is written as the generator writes it |
| Seats.GenerateSeats | airline-frontend/src/pages/SeatSelection.tsx:27-76 | the layout has 174 seats with distinct ids; rows 1-3 are business (columns A, C, D, F, price 8000), rows 4-8 premium (A-F, 2000), rows 9-30 economy (A-F, 0); every place of the layout is present |
| Seats.Find | airline-frontend/src/pages/SeatSelection.tsx:82 | `seats.find` returns the first seat with the id, or nothing when no seat has it |
| Seats.ToggleAll | airline-frontend/src/pages/SeatSelection.tsx:85-91 | the seat list keeps its length; seats with the clicked id flip between available and selected and every other seat is unchanged |
| Seats.Without | airline-frontend/src/pages/SeatSelection.tsx:94-95 | the filtered list holds the old ids except the removed one, is the same list when the id was absent, never gains duplicates, and on a one-element list keeps the element exactly when it is not the id |
| Seats.WithoutDistributes | airline-frontend/src/pages/SeatSelection.tsx:94-95 | the filter of a concatenation is the concatenation of the filters, so the kept ids stay in their order |
| Seats.Click | airline-frontend/src/pages/SeatSelection.tsx:81-98 | clicking an unknown or occupied seat changes neither the seats nor `selectedSeats`; otherwise every seat with that id is toggled, and the id is filtered out of `selectedSeats` when it is listed and appended at the end when it is not; no seat with another id changes |
| Seats.ClickFlipsOneSeat | airline-frontend/src/pages/SeatSelection.tsx:85-91 | with unique ids, a click on a selectable seat flips that one seat's status and nothing else |
| Seats.InitialConsistent | airline-frontend/src/pages/SeatSelection.tsx:78-79 | the page starts with ids in `selectedSeats` matching exactly the seats shown as selected (none) |
| Seats.ClickKeepsConsistent | airline-frontend/src/pages/SeatSelection.tsx:81-98 | after any click, `selectedSeats` still lists, once each, exactly the ids of the selected seats |
| Seats.ClickTwiceRestores | airline-frontend/src/pages/SeatSelection.tsx:85-97 | two clicks on a selectable seat that is not in `selectedSeats` restore the seats and the list exactly |
| Seats.ClickTwiceSameSelection | airline-frontend/src/pages/SeatSelection.tsx:85-97 | on a consistent page, two clicks on the same seat restore the seats and the set of selected ids |
| Seats.SeatColorStatusFirst | airline-frontend/src/pages/SeatSelection.tsx:100-110 | an occupied or selected seat's colour does not depend on its cabin, and the colour tells the status, and for an available seat the cabin |
| Seats.SelectedSumUpdate | airline-frontend/src/pages/SeatSelection.tsx:112-114 | changing one seat changes the sum of selected prices by that seat's new charge minus its old one |
| Seats.InitialTotalIsBase | airline-frontend/src/pages/SeatSelection.tsx:112-114 | with nothing selected the total is the base fare 5999 |
| Seats.SeatColor | airline-frontend/src/pages/SeatSelection.tsx:100-110 | an occupied seat is grey and a selected one blue, each exactly in that status; an available seat takes its cabin's colour, purple for business, amber for premium, green for economy, and no other seat does |
| Seats.SelectedSum | airline-frontend/src/pages/SeatSelection.tsx:112-114 | the sum of the selected seats' prices is at least each seat's charge, and is zero exactly when no seat is charged |
| Seats.TotalPrice | airline-frontend/src/pages/SeatSelection.tsx:112-114 | the total is never below the base fare, and equals it exactly when every selected seat is free |
| Seats.ClickAdjustsTotal | airline-frontend/src/pages/SeatSelection.tsx:81-114 | selecting a seat adds its price to the total, and deselecting takes it off |
| Seats.Continue | airline-frontend/src/pages/SeatSelection.tsx:492-495 | the continue action offers the selected ids and the total exactly when `selectedSeats` is non-empty |
| Seats.ContinueIffSeatSelected | airline-frontend/src/pages/SeatSelection.tsx:469 | on a consistent page the button is enabled exactly when some seat is shown as selected |
| Payment.Chunks | airline-frontend/src/pages/Payment.tsx:82-84 | the 4-character chunks are non-empty, at most four long, and all but the last exactly four |
| Payment.GroupedLength | airline-frontend/src/pages/Payment.tsx:82-87 | the grouped text is the digits plus one space between each pair of consecutive groups of four |
| Payment.GroupedStrip | airline-frontend/src/pages/Payment.tsx:77-87 | removing whitespace from the grouped text gives the digits back |
| Payment.GroupedLayout | airline-frontend/src/pages/Payment.tsx:82-87 | in the grouped text a space stands exactly at every fifth position and a digit everywhere else |
| Payment.GroupedDigits | airline-frontend/src/pages/Payment.tsx:82-87 | digits in groups of four joined by single spaces: removing the spaces gives the digits back, and a space stands exactly at every fifth position |
| Payment.FormatCardNumber | airline-frontend/src/pages/Payment.tsx:76-91 | with fewer than four digits the input comes back unchanged, non-digits included; otherwise the result has n + (n - 1) / 4 characters for the first n (at most 16) digits, removing the spaces gives those digits, it fits the 19-character field, spaces stand exactly at every fifth position and a digit at every other |
| Payment.FormatCardIdempotent | airline-frontend/src/pages/Payment.tsx:76-91 | formatting an already formatted card number changes nothing |
| Payment.FormatExpiry | airline-frontend/src/pages/Payment.tsx:400-405 | fewer than two digits give just the digits; otherwise the first two digits, a slash, and at most two more digits of the input |
| Payment.FormatExpiryIdempotent | airline-frontend/src/pages/Payment.tsx:400-405 | re-filtering a formatted expiry changes nothing |
| Payment.FormatCvv | airline-frontend/src/pages/Payment.tsx:420 | the CVV keeps only digits: the first of them, at most three |
| Payment.FormatCvvIdempotent | airline-frontend/src/pages/Payment.tsx:420 | re-filtering a CVV changes nothing |
| Payment.PassengerComplete | airline-frontend/src/pages/Payment.tsx:53 | the passenger details are complete exactly when name, email and phone are all non-empty |
| Payment.CardComplete | airline-frontend/src/pages/Payment.tsx:59 | the card details are complete exactly when number, name on card, expiry and CVV are all non-empty |
| Payment.Validate | airline-frontend/src/pages/Payment.tsx:49-74 | payment proceeds exactly when name, email and phone are filled and so are the chosen method's fields; each alert appears exactly in its own case, the passenger alert first |
| Payment.ValidateIgnoresOtherMethod | airline-frontend/src/pages/Payment.tsx:58-68 | a card payment ignores the UPI id, a UPI payment ignores the card fields, and missing passenger details stop either method |
| Profile.SeatLabel | airline-frontend/src/pages/Profile.tsx:81 | a missing or empty seat number shows as TBA; any other seat shows as sent |
| Profile.StatusLabel | airline-frontend/src/pages/Profile.tsx:82 | Confirmed shows as Upcoming; every other status passes through unchanged |
| Profile.ToTicket | airline-frontend/src/pages/Profile.tsx:60-84 | a ticket's id is the decimal text of the row id and parses back to it; reference, flight, airline, airports and passenger are copied; the seat and status are relabelled |
| Profile.ToTickets | airline-frontend/src/pages/Profile.tsx:59-84 | the transform keeps the list's length and order, one ticket per row |
| Profile.TicketIdsDistinct | airline-frontend/src/pages/Profile.tsx:61 | rows with different ids give tickets with different ids |
| Profile.ToTicketsAppend | airline-frontend/src/pages/Profile.tsx:59-84 | the tickets of two lists of rows, joined, are the tickets of the joined list |
| Profile.CheckInShown | airline-frontend/src/pages/Profile.tsx:322 | the check-in button is shown on exactly the tickets whose status chip is primary, the upcoming ones |
| Profile.StatusColor | airline-frontend/src/pages/Profile.tsx:112-123 | Upcoming is primary, Completed is success, Cancelled is error, and every other status, exactly those, is default |
| Profile.CheckInShownIffUpcoming | airline-frontend/src/pages/Profile.tsx:322 | the Check-In button shows exactly for primary-coloured tickets, which are the Confirmed (or already Upcoming) bookings; a Cancelled booking never offers it and is shown in the error colour |
| Profile.HandleCheckIn | airline-frontend/src/pages/Profile.tsx:125-129 | opening the dialog selects the ticket, shows the dialog and clears the checked-in flag |
| Profile.ConfirmCheckIn | airline-frontend/src/pages/Profile.tsx:131-144 | without a selected ticket nothing happens and no request is sent; otherwise the request goes out for the selected ticket's id and the dialog shows checked in |
| Profile.HandleClose | airline-frontend/src/pages/Profile.tsx:146-150 | closing hides the dialog, drops the selected ticket and clears the checked-in flag |
| Profile.CheckInTargetsRow | airline-frontend/src/pages/Profile.tsx:131-144 | confirming the dialog opened on a row's ticket sends the check-in for that row's numeric id, and shows success whether or not the request succeeds |
| Profile.CloseResets | airline-frontend/src/pages/Profile.tsx:125-150 | after closing, the dialog is back to its initial state, and reopening it looks the same whatever happened before |
| Migration.Pick | airline-backend/database/migrate-flights.js:67 | `Math.floor(Math.random() * n)` is an index below `n` |
| Migration.Lookup | airline-backend/database/migrate-flights.js:25-59 | a city found in the table gives a code listed for it; a city not found is not listed |
| Migration.CodeFrom | airline-backend/database/migrate-flights.js:61-64 | over any table: the code listed for the trimmed name when there is one, otherwise the first three characters of the trimmed name, upper-cased |
| Migration.AirportCode | airline-backend/database/migrate-flights.js:61-64 | the code of the trimmed name when the table lists it; otherwise the first three characters of the trimmed name, upper-cased |
| Migration.BangaloreSpellings | airline-backend/database/migrate-flights.js:28-29 | Bangalore and Bengaluru both give BLR |
| Migration.LookupFinds | airline-backend/database/migrate-flights.js:25-59 | the lookup returns the code of the first entry listed under the name |
| Migration.PaddingIgnored | airline-backend/database/migrate-flights.js:61-64 | whitespace around a city name changes neither the trimmed name nor the code the lookup-or-abbreviate rule gives it, whatever the table |
| Migration.TrimPadded | airline-backend/database/migrate-flights.js:62 | trimming a name padded with whitespace gives back the name |
| Migration.TableCodes | airline-backend/database/migrate-flights.js:25-59 | every code the table lists is three upper-case letters |
| Migration.AirportCodeLength | airline-backend/database/migrate-flights.js:25-64 | a code has at most three characters, and a listed code is three upper-case letters |
| Migration.AirportLabel | airline-backend/database/migrate-flights.js:165-166 | an airport is stored as the city as given, a space, then the code in parentheses |
| Migration.Prefix | airline-backend/database/migrate-flights.js:68-72 | every airline gets a two-character prefix |
| Migration.AirlineOf | airline-backend/database/migrate-flights.js:22 | a prefix that names an airline names one from the list |
| Migration.PrefixIdentifiesAirline | airline-backend/database/migrate-flights.js:68-72 | the prefix identifies the airline exactly for the six listed airlines, so no two listed airlines share a prefix |
| Migration.GenerateFlightNumber | airline-backend/database/migrate-flights.js:66-75 | the airline is drawn from the list; the flight number is its prefix, a dash and a four-digit number in [1000, 9999] |
| Migration.FlightNumberNamesAirline | airline-backend/database/migrate-flights.js:66-75 | a generated flight number's prefix names the airline it was generated with |
| Migration.IsInternational | airline-backend/database/migrate-flights.js:85 | the route counts as international exactly when its type is the text `International`, compared strictly; a missing type is domestic |
| Migration.AircraftType | airline-backend/database/migrate-flights.js:83-88 | the type comes from the international list exactly when the route type is International, and from the domestic list otherwise |
| Migration.Schedule | airline-backend/database/migrate-flights.js:140-151 | departure is the flight date at the departure time; arrival moves to the next day exactly when its time of day is before the departure's; within a day, departure is at most arrival and arrival is less than a day later |
| Migration.SeatCounts | airline-backend/database/migrate-flights.js:153-154 | available seats are in [50, 199] and total seats are `floor(available * 1.2)`, at least the available seats |
| Migration.MigrateRow | airline-backend/database/migrate-flights.js:131-184 | a row yields a flight exactly when its airports and times are readable and the INSERT succeeds; otherwise it is skipped |
| Migration.MigratedFlightFields | airline-backend/database/migrate-flights.js:156-174 | a migrated flight stores both airports as `City (CODE)`, has status scheduled, seat counts within bounds, an airline from the list and an aircraft type that matches the route type |
| Migration.Outcomes | airline-backend/database/migrate-flights.js:131-184 | the loop body runs once per joined row, in order |
| Migration.InsertedPlusSkipped | airline-backend/database/migrate-flights.js:128-184 | each row either inserts a flight or is skipped |
| Migration.InsertedAreOutcomes | airline-backend/database/migrate-flights.js:131-184 | every inserted flight comes from some row |
| Migration.Tally | airline-backend/database/migrate-flights.js:128-184 | the loop inserts the rows' flights in order, counts them as migrated, counts the failures as skipped and carries on, so migrated plus skipped equals the number of rows |
| Migration.Migrate | airline-backend/database/migrate-flights.js:128-184 | the same, for the joined rows and their draws |
| Migration.Drawn | airline-backend/database/migrate-flights.js:156-174 | every row that reaches the INSERT draws one value of the id sequence, so no more values are drawn than there are rows |
| Migration.Ids | airline-backend/database/migrate-flights.js:105-184 | the inserted flights get the sequence values their INSERT drew: from 1 after `RESTART IDENTITY`, strictly increasing, never above the number of values drawn |
| Migration.IdsMatchInserted | airline-backend/database/migrate-flights.js:131-184 | there is one id per inserted flight |
| Migration.GaplessWithoutFailedInserts | airline-backend/database/migrate-flights.js:105-184 | when no INSERT fails, the ids are exactly 1, 2, ..., n |
| Migration.FailedInsertLeavesGap | airline-backend/database/migrate-flights.js:156-183 | an INSERT that fails and is skipped still uses up its id, so once a later flight is inserted some id in 1..n is missing |
| Migration.MigratedDb | airline-backend/database/migrate-flights.js:105 | after the migration the flights table holds exactly the inserted flights, each under the id its INSERT drew, and the bookings are gone |
| Migration.MigrationIsSound | airline-backend/database/migrate-flights.js:105-174 | the database the migration leaves satisfies the seat accounting the booking routes rely on |
| Text.Digits | airline-frontend/src/pages/Payment.tsx:402 | `replace(/\D/g, '')` keeps only digits, no more characters than the input, leaves a digit string alone, and keeps a single character exactly when it is a digit |
| Text.DigitsAppend | airline-frontend/src/pages/Payment.tsx:402 | the digits of a concatenation are the digits of each part, in order; with the one-character case this pins down the filter completely |
| Text.StripSpaces | airline-frontend/src/pages/Payment.tsx:77 | `replace(/\s+/g, '')` leaves no whitespace, never lengthens the text, and keeps a single character exactly when it is not whitespace |
| Text.StripSpacesAppend | airline-frontend/src/pages/Payment.tsx:77 | removing whitespace from a concatenation removes it from each part, in order; with the one-character case this pins the removal down completely |
| Text.DigitsIgnoreSpaces | airline-frontend/src/pages/Payment.tsx:77 | removing whitespace before the digit filter does not change its result |
| Text.NatToString | airline-frontend/src/pages/Profile.tsx:134 | the decimal text of a number is a non-empty digit string, one character long exactly for numbers below ten |
| Text.ParseDigits | airline-frontend/src/pages/Profile.tsx:134 | `parseInt` of a digit string ends in the last digit's value, and a single digit parses to its value |
| Text.ParseNatToString | airline-frontend/src/pages/Profile.tsx:134 | `parseInt` of the decimal text of a number gives the number back |
| Text.Trim | airline-backend/database/migrate-flights.js:62 | `trim` drops whitespace only, from both ends, and leaves neither end as whitespace |
| Text.TrimIdempotent | airline-backend/database/migrate-flights.js:62 | trimming twice is trimming once |
| Text.Join | airline-frontend/src/pages/Payment.tsx:87 | `join` of no parts is empty and of one part is that part; the text starts with the first part, followed by the separator when there is a second part |
| Text.ToUpper | airline-backend/database/migrate-flights.js:63 | upper-casing keeps the length and upper-cases each letter in place |

## Left out

- The connection pool, SQL execution, and BEGIN, COMMIT and ROLLBACK. A transaction is one function that either applies all its effects or none.
- Concurrency: two bookings racing for the last seat depend on transaction isolation, which a sequential model cannot express.
- Bookings.Create: an INSERT the database rejects (an unknown user, a foreign-key or type error) is not modelled. `schema.sql` is not part of this model, so the 500 such a failure gives is not modelled either; `checked_in` is taken to default to false.
- Bookings.Cancel: a booking whose flight row is gone is cancelled with no seat update. The UPDATE then matches no row.
- Route ids are natural numbers. A non-numeric id makes PostgreSQL fail, which gives 500; that path is not modelled.
- Flights: GET `/` and POST `/` are plain SQL passthroughs and are left out.
- Flights.DeleteFlight: `schema.sql` is not part of this model. The foreign key from `bookings.flight_id` to `flights.id` is taken to be a plain foreign key with no `ON DELETE` action. A cascading or nullifying key would change the 500 for a referenced flight.
- Flights.PutFlight: `schema.sql` is not part of this model. The nine columns PUT writes are taken to be NOT NULL, so a missing body field fails with 500. Had a column allowed NULL, the source would store NULL there; flight rows in the model have no NULL to store. A body value of the wrong type is not modelled.
- The booking GET routes (by user, by reference) are left out. So are `routes/auth.js`, `routes/users.js`, `server.js`, `setup.js` and `config/database.js`.
- Flights.Search: the SQL text is modelled, but how the database evaluates it (`ILIKE`, `DATE()`) is not. Each filter is one optional string. Express delivers a repeated query key (`?from=a&from=b`) as an array; the template literal `%${from}%` renders it as the comma-joined `%a,b%`, and a repeated `date` is bound as the array itself. That case is not modelled.
- Random draws: `Math.random` is a parameter everywhere. This covers the booking reference text, seat occupancy, the airline, number, aircraft and seat draws, and the booking id drawn on the payment page.
- Migration.SeatCounts: `Math.floor(available * 1.2)` is modelled as the exact `(available * 6) / 5`. Floating-point rounding of that product and of the `Math.random` products is left out.
- `calculatePrice` in the migration is left out because it is floating-point arithmetic; the price is a parameter. Taxes on the payment page, `parseFloat` and `toLocaleString` are left out for the same reason.
- Migration.Schedule: times are seconds from the start of the flight date. Local-time `setHours`, DST and `Date` parsing are left out. A `flight_date` that is null or unparsable is not modelled.
- Migration.MigrateRow: a `time` value that does not split into three numbers is folded into "unreadable".
- Migration: the backup table, the outer rollback that restores it, the verification queries and the logging are left out.
- Migration.AirportCode: a city name that happens to be a property of every JavaScript object (such as `constructor`) is not modelled. `toUpperCase` is modelled on ASCII letters only.
- Profile: date and time formatting, the price, and the refresh after check-in are left out. So is the API client.
- Seats: the seats' `features` field and the `default` branch of the colour switch are left out. Cabin is a closed type, so the `default` branch cannot be reached.
- Payment: the simulated processing delay (`setTimeout`), the success screen, `PaymentModal.tsx` and the booking id drawn at random are left out.
- All purely presentational components and the HTTP client are left out.

## Findings

| source | as written | input that shows it | evidently intended | confidence | as-written member | corrected member |
|---|---|---|---|---|---|---|
| airline-backend/routes/bookings.js:160-169 | cancel sets the booking to Cancelled and adds a seat to its flight whatever the booking's status was | a flight with total 1 and available 0 and one Confirmed booking; cancelling that booking twice leaves 2 seats for sale on a 1-seat flight | only a booking that still holds a seat (Confirmed) gives one back; cancelling it again changes nothing | not executed | Bookings.DoubleCancelOversells | Bookings.GuardedCancelKeepsSound |
