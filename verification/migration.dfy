/** The one-off migration that fills the `flights` table from the legacy `flight`
    and `route` tables: airport codes, airline and flight number, aircraft type,
    the timestamps with next-day arrival, seat counts, and the per-row loop that
    counts migrated and skipped rows. Every `Math.random()` draw is a parameter. */
module Migration {
  import opened Common
  import opened Text
  import opened Store
  import Bookings

  // ---------------------------------------------------------------------------
  // Random draws

  /** A value of `Math.random()`, as the exact fraction num / den in [0, 1). */
  datatype Draw = Draw(num: nat, den: nat)
  type Unit = d: Draw | d.num < d.den witness Draw(0, 1)

  /** `Math.floor(Math.random() * n)`: an index below `n`. */
  function Pick(d: Unit, n: nat): (k: nat)
    ensures n > 0 ==> k < n
    ensures n == 0 ==> k == 0
  {
    FloorBelow(d.num, d.den, n);
    (d.num * n) / d.den
  }

  /** num / den < 1 scaled by n stays below n after flooring. */
  lemma FloorBelow(num: nat, den: nat, n: nat)
    requires num < den
    ensures n > 0 ==> (num * n) / den < n
  {
    if n > 0 {
      var k := (num * n) / den;
      assert num * n < den * n by { LessTimes(num, den, n); }
      assert k * den <= num * n;
      if k >= n {
        TimesMonotone(n, k, den);
      }
    }
  }

  lemma LessTimes(a: nat, b: nat, n: nat)
    requires a < b && n > 0
    ensures a * n < b * n
  {
  }

  lemma TimesMonotone(a: nat, b: nat, c: nat)
    requires a <= b
    ensures a * c <= b * c
  {
  }

  // ---------------------------------------------------------------------------
  // Airport codes

  /** The known city names and their codes, in the order the object lists them. */
  const AIRPORT_CODES: seq<(string, string)> := [
    ("Delhi", "DEL"), ("Mumbai", "BOM"), ("Bangalore", "BLR"), ("Bengaluru", "BLR"),
    ("Kolkata", "CCU"), ("Chennai", "MAA"), ("Hyderabad", "HYD"), ("Ahmedabad", "AMD"),
    ("Pune", "PNQ"), ("Kochi", "COK"), ("Goa", "GOI"), ("Jaipur", "JAI"),
    ("Lucknow", "LKO"), ("Chandigarh", "IXC"), ("Thiruvananthapuram", "TRV"),
    ("Bhubaneswar", "BBI"), ("Visakhapatnam", "VTZ"), ("Varanasi", "VNS"),
    ("Udaipur", "UDR"), ("Indore", "IDR"), ("Patna", "PAT"), ("Ranchi", "IXR"),
    ("Imphal", "IMF"), ("Raipur", "RPR"), ("Mangalore", "IXE"),
    ("Dubai", "DXB"), ("London", "LHR"), ("Bangkok", "BKK"), ("Singapore", "SIN"),
    ("Doha", "DOH"), ("Kathmandu", "KTM"), ("Colombo", "CMB")]

  /** `airportCodes[city]`: the code listed for a city name, if any. */
  function Lookup(entries: seq<(string, string)>, key: string): (r: Option<string>)
    ensures r.Some? ==> exists i :: 0 <= i < |entries| && entries[i] == (key, r.value)
    ensures r.None? ==> forall i :: 0 <= i < |entries| ==> entries[i].0 != key
    decreases |entries|
  {
    if entries == [] then None
    else if entries[0].0 == key then Some(entries[0].1)
    else Lookup(entries[1..], key)
  }

  /** The lookup-or-abbreviate rule of `getAirportCode`, over any table. */
  function CodeFrom(table: seq<(string, string)>, name: string): (code: string)
    ensures Lookup(table, Trim(name)).Some? ==> code == Lookup(table, Trim(name)).value
    ensures Lookup(table, Trim(name)).None? ==>
      |code| == Min(|Trim(name)|, 3) && code == ToUpper(Trim(name)[..|code|])
  {
    var city := Trim(name);
    match Lookup(table, city)
    case Some(code) => code
    case None => ToUpper(city[..Min(|city|, 3)])
  }

  /** `getAirportCode`: the code of the trimmed city name if it is known, otherwise
      its first three characters upper-cased. */
  function AirportCode(name: string): (code: string)
    ensures Lookup(AIRPORT_CODES, Trim(name)).Some? ==>
      code == Lookup(AIRPORT_CODES, Trim(name)).value
    ensures Lookup(AIRPORT_CODES, Trim(name)).None? ==>
      |code| == Min(|Trim(name)|, 3) && code == ToUpper(Trim(name)[..|code|])
  {
    CodeFrom(AIRPORT_CODES, name)
  }

  /** Both spellings of Bangalore give BLR. */
  lemma BangaloreSpellings()
    ensures AirportCode("Bangalore") == "BLR" && AirportCode("Bengaluru") == "BLR"
  {
    BangaloreCode();
    BengaluruCode();
  }

  lemma BangaloreCode()
    ensures AirportCode("Bangalore") == "BLR"
  {
    BangaloreListed();
    TrimUnpadded("Bangalore");
  }

  lemma BengaluruCode()
    ensures AirportCode("Bengaluru") == "BLR"
  {
    BengaluruListed();
    TrimUnpadded("Bengaluru");
  }

  lemma BangaloreListed()
    ensures Lookup(AIRPORT_CODES, "Bangalore") == Some("BLR")
  {
    var t := AIRPORT_CODES;
    assert t[0].0 != "Bangalore" && t[1].0 != "Bangalore" && t[2] == ("Bangalore", "BLR");
    LookupFinds(t, "Bangalore", 2);
  }

  lemma BengaluruListed()
    ensures Lookup(AIRPORT_CODES, "Bengaluru") == Some("BLR")
  {
    var t := AIRPORT_CODES;
    assert t[0].0 != "Bengaluru" && t[1].0 != "Bengaluru" && t[2].0 != "Bengaluru";
    assert t[3] == ("Bengaluru", "BLR");
    LookupFinds(t, "Bengaluru", 3);
  }

  /** The lookup returns the first entry listed under the key. */
  lemma {:induction false} LookupFinds(entries: seq<(string, string)>, key: string, k: nat)
    requires k < |entries| && entries[k].0 == key
    requires forall j :: 0 <= j < k ==> entries[j].0 != key
    ensures Lookup(entries, key) == Some(entries[k].1)
    decreases k
  {
    if k > 0 {
      LookupFinds(entries[1..], key, k - 1);
    }
  }

  /** Whitespace around a city name does not change its code, whatever the table. */
  lemma PaddingIgnored(table: seq<(string, string)>, pad: string, city: string)
    requires forall i :: 0 <= i < |pad| ==> IsSpace(pad[i])
    requires city == [] || (!IsSpace(city[0]) && !IsSpace(city[|city| - 1]))
    ensures Trim(pad + city + pad) == city
    ensures CodeFrom(table, pad + city + pad) == CodeFrom(table, city)
  {
    TrimPadded(pad, city);
    TrimUnpadded(city);
    SameTrimSameCode(table, pad + city + pad, city);
  }

  /** The rule looks at the trimmed name only. */
  lemma SameTrimSameCode(table: seq<(string, string)>, a: string, b: string)
    requires Trim(a) == Trim(b)
    ensures CodeFrom(table, a) == CodeFrom(table, b)
  {
  }

  lemma {:induction false} TrimPadded(pad: string, city: string)
    requires forall i :: 0 <= i < |pad| ==> IsSpace(pad[i])
    requires city == [] || (!IsSpace(city[0]) && !IsSpace(city[|city| - 1]))
    ensures Trim(pad + city + pad) == city
  {
    var s := pad + city + pad;
    var r := Trim(s);
    var l := LeadingSpaces(s);
    if city == [] {
      assert forall i :: 0 <= i < |s| ==> IsSpace(s[i]);
    } else {
      assert s[|pad|] == city[0] && s[|pad| + |city| - 1] == city[|city| - 1];
      assert r == s[|pad|..|pad| + |city|];
      assert s[|pad|..|pad| + |city|] == city;
    }
  }

  predicate IsCode(c: string) {
    |c| == 3 && forall i :: 0 <= i < 3 ==> 'A' <= c[i] <= 'Z'
  }

  predicate AllCodes(table: seq<(string, string)>) {
    forall k :: 0 <= k < |table| ==> IsCode(table[k].1)
  }

  /** Every code the table lists is three upper-case letters. */
  lemma TableCodes()
    ensures AllCodes(AIRPORT_CODES)
  {
  }

  /** With such a table, every code the rule returns has at most three characters. */
  lemma CodeFromLength(table: seq<(string, string)>, name: string)
    requires AllCodes(table)
    ensures |CodeFrom(table, name)| <= 3
    ensures Lookup(table, Trim(name)).Some? ==> IsCode(CodeFrom(table, name))
  {
  }

  /** Every code `getAirportCode` returns has at most three characters, and a
      listed one is three upper-case letters. */
  lemma AirportCodeLength(name: string)
    ensures |AirportCode(name)| <= 3
    ensures Lookup(AIRPORT_CODES, Trim(name)).Some? ==>
      |AirportCode(name)| == 3 && forall i :: 0 <= i < 3 ==> 'A' <= AirportCode(name)[i] <= 'Z'
  {
    TableCodes();
    CodeFromLength(AIRPORT_CODES, name);
  }

  /** How a migrated airport is stored: `City (CODE)`, the city as given. */
  function AirportLabel(city: string, code: string): (s: string)
    ensures |s| == |city| + |code| + 3
    ensures s[..|city|] == city
    ensures s[|city|..|city| + 2] == " (" && s[|s| - 1] == ')'
    ensures s[|city| + 2..|s| - 1] == code
  {
    city + " (" + code + ")"
  }

  // ---------------------------------------------------------------------------
  // Airline and flight number

  const AIRLINES: seq<string> := ["Air India", "IndiGo", "SpiceJet", "Vistara", "AirAsia India", "GoAir"]

  /** The two-character flight-number prefix of an airline; GoAir, and anything
      not listed, gets G8. */
  function Prefix(airline: string): (p: string)
    ensures |p| == 2
  {
    if airline == "Air India" then "AI"
    else if airline == "IndiGo" then "6E"
    else if airline == "SpiceJet" then "SG"
    else if airline == "Vistara" then "UK"
    else if airline == "AirAsia India" then "I5"
    else "G8"
  }

  /** The airline a prefix stands for. */
  function AirlineOf(prefix: string): (a: Option<string>)
    ensures a.Some? ==> a.value in AIRLINES
  {
    if prefix == "AI" then Some("Air India")
    else if prefix == "6E" then Some("IndiGo")
    else if prefix == "SG" then Some("SpiceJet")
    else if prefix == "UK" then Some("Vistara")
    else if prefix == "I5" then Some("AirAsia India")
    else if prefix == "G8" then Some("GoAir")
    else None
  }

  /** The prefix identifies the airline: different listed airlines never share one. */
  lemma PrefixIdentifiesAirline(airline: string)
    ensures airline in AIRLINES <==> AirlineOf(Prefix(airline)) == Some(airline)
  {
  }

  /** `generateFlightNumber`: an airline drawn from the list and a number drawn
      from [1000, 9999], written `prefix-number`. */
  function GenerateFlightNumber(airlineDraw: Unit, numberDraw: Unit): (r: (string, string))
    ensures r.1 in AIRLINES
    ensures |r.0| == 7 && r.0[..2] == Prefix(r.1) && r.0[2] == '-'
    ensures AllDigits(r.0[3..]) && 1000 <= ParseDigits(r.0[3..]) <= 9999
  {
    var airline := AIRLINES[Pick(airlineDraw, |AIRLINES|)];
    var number := 1000 + Pick(numberDraw, 9000);
    FourDigits(number);
    ParseNatToString(number);
    var flightNumber := Prefix(airline) + "-" + NatToString(number);
    assert flightNumber[3..] == NatToString(number);
    (flightNumber, airline)
  }

  /** A generated flight number can be read back: its prefix names the airline
      it was generated with. */
  lemma FlightNumberNamesAirline(airlineDraw: Unit, numberDraw: Unit)
    ensures var r := GenerateFlightNumber(airlineDraw, numberDraw);
      AirlineOf(r.0[..2]) == Some(r.1)
  {
    var r := GenerateFlightNumber(airlineDraw, numberDraw);
    PrefixIdentifiesAirline(r.1);
  }

  // ---------------------------------------------------------------------------
  // Aircraft type

  const DOMESTIC: seq<string> := ["Boeing 737", "Airbus A320", "ATR 72"]
  const INTERNATIONAL: seq<string> := ["Boeing 787", "Airbus A350", "Boeing 777", "Airbus A330"]

  /** The route's `a_type`; null is not international. */
  predicate IsInternational(flightType: Option<string>) {
    flightType == Some("International")
  }

  /** `getAircraftType`: a type drawn from the international list for an
      international route, from the domestic list otherwise. */
  function AircraftType(flightType: Option<string>, d: Unit): (t: string)
    ensures t in INTERNATIONAL <==> IsInternational(flightType)
    ensures t in DOMESTIC <==> !IsInternational(flightType)
  {
    var types := if IsInternational(flightType) then INTERNATIONAL else DOMESTIC;
    assert forall x :: x in DOMESTIC ==> x !in INTERNATIONAL;
    types[Pick(d, |types|)]
  }

  // ---------------------------------------------------------------------------
  // Timestamps

  const DAY: nat := 86400

  /** A `time` column, split at the colons and parsed. */
  datatype TimeOfDay = TimeOfDay(hours: nat, minutes: nat, seconds: nat)

  /** The offset `setHours` applies from the start of the day. */
  function Offset(t: TimeOfDay): nat {
    t.hours * 3600 + t.minutes * 60 + t.seconds
  }

  /** Departure and arrival timestamps on the flight date (`date` is its midnight);
      an arrival earlier than the departure moves to the next day. */
  function Schedule(date: int, dep: TimeOfDay, arr: TimeOfDay): (r: (int, int))
    ensures r.0 == date + Offset(dep)
    ensures r.1 == date + Offset(arr) || r.1 == date + Offset(arr) + DAY
    ensures r.1 == date + Offset(arr) + DAY <==> Offset(arr) < Offset(dep)
    ensures Offset(dep) < DAY && Offset(arr) < DAY ==>
      r.0 <= r.1 < r.0 + DAY && r.1 - r.0 == (Offset(arr) - Offset(dep)) % DAY
  {
    var a: int, b: int := Offset(dep), Offset(arr);
    WithinDay(b - a);
    if b < a then (date + a, date + b + DAY) else (date + a, date + b)
  }

  /** A difference of two times of day, taken modulo a day. */
  lemma WithinDay(x: int)
    ensures 0 <= x < DAY ==> x % DAY == x
    ensures x < 0 && 0 < x + DAY ==> x % DAY == x + DAY
  {
  }

  // ---------------------------------------------------------------------------
  // Seat counts

  /** `Math.floor(50 + Math.random() * 150)` available seats, and
      `Math.floor(available * 1.2)` in all. */
  function SeatCounts(d: Unit): (r: (int, int))
    ensures 50 <= r.0 <= 199
    ensures r.1 == (r.0 * 6) / 5
    ensures 0 <= r.0 <= r.1 && r.1 - r.0 == r.0 / 5
  {
    var available := 50 + Pick(d, 150);
    (available, (available * 6) / 5)
  }

  // ---------------------------------------------------------------------------
  // The per-row loop

  /** A row of the join of `flight` and `route`; a null or unreadable column is
      `None`. */
  datatype SourceRow = SourceRow(
    flightId: nat,
    takeOffPoint: Option<string>,
    destination: Option<string>,
    departureTime: Option<TimeOfDay>,
    arrivalTime: Option<TimeOfDay>,
    flightDate: int,
    aircraftClass: Option<string>)

  /** The draws one row consumes, and its computed price. */
  datatype RowDraws = RowDraws(airline: Unit, number: Unit, aircraft: Unit, seats: Unit, price: int)

  /** One pass of the loop body: the row, its draws, and whether the INSERT succeeds. */
  datatype Attempt = Attempt(row: SourceRow, draws: RowDraws, insertOk: bool)

  const SCHEDULED: string := "scheduled"

  predicate Readable(row: SourceRow) {
    && row.takeOffPoint.Some? && row.destination.Some?
    && row.departureTime.Some? && row.arrivalTime.Some?
  }

  /** The loop body: the flight inserted for a row, or `None` when the row is
      skipped (a null column makes `trim`/`split` throw, or the INSERT fails). */
  function MigrateRow(a: Attempt): (r: Option<Flight>)
    ensures r.Some? <==> Readable(a.row) && a.insertOk
  {
    if !Readable(a.row) || !a.insertOk then None
    else
      var row := a.row;
      var (flightNumber, airline) := GenerateFlightNumber(a.draws.airline, a.draws.number);
      var (departure, arrival) := Schedule(row.flightDate, row.departureTime.value, row.arrivalTime.value);
      var (available, total) := SeatCounts(a.draws.seats);
      Some(Flight(flightNumber, airline,
                  AirportLabel(row.takeOffPoint.value, AirportCode(row.takeOffPoint.value)),
                  AirportLabel(row.destination.value, AirportCode(row.destination.value)),
                  departure, arrival, a.draws.price, available, total,
                  AircraftType(row.aircraftClass, a.draws.aircraft), SCHEDULED))
  }

  /** The flight a row migrates to: both airports stored as `City (CODE)`, status
      scheduled, seat counts within bounds, an airline from the list, and an
      aircraft type from the list that matches the route type. */
  lemma MigratedFlightFields(a: Attempt)
    requires Readable(a.row) && a.insertOk
    ensures var f := MigrateRow(a).value;
      && f.status == SCHEDULED
      && f.fromAirport == AirportLabel(a.row.takeOffPoint.value, AirportCode(a.row.takeOffPoint.value))
      && f.toAirport == AirportLabel(a.row.destination.value, AirportCode(a.row.destination.value))
      && 50 <= f.availableSeats <= 199
      && f.availableSeats <= f.totalSeats
      && f.airline in AIRLINES
      && (f.aircraftType in INTERNATIONAL <==> IsInternational(a.row.aircraftClass))
  {
  }

  /** What the loop body does for each attempt, in order. */
  function Outcomes(attempts: seq<Attempt>): (os: seq<Option<Flight>>)
    ensures |os| == |attempts|
    ensures forall i :: 0 <= i < |attempts| ==> os[i] == MigrateRow(attempts[i])
  {
    seq(|attempts|, i requires 0 <= i < |attempts| => MigrateRow(attempts[i]))
  }

  /** The flights inserted, in order. */
  function Inserted(outcomes: seq<Option<Flight>>): seq<Flight>
    decreases |outcomes|
  {
    if outcomes == [] then []
    else
      Inserted(outcomes[..|outcomes| - 1])
        + (match outcomes[|outcomes| - 1] case Some(f) => [f] case None => [])
  }

  /** The number of rows skipped. */
  function Skipped(outcomes: seq<Option<Flight>>): nat
    decreases |outcomes|
  {
    if outcomes == [] then 0
    else Skipped(outcomes[..|outcomes| - 1]) + (if outcomes[|outcomes| - 1].None? then 1 else 0)
  }

  /** Each row either inserts a flight or is skipped. */
  lemma {:induction false} InsertedPlusSkipped(outcomes: seq<Option<Flight>>)
    ensures |Inserted(outcomes)| + Skipped(outcomes) == |outcomes|
    decreases |outcomes|
  {
    if outcomes != [] {
      InsertedPlusSkipped(outcomes[..|outcomes| - 1]);
    }
  }

  /** Every inserted flight is the outcome of some row. */
  lemma {:induction false} InsertedAreOutcomes(outcomes: seq<Option<Flight>>)
    ensures forall f :: f in Inserted(outcomes) ==> Some(f) in outcomes
    decreases |outcomes|
  {
    if outcomes != [] {
      var init := outcomes[..|outcomes| - 1];
      InsertedAreOutcomes(init);
      forall f | f in Inserted(outcomes) ensures Some(f) in outcomes {
        if f in Inserted(init) {
          var i :| 0 <= i < |init| && init[i] == Some(f);
          assert outcomes[i] == init[i];
        } else {
          assert outcomes[|outcomes| - 1] == Some(f);
        }
      }
    }
  }

  /** The counting loop of `migrateFlights` step 3 over the rows' outcomes: a
      flight goes into the table and bumps `migratedCount`, a failure bumps
      `skippedCount`, and the loop carries on either way. */
  method Tally(outcomes: seq<Option<Flight>>) returns (table: seq<Flight>, migrated: nat, skipped: nat)
    ensures table == Inserted(outcomes)
    ensures migrated == |table| && skipped == Skipped(outcomes)
    ensures migrated + skipped == |outcomes|
  {
    table := [];
    migrated := 0;
    skipped := 0;
    var i := 0;
    while i < |outcomes|
      invariant 0 <= i <= |outcomes|
      invariant table == Inserted(outcomes[..i])
      invariant migrated == |table| && skipped == Skipped(outcomes[..i])
      invariant migrated + skipped == i
    {
      assert outcomes[..i + 1][..i] == outcomes[..i];
      match outcomes[i] {
        case Some(f) =>
          table := table + [f];
          migrated := migrated + 1;
        case None =>
          skipped := skipped + 1;
      }
      i := i + 1;
    }
    assert outcomes[..i] == outcomes;
  }

  /** `migrateFlights` step 3: every joined row is attempted in order into the
      freshly truncated table. */
  method Migrate(attempts: seq<Attempt>) returns (table: seq<Flight>, migrated: nat, skipped: nat)
    ensures table == Inserted(Outcomes(attempts))
    ensures migrated == |table| && skipped == Skipped(Outcomes(attempts))
    ensures migrated + skipped == |attempts|
  {
    table, migrated, skipped := Tally(Outcomes(attempts));
  }

  /** The number of SERIAL values drawn: every attempt that gets as far as the
      INSERT draws the next value of the id sequence, whether or not the row is
      then written, since the default is taken before any constraint is checked.
      A row that throws while its columns are read never reaches the INSERT. */
  function Drawn(attempts: seq<Attempt>): (n: nat)
    ensures n <= |attempts|
    decreases |attempts|
  {
    if attempts == [] then 0
    else Drawn(attempts[..|attempts| - 1]) + (if Readable(attempts[|attempts| - 1].row) then 1 else 0)
  }

  lemma OutcomesPrefix(attempts: seq<Attempt>)
    requires attempts != []
    ensures Outcomes(attempts[..|attempts| - 1]) == Outcomes(attempts)[..|attempts| - 1]
  {
  }

  /** The attempt reaches the INSERT and the row is written. */
  predicate Succeeds(a: Attempt) {
    Readable(a.row) && a.insertOk
  }

  /** The ids the inserted flights get, in insertion order: the sequence value
      their INSERT drew, counted from 1 after `RESTART IDENTITY`. They go up
      strictly, but a failed INSERT in between leaves a hole. */
  function Ids(attempts: seq<Attempt>): (ids: seq<nat>)
    ensures forall k :: 0 <= k < |ids| ==> 1 <= ids[k] <= Drawn(attempts)
    ensures forall k, l :: 0 <= k < l < |ids| ==> ids[k] < ids[l]
    decreases |attempts|
  {
    if attempts == [] then []
    else
      var init := attempts[..|attempts| - 1];
      Ids(init) + (if Succeeds(attempts[|attempts| - 1]) then [Drawn(init) + 1] else [])
  }

  /** One id per inserted flight. */
  lemma IdsMatchInserted(attempts: seq<Attempt>)
    ensures |Ids(attempts)| == |Inserted(Outcomes(attempts))|
  {
    var os := Outcomes(attempts);
    forall i | 0 <= i < |os| ensures os[i].Some? <==> Succeeds(attempts[i]) {
      assert os[i] == MigrateRow(attempts[i]);
    }
    IdsMatchOutcomes(attempts, os);
  }

  lemma {:induction false} IdsMatchOutcomes(attempts: seq<Attempt>, os: seq<Option<Flight>>)
    requires |os| == |attempts|
    requires forall i :: 0 <= i < |os| ==> (os[i].Some? <==> Succeeds(attempts[i]))
    ensures |Ids(attempts)| == |Inserted(os)|
    decreases |attempts|
  {
    if attempts != [] {
      var init, oinit := attempts[..|attempts| - 1], os[..|os| - 1];
      assert forall i :: 0 <= i < |oinit| ==> oinit[i] == os[i] && init[i] == attempts[i];
      IdsMatchOutcomes(init, oinit);
    }
  }

  /** When no INSERT fails, the ids are exactly 1, 2, ..., n. */
  lemma {:induction false} GaplessWithoutFailedInserts(attempts: seq<Attempt>)
    requires forall i :: 0 <= i < |attempts| && Readable(attempts[i].row) ==> attempts[i].insertOk
    ensures Drawn(attempts) == |Ids(attempts)|
    ensures forall k :: 0 <= k < |Ids(attempts)| ==> Ids(attempts)[k] == k + 1
    decreases |attempts|
  {
    if attempts != [] {
      var init := attempts[..|attempts| - 1];
      assert forall i :: 0 <= i < |init| ==> init[i] == attempts[i];
      GaplessWithoutFailedInserts(init);
    }
  }

  /** Never more flights than values drawn. */
  lemma {:induction false} IdsWithinDrawn(attempts: seq<Attempt>)
    ensures |Ids(attempts)| <= Drawn(attempts)
    decreases |attempts|
  {
    if attempts != [] {
      IdsWithinDrawn(attempts[..|attempts| - 1]);
    }
  }

  /** An INSERT that fails (a duplicate, say) still uses up its id: once a flight
      is inserted after it, the last id exceeds the number of flights, so some id
      in 1..n is missing. */
  lemma {:induction false} FailedInsertLeavesGap(attempts: seq<Attempt>, j: nat)
    requires j < |attempts| - 1
    requires Readable(attempts[j].row) && !attempts[j].insertOk
    requires Readable(attempts[|attempts| - 1].row) && attempts[|attempts| - 1].insertOk
    ensures |Ids(attempts)| >= 1 && Ids(attempts)[|Ids(attempts)| - 1] > |Ids(attempts)|
  {
    var init := attempts[..|attempts| - 1];
    assert init[j] == attempts[j];
    FailedInsertCosts(init, j);
  }

  lemma {:induction false} FailedInsertCosts(attempts: seq<Attempt>, j: nat)
    requires j < |attempts|
    requires Readable(attempts[j].row) && !attempts[j].insertOk
    ensures |Ids(attempts)| < Drawn(attempts)
    decreases |attempts|
  {
    var init := attempts[..|attempts| - 1];
    if j == |attempts| - 1 {
      IdsWithinDrawn(init);
    } else {
      assert init[j] == attempts[j];
      FailedInsertCosts(init, j);
    }
  }

  /** The rows of `table` under the ids of `ids`, position by position. */
  function Keyed(ids: seq<nat>, table: seq<Flight>): (m: map<nat, Flight>)
    requires |ids| == |table|
    requires forall k, l :: 0 <= k < l < |ids| ==> ids[k] < ids[l]
    ensures forall k :: 0 <= k < |ids| ==> ids[k] in m && m[ids[k]] == table[k]
    ensures forall i :: i in m ==> exists k :: 0 <= k < |ids| && ids[k] == i
    ensures |m| == |table|
  {
    var m := map k | 0 <= k < |ids| :: ids[k] := table[k];
    assert m.Keys == set k | 0 <= k < |ids| :: ids[k];
    SeqIndexSetSize(ids);
    m
  }

  /** The database after the migration: each inserted flight under the id its
      INSERT drew, and no bookings (the `CASCADE` empties them, and `RESTART
      IDENTITY` restarts their sequence too). */
  function MigratedDb(attempts: seq<Attempt>): (db: Db)
    ensures var ids, table := Ids(attempts), Inserted(Outcomes(attempts));
      && |ids| == |table|
      && (forall k :: 0 <= k < |ids| ==> ids[k] in db.flights && db.flights[ids[k]] == table[k])
      && (forall i :: i in db.flights ==> exists k :: 0 <= k < |ids| && ids[k] == i)
      && |db.flights| == |table|
    ensures db.bookings == map[] && Referential(db)
  {
    IdsMatchInserted(attempts);
    Db(Keyed(Ids(attempts), Inserted(Outcomes(attempts))), map[], 1)
  }

  /** The set of values of a strictly increasing sequence has one element per
      position. */
  lemma {:induction false} SeqIndexSetSize(ids: seq<nat>)
    requires forall k, l :: 0 <= k < l < |ids| ==> ids[k] < ids[l]
    ensures |set k | 0 <= k < |ids| :: ids[k]| == |ids|
    decreases |ids|
  {
    if ids != [] {
      var init := ids[..|ids| - 1];
      SeqIndexSetSize(init);
      var a := set k | 0 <= k < |init| :: init[k];
      assert (set k | 0 <= k < |ids| :: ids[k]) == a + {ids[|ids| - 1]};
      assert ids[|ids| - 1] !in a;
    }
  }

  /** Every flight the migration inserts has a seat count within its capacity. */
  lemma InsertedWithinCapacity(attempts: seq<Attempt>)
    ensures forall f :: f in Inserted(Outcomes(attempts)) ==> 0 <= f.availableSeats <= f.totalSeats
  {
    var outcomes := Outcomes(attempts);
    InsertedAreOutcomes(outcomes);
    forall f | f in Inserted(outcomes) ensures 0 <= f.availableSeats <= f.totalSeats {
      var i :| 0 <= i < |outcomes| && outcomes[i] == Some(f);
      MigratedFlightFields(attempts[i]);
    }
  }

  /** A database with no bookings whose flights are each within capacity is sound. */
  lemma EmptyBookingsSound(db: Db)
    requires db.bookings == map[]
    requires forall fid :: fid in db.flights ==>
      0 <= db.flights[fid].availableSeats <= db.flights[fid].totalSeats
    ensures Bookings.Sound(db)
  {
    forall fid | fid in db.flights ensures Bookings.Holders(db.bookings, fid) == {} {
    }
  }

  /** The database the migration leaves behind satisfies the seat accounting
      the booking routes rely on. */
  lemma MigrationIsSound(attempts: seq<Attempt>)
    ensures Bookings.Sound(MigratedDb(attempts))
  {
    var table := Inserted(Outcomes(attempts));
    var db := MigratedDb(attempts);
    var ids := Ids(attempts);
    InsertedWithinCapacity(attempts);
    forall fid | fid in db.flights
      ensures 0 <= db.flights[fid].availableSeats <= db.flights[fid].totalSeats
    {
      var k :| 0 <= k < |ids| && ids[k] == fid;
      assert db.flights[fid] == table[k];
    }
    EmptyBookingsSound(db);
  }
}
