/** The flight routes: the parameterised query behind GET `/search`, and the
    by-id routes GET, PUT and DELETE `/:id` over the flights table. */
module Flights {
  import opened Common
  import opened Text
  import opened Store

  const FLIGHT_NOT_FOUND: string := "Flight not found"
  const DELETE_OK: string := "Flight deleted successfully"
  const SERVER_ERROR: string := "Server error"

  // ---------------------------------------------------------------------------
  // Search

  const SEARCH_BASE: string := "SELECT * FROM flights WHERE 1=1"
  const ORDER_BY: string := " ORDER BY departure_time ASC"

  /** The query string of GET `/search`; a parameter that is absent or empty is
      falsy in the route and adds no condition. */
  datatype SearchFilters = SearchFilters(from: Option<string>, to: Option<string>, date: Option<string>)

  predicate Supplied(o: Option<string>) {
    o.Some? && o.value != ""
  }

  function CountSupplied(f: SearchFilters): nat {
    (if Supplied(f.from) then 1 else 0) + (if Supplied(f.to) then 1 else 0)
    + (if Supplied(f.date) then 1 else 0)
  }

  /** The parameterised SQL text and its parameter list, `$k` standing for `params[k-1]`. */
  datatype Query = Query(sql: string, params: seq<string>)

  /** The route's local state while it assembles the query: `query`, `params`, `paramCount`. */
  datatype Builder = Builder(sql: string, params: seq<string>, paramCount: nat)

  function Placeholder(n: nat): string {
    "$" + NatToString(n)
  }

  /** One `if` block of the route: append the condition with the next placeholder,
      push its parameter, bump the counter. */
  function AddCondition(b: Builder, condition: string, param: string): (r: Builder)
    ensures |b.sql| <= |r.sql| && r.sql[..|b.sql|] == b.sql
    ensures r.params == b.params + [param]
    ensures r.paramCount == b.paramCount + 1
  {
    Builder(b.sql + condition + Placeholder(b.paramCount), b.params + [param], b.paramCount + 1)
  }

  const FROM_CONDITION: string := " AND from_airport ILIKE "
  const TO_CONDITION: string := " AND to_airport ILIKE "
  const DATE_CONDITION: string := " AND DATE(departure_time) = "

  /** The three `if` blocks of GET `/search`: from, then to, then date. */
  function Build(f: SearchFilters): (b: Builder)
    ensures CountSupplied(f) == 0 ==> b.sql == SEARCH_BASE && b.params == []
    ensures |b.params| == CountSupplied(f)
    ensures |SEARCH_BASE| <= |b.sql| && b.sql[..|SEARCH_BASE|] == SEARCH_BASE
    ensures Supplied(f.from) ==> b.params[0] == "%" + f.from.value + "%"
    ensures Supplied(f.to) ==> b.params[if Supplied(f.from) then 1 else 0] == "%" + f.to.value + "%"
    ensures Supplied(f.date) ==> b.params[|b.params| - 1] == f.date.value
  {
    var b0 := Builder(SEARCH_BASE, [], 1);
    var b1 := if Supplied(f.from) then AddCondition(b0, FROM_CONDITION, "%" + f.from.value + "%") else b0;
    var b2 := if Supplied(f.to) then AddCondition(b1, TO_CONDITION, "%" + f.to.value + "%") else b1;
    var b3 := if Supplied(f.date) then AddCondition(b2, DATE_CONDITION, f.date.value) else b2;
    PrefixTrans(b0.sql, b1.sql, b2.sql);
    PrefixTrans(b0.sql, b2.sql, b3.sql);
    b3
  }

  /** GET `/search`: the assembled conditions followed by the ordering. */
  function Search(f: SearchFilters): (q: Query)
    ensures CountSupplied(f) == 0 ==> q == Query(SEARCH_BASE + ORDER_BY, [])
    ensures |q.params| == CountSupplied(f)
    ensures |SEARCH_BASE| + |ORDER_BY| <= |q.sql|
    ensures q.sql[..|SEARCH_BASE|] == SEARCH_BASE
    ensures q.sql[|q.sql| - |ORDER_BY|..] == ORDER_BY
    ensures Supplied(f.from) ==> q.params[0] == "%" + f.from.value + "%"
    ensures Supplied(f.to) ==> q.params[if Supplied(f.from) then 1 else 0] == "%" + f.to.value + "%"
    ensures Supplied(f.date) ==> q.params[|q.params| - 1] == f.date.value
  {
    var b := Build(f);
    PrefixTrans(SEARCH_BASE, b.sql, b.sql + ORDER_BY);
    Query(b.sql + ORDER_BY, b.params)
  }

  lemma PrefixTrans(a: string, b: string, c: string)
    requires |a| <= |b| <= |c| && b[..|a|] == a && c[..|b|] == b
    ensures c[..|a|] == a
  {
    assert c[..|a|] == c[..|b|][..|a|];
  }

  /** An independent description of the same query: the list of filters in use,
      each rendered as its condition with placeholder `$i` for the i-th filter. */
  datatype Column = FromAirport | ToAirport | DepartureDate
  datatype Filter = Filter(column: Column, value: string)

  function Active(f: SearchFilters): (fs: seq<Filter>)
    ensures |fs| == CountSupplied(f)
  {
    (if Supplied(f.from) then [Filter(FromAirport, f.from.value)] else [])
    + (if Supplied(f.to) then [Filter(ToAirport, f.to.value)] else [])
    + (if Supplied(f.date) then [Filter(DepartureDate, f.date.value)] else [])
  }

  function ColumnRank(c: Column): nat {
    match c
    case FromAirport => 0
    case ToAirport => 1
    case DepartureDate => 2
  }

  /** Filters are applied in the fixed order from, to, date, and each at most once. */
  lemma ActiveInFixedOrder(f: SearchFilters)
    ensures forall i, j :: 0 <= i < j < |Active(f)| ==>
      ColumnRank(Active(f)[i].column) < ColumnRank(Active(f)[j].column)
  {
  }

  function Condition(c: Column): string {
    match c
    case FromAirport => FROM_CONDITION
    case ToAirport => TO_CONDITION
    case DepartureDate => DATE_CONDITION
  }

  /** The value bound to a filter's placeholder: a substring pattern for the airports,
      the date as given. */
  function Bound(fl: Filter): string {
    match fl.column
    case DepartureDate => fl.value
    case _ => "%" + fl.value + "%"
  }

  function Concat(ss: seq<string>): string {
    if ss == [] then [] else ss[0] + Concat(ss[1..])
  }

  /** The conditions of `fs` with placeholders numbered from `first`. */
  function Pieces(fs: seq<Filter>, first: nat): (ps: seq<string>)
    ensures |ps| == |fs|
    ensures forall i :: 0 <= i < |fs| ==> ps[i] == Condition(fs[i].column) + Placeholder(first + i)
  {
    seq(|fs|, i requires 0 <= i < |fs| => Condition(fs[i].column) + Placeholder(first + i))
  }

  function Params(fs: seq<Filter>): (ps: seq<string>)
    ensures |ps| == |fs|
    ensures forall i :: 0 <= i < |fs| ==> ps[i] == Bound(fs[i])
    decreases |fs|
  {
    if fs == [] then [] else [Bound(fs[0])] + Params(fs[1..])
  }

  /** Running the route's `if` block once per filter of `fs`, in order. */
  function Apply(b: Builder, fs: seq<Filter>): Builder
    decreases |fs|
  {
    if fs == [] then b else Apply(AddCondition(b, Condition(fs[0].column), Bound(fs[0])), fs[1..])
  }

  lemma {:induction false} ApplyAppend(b: Builder, xs: seq<Filter>, ys: seq<Filter>)
    ensures Apply(Apply(b, xs), ys) == Apply(b, xs + ys)
    decreases |xs|
  {
    if xs != [] {
      assert (xs + ys)[1..] == xs[1..] + ys;
      ApplyAppend(AddCondition(b, Condition(xs[0].column), Bound(xs[0])), xs[1..], ys);
    } else {
      assert xs + ys == ys;
    }
  }

  lemma PiecesCons(fs: seq<Filter>, first: nat)
    requires fs != []
    ensures Concat(Pieces(fs, first))
         == (Condition(fs[0].column) + Placeholder(first)) + Concat(Pieces(fs[1..], first + 1))
  {
    var ps := Pieces(fs, first);
    assert ps[1..] == Pieces(fs[1..], first + 1);
    assert Concat(ps) == ps[0] + Concat(ps[1..]);
  }

  lemma {:induction false} ApplyRenders(b: Builder, fs: seq<Filter>)
    ensures Apply(b, fs).sql == b.sql + Concat(Pieces(fs, b.paramCount))
    ensures Apply(b, fs).params == b.params + Params(fs)
    decreases |fs|
  {
    if fs == [] {
      assert Pieces(fs, b.paramCount) == [];
      assert Params(fs) == [];
    } else {
      var piece := Condition(fs[0].column) + Placeholder(b.paramCount);
      var b' := AddCondition(b, Condition(fs[0].column), Bound(fs[0]));
      assert b'.sql == b.sql + piece && b'.paramCount == b.paramCount + 1;
      ApplyRenders(b', fs[1..]);
      var rest := Concat(Pieces(fs[1..], b.paramCount + 1));
      PiecesCons(fs, b.paramCount);
      AppendAssoc(b.sql, piece, rest);
      AppendAssoc(b.params, [Bound(fs[0])], Params(fs[1..]));
    }
  }

  /** The route's three `if` blocks run one block per active filter, in order. */
  lemma BuildIsApply(f: SearchFilters)
    ensures Build(f) == Apply(Builder(SEARCH_BASE, [], 1), Active(f))
  {
    var b0 := Builder(SEARCH_BASE, [], 1);
    var a1 := if Supplied(f.from) then [Filter(FromAirport, f.from.value)] else [];
    var a2 := if Supplied(f.to) then [Filter(ToAirport, f.to.value)] else [];
    var a3 := if Supplied(f.date) then [Filter(DepartureDate, f.date.value)] else [];
    var b1 := if Supplied(f.from) then AddCondition(b0, FROM_CONDITION, "%" + f.from.value + "%") else b0;
    var b2 := if Supplied(f.to) then AddCondition(b1, TO_CONDITION, "%" + f.to.value + "%") else b1;
    var b3 := if Supplied(f.date) then AddCondition(b2, DATE_CONDITION, f.date.value) else b2;
    assert Build(f) == b3;
    assert b1 == Apply(b0, a1);
    assert b2 == Apply(b1, a2);
    assert b3 == Apply(b2, a3);
    ApplyAppend(b0, a1, a2);
    ApplyAppend(b0, a1 + a2, a3);
    assert a1 + a2 + a3 == Active(f);
  }

  /** The route's query is the base, then the i-th active filter's condition with
      placeholder `$i` for i = 1, 2, ..., then the ordering; its i-th parameter is
      the i-th filter's bound value. */
  lemma SearchMatchesFilters(f: SearchFilters)
    ensures Search(f) == Query(SEARCH_BASE + Concat(Pieces(Active(f), 1)) + ORDER_BY, Params(Active(f)))
  {
    BuildIsApply(f);
    ApplyRenders(Builder(SEARCH_BASE, [], 1), Active(f));
  }

  /** Each placeholder names its own parameter: the number after `$` in the i-th
      condition reads back as i + 1, so it selects `params[i]`, the value of the
      i-th filter, and no two conditions share a placeholder. */
  lemma PlaceholderSelectsOwnParam(f: SearchFilters, i: nat, j: nat)
    requires i < |Active(f)| && j < |Active(f)|
    ensures var p := Placeholder(i + 1);
      AllDigits(p[1..]) && ParseDigits(p[1..]) - 1 == i
      && Search(f).params[ParseDigits(p[1..]) - 1] == Bound(Active(f)[i])
      && Pieces(Active(f), 1)[i] == Condition(Active(f)[i].column) + p
    ensures i != j ==> Placeholder(i + 1) != Placeholder(j + 1)
  {
    var p := Placeholder(i + 1);
    assert p[1..] == NatToString(i + 1);
    ParseNatToString(i + 1);
    SearchMatchesFilters(f);
    if i != j && Placeholder(i + 1) == Placeholder(j + 1) {
      assert Placeholder(j + 1)[1..] == NatToString(j + 1);
      NatToStringInjective(i + 1, j + 1);
    }
  }

  // ---------------------------------------------------------------------------
  // By id

  /** GET `/:id`. */
  function GetFlight(db: Db, id: nat): (r: Reply<Flight>)
    ensures id !in db.flights ==> r == Fail(404, FLIGHT_NOT_FOUND)
    ensures id in db.flights ==> r.Ok? && r.code == 200 && r.body == db.flights[id]
  {
    if id in db.flights then Ok(200, db.flights[id]) else Fail(404, FLIGHT_NOT_FOUND)
  }

  /** The nine columns PUT `/:id` takes from the body; a field the body leaves out
      is `undefined`, which the driver binds as NULL. */
  datatype FlightUpdate = FlightUpdate(
    flightNumber: Option<string>,
    airline: Option<string>,
    fromAirport: Option<string>,
    toAirport: Option<string>,
    departureTime: Option<int>,
    arrivalTime: Option<int>,
    price: Option<int>,
    availableSeats: Option<int>,
    status: Option<string>)

  /** The body carries all nine columns. */
  predicate Complete(u: FlightUpdate) {
    && u.flightNumber.Some? && u.airline.Some? && u.fromAirport.Some? && u.toAirport.Some?
    && u.departureTime.Some? && u.arrivalTime.Some? && u.price.Some?
    && u.availableSeats.Some? && u.status.Some?
  }

  /** The nine columns of a row that PUT writes, read back as a body. */
  function Written(g: Flight): FlightUpdate {
    FlightUpdate(Some(g.flightNumber), Some(g.airline), Some(g.fromAirport), Some(g.toAirport),
                 Some(g.departureTime), Some(g.arrivalTime), Some(g.price), Some(g.availableSeats),
                 Some(g.status))
  }

  /** The row after the UPDATE: the nine columns from the body, the rest kept. */
  function Overwrite(f: Flight, u: FlightUpdate): (g: Flight)
    requires Complete(u)
    ensures Written(g) == u
    ensures g.totalSeats == f.totalSeats && g.aircraftType == f.aircraftType
    ensures forall h: Flight :: h.totalSeats == f.totalSeats && h.aircraftType == f.aircraftType ==>
      h.(flightNumber := g.flightNumber, airline := g.airline, fromAirport := g.fromAirport,
         toAirport := g.toAirport, departureTime := g.departureTime, arrivalTime := g.arrivalTime,
         price := g.price, availableSeats := g.availableSeats, status := g.status) == g
  {
    Flight(u.flightNumber.value, u.airline.value, u.fromAirport.value, u.toAirport.value,
           u.departureTime.value, u.arrivalTime.value, u.price.value, u.availableSeats.value,
           f.totalSeats, f.aircraftType, u.status.value)
  }

  /** PUT `/:id`. The WHERE clause is looked at first: no row, no constraint to
      break, 404. A row whose UPDATE would write NULL into one of the flight's
      NOT NULL columns fails, the error is caught, and the reply is 500 with the
      row as it was. */
  function PutFlight(db: Db, id: nat, u: FlightUpdate): (s: Step<Flight>)
    ensures id !in db.flights ==> s == Step(Fail(404, FLIGHT_NOT_FOUND), db)
    ensures id in db.flights && !Complete(u) ==> s == Step(Fail(500, SERVER_ERROR), db)
    ensures s.reply.Ok? <==> id in db.flights && Complete(u)
    ensures s.reply.Ok? ==>
      && s.reply.code == 200
      && s.db.bookings == db.bookings && s.db.nextBookingId == db.nextBookingId
      && s.db.flights.Keys == db.flights.Keys
      && s.reply.body == s.db.flights[id]
      && (forall k :: k in db.flights && k != id ==> s.db.flights[k] == db.flights[k])
  {
    if id !in db.flights then Step(Fail(404, FLIGHT_NOT_FOUND), db)
    else if !Complete(u) then Step(Fail(500, SERVER_ERROR), db)
    else
      var f := Overwrite(db.flights[id], u);
      Step(Ok(200, f), db.(flights := db.flights[id := f]))
  }

  /** After a PUT with a full body, GET returns exactly the body's nine columns
      together with the row's old `total_seats` and `aircraft_type`; the old
      values of the nine columns leave no trace. A body that leaves a column out
      changes nothing. */
  lemma PutThenGet(db: Db, id: nat, u: FlightUpdate)
    requires id in db.flights
    ensures var g := GetFlight(PutFlight(db, id, u).db, id);
      && g.Ok?
      && (Complete(u) ==>
            && g.body.flightNumber == u.flightNumber.value && g.body.airline == u.airline.value
            && g.body.fromAirport == u.fromAirport.value && g.body.toAirport == u.toAirport.value
            && g.body.departureTime == u.departureTime.value
            && g.body.arrivalTime == u.arrivalTime.value
            && g.body.price == u.price.value && g.body.availableSeats == u.availableSeats.value
            && g.body.status == u.status.value
            && g.body.totalSeats == db.flights[id].totalSeats
            && g.body.aircraftType == db.flights[id].aircraftType)
      && (!Complete(u) ==> g.body == db.flights[id])
    ensures forall f: Flight :: f.totalSeats == db.flights[id].totalSeats
              && f.aircraftType == db.flights[id].aircraftType && Complete(u)
              ==> PutFlight(db.(flights := db.flights[id := f]), id, u).db == PutFlight(db, id, u).db
  {
  }

  /** Nothing checks the new `available_seats` against `total_seats`. */
  lemma PutMayExceedCapacity(db: Db, id: nat, u: FlightUpdate)
    requires id in db.flights && Complete(u)
    requires u.availableSeats.value > db.flights[id].totalSeats
    ensures var s := PutFlight(db, id, u);
      s.reply.Ok? && s.db.flights[id].availableSeats > s.db.flights[id].totalSeats
  {
  }

  /** DELETE `/:id`. `bookings.flight_id` references `flights.id` without a
      cascade, so deleting a flight some booking points at violates the foreign
      key: the error is caught and the reply is 500 with nothing deleted. */
  function DeleteFlight(db: Db, id: nat): (s: Step<string>)
    ensures id !in db.flights ==> s == Step(Fail(404, FLIGHT_NOT_FOUND), db)
    ensures id in db.flights && Referenced(db, id) ==> s == Step(Fail(500, SERVER_ERROR), db)
    ensures s.reply.Ok? <==> id in db.flights && !Referenced(db, id)
    ensures s.reply.Ok? ==>
      && s.reply == Ok(200, DELETE_OK)
      && s.db.bookings == db.bookings && s.db.nextBookingId == db.nextBookingId
      && s.db.flights.Keys == db.flights.Keys - {id}
      && (forall k :: k in s.db.flights ==> s.db.flights[k] == db.flights[k])
  {
    if id !in db.flights then Step(Fail(404, FLIGHT_NOT_FOUND), db)
    else if Referenced(db, id) then Step(Fail(500, SERVER_ERROR), db)
    else Step(Ok(200, DELETE_OK), db.(flights := db.flights - {id}))
  }

  /** Whatever it answers, DELETE never leaves a booking pointing at a missing
      flight. */
  lemma DeleteKeepsReferential(db: Db, id: nat)
    requires Referential(db)
    ensures Referential(DeleteFlight(db, id).db)
  {
    if id in db.flights && !Referenced(db, id) {
      var db' := DeleteFlight(db, id).db;
      forall k | k in db'.bookings ensures db'.bookings[k].flightId in db'.flights {
        assert db.bookings[k].flightId != id;
      }
    }
  }

  /** After a DELETE of an unreferenced flight the id is gone for all three by-id
      routes, and the other ids read as before; a referenced flight stays. */
  lemma DeleteThenNotFound(db: Db, id: nat, u: FlightUpdate)
    ensures var db' := DeleteFlight(db, id).db;
      && (Referenced(db, id) ==> db' == db)
      && (!Referenced(db, id) ==>
            && GetFlight(db', id) == Fail(404, FLIGHT_NOT_FOUND)
            && PutFlight(db', id, u).reply == Fail(404, FLIGHT_NOT_FOUND)
            && DeleteFlight(db', id).reply == Fail(404, FLIGHT_NOT_FOUND))
      && forall k :: k != id ==> GetFlight(db', k) == GetFlight(db, k)
  {
  }
}
