/** The seat-selection page: the fixed cabin layout, the click handler that keeps
    the seat statuses and the `selectedSeats` list in step, the seat colours, the
    price total and the guard on the continue button. */
module Seats {
  import opened Common
  import opened Text

  datatype Cabin = Economy | Premium | Business
  datatype SeatStatus = Available | Selected | Occupied

  datatype Seat = Seat(id: string, row: nat, column: char, cabin: Cabin, status: SeatStatus, price: nat)

  /** The page state: `seats` and `selectedSeats`. */
  datatype SeatMap = SeatMap(seats: seq<Seat>, selected: seq<string>)

  /** `flightInfo.basePrice`. */
  const BASE_PRICE: nat := 5999
  const SEAT_COUNT: nat := 174

  // ---------------------------------------------------------------------------
  // Layout

  /** Rows 1-3 are business, 4-8 premium economy, the rest economy. */
  function CabinOfRow(row: nat): Cabin {
    if row <= 3 then Business else if row <= 8 then Premium else Economy
  }

  /** Business has no middle seats B and E. */
  function ColumnsOf(c: Cabin): string {
    if c == Business then "ACDF" else "ABCDEF"
  }

  function PriceOf(c: Cabin): nat {
    match c
    case Business => 8000
    case Premium => 2000
    case Economy => 0
  }

  /** The template literal `${row}${col}`. */
  function SeatId(row: nat, column: char): string {
    NatToString(row) + [column]
  }

  /** A seat id names one row and one column. */
  lemma SeatIdInjective(r1: nat, c1: char, r2: nat, c2: char)
    requires SeatId(r1, c1) == SeatId(r2, c2)
    ensures r1 == r2 && c1 == c2
  {
    var s1 := SeatId(r1, c1);
    var s2 := SeatId(r2, c2);
    assert s1[|s1| - 1] == c1 && s2[|s2| - 1] == c2;
    assert s1[..|s1| - 1] == NatToString(r1);
    assert s2[..|s2| - 1] == NatToString(r2);
    NatToStringInjective(r1, r2);
  }

  /** The status a freshly generated seat gets from its random draw. */
  function Initial(occupied: (nat, char) -> bool, row: nat, column: char): SeatStatus {
    if occupied(row, column) then Occupied else Available
  }

  /** Every seat of `seats` sits at a different (row, column). */
  predicate UniquePlaces(seats: seq<Seat>) {
    forall i, j :: 0 <= i < j < |seats| ==>
      seats[i].row != seats[j].row || seats[i].column != seats[j].column
  }

  predicate UniqueIds(seats: seq<Seat>) {
    forall i, j :: 0 <= i < |seats| && 0 <= j < |seats| && i != j ==> seats[i].id != seats[j].id
  }

  predicate HasPlace(seats: seq<Seat>, row: nat, column: char) {
    exists i :: 0 <= i < |seats| && seats[i].row == row && seats[i].column == column
  }

  /** What the generator writes for a seat at (row, column) of a block. */
  predicate Generated(s: Seat, cabin: Cabin, occupied: (nat, char) -> bool) {
    && s.cabin == cabin
    && s.id == SeatId(s.row, s.column)
    && s.price == PriceOf(cabin)
    && s.status == Initial(occupied, s.row, s.column)
  }

  predicate Distinct(cols: string) {
    forall i, j :: 0 <= i < j < |cols| ==> cols[i] != cols[j]
  }

  /** One row of a block: a seat per column, in column order. */
  function RowSeats(row: nat, cols: string, cabin: Cabin, occupied: (nat, char) -> bool): (ss: seq<Seat>)
    ensures |ss| == |cols|
    ensures forall j :: 0 <= j < |cols| ==> ss[j].row == row && ss[j].column == cols[j]
    ensures forall j :: 0 <= j < |cols| ==> Generated(ss[j], cabin, occupied)
  {
    seq(|cols|, j requires 0 <= j < |cols| =>
      Seat(SeatId(row, cols[j]), row, cols[j], cabin, Initial(occupied, row, cols[j]), PriceOf(cabin)))
  }

  lemma ConcatUniquePlaces(a: seq<Seat>, b: seq<Seat>)
    requires UniquePlaces(a) && UniquePlaces(b)
    requires forall i, j :: 0 <= i < |a| && 0 <= j < |b| ==> a[i].row < b[j].row
    ensures UniquePlaces(a + b)
  {
    var ab := a + b;
    forall i, j | 0 <= i < j < |ab|
      ensures ab[i].row != ab[j].row || ab[i].column != ab[j].column
    {
      if j < |a| {
        assert ab[i] == a[i] && ab[j] == a[j];
      } else if i >= |a| {
        assert ab[i] == b[i - |a|] && ab[j] == b[j - |a|];
      } else {
        assert ab[i] == a[i] && ab[j] == b[j - |a|];
      }
    }
  }

  lemma ConcatHasPlace(a: seq<Seat>, b: seq<Seat>, row: nat, column: char)
    requires HasPlace(a, row, column) || HasPlace(b, row, column)
    ensures HasPlace(a + b, row, column)
  {
    if HasPlace(a, row, column) {
      var i :| 0 <= i < |a| && a[i].row == row && a[i].column == column;
      assert (a + b)[i] == a[i];
    } else {
      var i :| 0 <= i < |b| && b[i].row == row && b[i].column == column;
      assert (a + b)[|a| + i] == b[i];
    }
  }

  /** Rows `lo..hi` of a block, row by row (the route's nested `for` loops). */
  function Rows(lo: nat, hi: nat, cols: string, cabin: Cabin, occupied: (nat, char) -> bool): (ss: seq<Seat>)
    requires Distinct(cols)
    ensures |ss| == if lo <= hi then (hi - lo + 1) * |cols| else 0
    ensures forall i :: 0 <= i < |ss| ==>
      lo <= ss[i].row <= hi && ss[i].column in cols && Generated(ss[i], cabin, occupied)
    ensures UniquePlaces(ss)
    ensures forall r, j :: lo <= r <= hi && 0 <= j < |cols| ==> HasPlace(ss, r, cols[j])
    decreases hi + 1 - lo
  {
    if lo > hi then []
    else
      var first := RowSeats(lo, cols, cabin, occupied);
      var rest := Rows(lo + 1, hi, cols, cabin, occupied);
      assert UniquePlaces(first);
      ConcatUniquePlaces(first, rest);
      forall r, j | lo <= r <= hi && 0 <= j < |cols|
        ensures HasPlace(first + rest, r, cols[j])
      {
        if r == lo {
          assert first[j].row == r && first[j].column == cols[j];
        }
        ConcatHasPlace(first, rest, r, cols[j]);
      }
      first + rest
  }

  /** Where the layout puts a seat, and what the generator writes into it. */
  predicate WellPlaced(s: Seat, occupied: (nat, char) -> bool) {
    && 1 <= s.row <= 30
    && s.cabin == CabinOfRow(s.row)
    && s.column in ColumnsOf(s.cabin)
    && Generated(s, s.cabin, occupied)
  }

  lemma BlockWellPlaced(ss: seq<Seat>, lo: nat, hi: nat, cabin: Cabin, occupied: (nat, char) -> bool)
    requires 1 <= lo && hi <= 30
    requires forall r :: lo <= r <= hi ==> CabinOfRow(r) == cabin
    requires forall i :: 0 <= i < |ss| ==>
      lo <= ss[i].row <= hi && ss[i].column in ColumnsOf(cabin) && Generated(ss[i], cabin, occupied)
    ensures forall i :: 0 <= i < |ss| ==> WellPlaced(ss[i], occupied)
  {
  }

  lemma ConcatWellPlaced(a: seq<Seat>, b: seq<Seat>, occupied: (nat, char) -> bool)
    requires forall i :: 0 <= i < |a| ==> WellPlaced(a[i], occupied)
    requires forall i :: 0 <= i < |b| ==> WellPlaced(b[i], occupied)
    ensures forall i :: 0 <= i < |a + b| ==> WellPlaced((a + b)[i], occupied)
  {
  }

  /** Ids built from distinct places are distinct. */
  lemma PlacesGiveUniqueIds(seats: seq<Seat>)
    requires UniquePlaces(seats)
    requires forall i :: 0 <= i < |seats| ==> seats[i].id == SeatId(seats[i].row, seats[i].column)
    ensures UniqueIds(seats)
  {
    forall i, j | 0 <= i < |seats| && 0 <= j < |seats| && i != j
      ensures seats[i].id != seats[j].id
    {
      if seats[i].id == seats[j].id {
        SeatIdInjective(seats[i].row, seats[i].column, seats[j].row, seats[j].column);
        if i < j { assert false; } else { assert false; }
      }
    }
  }

  /** The three blocks of the cabin, front to back, as the three loops push them. */
  function BusinessBlock(occupied: (nat, char) -> bool): seq<Seat> {
    Rows(1, 3, "ACDF", Business, occupied)
  }

  function PremiumBlock(occupied: (nat, char) -> bool): seq<Seat> {
    Rows(4, 8, "ABCDEF", Premium, occupied)
  }

  function EconomyBlock(occupied: (nat, char) -> bool): seq<Seat> {
    Rows(9, 30, "ABCDEF", Economy, occupied)
  }

  function Layout(occupied: (nat, char) -> bool): seq<Seat> {
    BusinessBlock(occupied) + (PremiumBlock(occupied) + EconomyBlock(occupied))
  }

  lemma LayoutWellPlaced(occupied: (nat, char) -> bool)
    ensures forall i :: 0 <= i < |Layout(occupied)| ==> WellPlaced(Layout(occupied)[i], occupied)
  {
    var business, premium, economy := BusinessBlock(occupied), PremiumBlock(occupied), EconomyBlock(occupied);
    BlockWellPlaced(business, 1, 3, Business, occupied);
    BlockWellPlaced(premium, 4, 8, Premium, occupied);
    BlockWellPlaced(economy, 9, 30, Economy, occupied);
    ConcatWellPlaced(premium, economy, occupied);
    ConcatWellPlaced(business, premium + economy, occupied);
  }

  lemma LayoutUniqueIds(occupied: (nat, char) -> bool)
    ensures UniqueIds(Layout(occupied))
  {
    var business, premium, economy := BusinessBlock(occupied), PremiumBlock(occupied), EconomyBlock(occupied);
    ConcatUniquePlaces(premium, economy);
    ConcatUniquePlaces(business, premium + economy);
    LayoutWellPlaced(occupied);
    PlacesGiveUniqueIds(Layout(occupied));
  }

  lemma PlaceInLayout(occupied: (nat, char) -> bool, r: nat, j: nat)
    requires 1 <= r <= 30 && j < |ColumnsOf(CabinOfRow(r))|
    ensures HasPlace(Layout(occupied), r, ColumnsOf(CabinOfRow(r))[j])
  {
    var business, premium, economy := BusinessBlock(occupied), PremiumBlock(occupied), EconomyBlock(occupied);
    var c := ColumnsOf(CabinOfRow(r))[j];
    if r <= 3 {
      assert c == "ACDF"[j] && HasPlace(business, r, "ACDF"[j]);
    } else {
      assert c == "ABCDEF"[j];
      if r <= 8 {
        assert HasPlace(premium, r, "ABCDEF"[j]);
      } else {
        assert HasPlace(economy, r, "ABCDEF"[j]);
      }
      ConcatHasPlace(premium, economy, r, c);
    }
    ConcatHasPlace(business, premium + economy, r, c);
  }

  lemma LayoutComplete(occupied: (nat, char) -> bool)
    ensures forall r, j :: 1 <= r <= 30 && 0 <= j < |ColumnsOf(CabinOfRow(r))| ==>
      HasPlace(Layout(occupied), r, ColumnsOf(CabinOfRow(r))[j])
  {
    forall r, j | 1 <= r <= 30 && 0 <= j < |ColumnsOf(CabinOfRow(r))|
      ensures HasPlace(Layout(occupied), r, ColumnsOf(CabinOfRow(r))[j])
    {
      PlaceInLayout(occupied, r, j);
    }
  }

  /** `generateSeats`: the whole cabin, the occupancy draw of each seat given by
      `occupied`. Every place of the layout appears once, under its own id. */
  function GenerateSeats(occupied: (nat, char) -> bool): (seats: seq<Seat>)
    ensures |seats| == SEAT_COUNT
    ensures forall i :: 0 <= i < |seats| ==> WellPlaced(seats[i], occupied)
    ensures UniqueIds(seats)
    ensures forall r, j :: 1 <= r <= 30 && 0 <= j < |ColumnsOf(CabinOfRow(r))| ==>
      HasPlace(seats, r, ColumnsOf(CabinOfRow(r))[j])
  {
    LayoutWellPlaced(occupied);
    LayoutUniqueIds(occupied);
    LayoutComplete(occupied);
    Layout(occupied)
  }

  // ---------------------------------------------------------------------------
  // Selection

  /** The ids shown as selected on the seat map. */
  function SelectedIds(seats: seq<Seat>): set<string> {
    set i | 0 <= i < |seats| && seats[i].status == Selected :: seats[i].id
  }

  function Elements(list: seq<string>): set<string> {
    set x | x in list
  }

  predicate NoDuplicates(list: seq<string>) {
    forall i, j :: 0 <= i < j < |list| ==> list[i] != list[j]
  }

  /** The page invariant: seat ids are unique, and `selectedSeats` lists, once each,
      exactly the ids of the seats whose status is selected. */
  predicate Consistent(m: SeatMap) {
    && UniqueIds(m.seats)
    && NoDuplicates(m.selected)
    && Elements(m.selected) == SelectedIds(m.seats)
  }

  /** `seats.find(s => s.id === seatId)`: the first seat with that id. */
  function Find(seats: seq<Seat>, id: string): (k: Option<nat>)
    ensures k.Some? ==> k.value < |seats| && seats[k.value].id == id
    ensures k.Some? ==> forall j :: 0 <= j < k.value ==> seats[j].id != id
    ensures k.None? ==> forall j :: 0 <= j < |seats| ==> seats[j].id != id
    decreases |seats|
  {
    if seats == [] then None
    else if seats[0].id == id then Some(0)
    else
      match Find(seats[1..], id)
      case None => None
      case Some(k) => Some(k + 1)
  }

  function Flip(st: SeatStatus): SeatStatus {
    if st == Selected then Available else Selected
  }

  /** The `setSeats` update: flip the status of every seat with that id. */
  function ToggleAll(seats: seq<Seat>, id: string): (r: seq<Seat>)
    ensures |r| == |seats|
    ensures forall i :: 0 <= i < |seats| ==>
      r[i] == if seats[i].id == id then seats[i].(status := Flip(seats[i].status)) else seats[i]
  {
    seq(|seats|, i requires 0 <= i < |seats| =>
      if seats[i].id == id then seats[i].(status := Flip(seats[i].status)) else seats[i])
  }

  /** `prev.filter(x => x !== id)`. */
  function Without(list: seq<string>, id: string): (r: seq<string>)
    ensures Elements(r) == Elements(list) - {id}
    ensures id !in list ==> r == list
    ensures NoDuplicates(list) ==> NoDuplicates(r)
    ensures |list| == 1 ==> r == (if list[0] == id then [] else list)
    decreases |list|
  {
    if list == [] then []
    else
      var rest := Without(list[1..], id);
      assert list == [list[0]] + list[1..];
      assert Elements(list) == {list[0]} + Elements(list[1..]);
      if list[0] == id then rest
      else
        assert NoDuplicates(list) ==> NoDuplicates([list[0]] + rest) by {
          if NoDuplicates(list) {
            assert list[0] !in Elements(list[1..]);
            assert list[0] !in Elements(rest);
            NoDuplicatesCons(list[0], rest);
          }
        }
        assert Elements([list[0]] + rest) == {list[0]} + Elements(rest);
        [list[0]] + rest
  }

  lemma NoDuplicatesCons(x: string, rest: seq<string>)
    requires x !in Elements(rest) && NoDuplicates(rest)
    ensures NoDuplicates([x] + rest)
  {
    var l := [x] + rest;
    forall i, j | 0 <= i < j < |l| ensures l[i] != l[j] {
      if i == 0 {
        assert l[j] == rest[j - 1] && rest[j - 1] in Elements(rest);
      } else {
        assert l[i] == rest[i - 1] && l[j] == rest[j - 1];
      }
    }
  }

  /** `handleSeatClick`: an unknown or occupied seat changes nothing; any other seat
      flips between available and selected, and its id leaves `selectedSeats` if
      present or is appended otherwise. */
  function Click(m: SeatMap, id: string): (m': SeatMap)
    ensures Find(m.seats, id).None? ==> m' == m
    ensures Find(m.seats, id).Some? && m.seats[Find(m.seats, id).value].status == Occupied ==> m' == m
    ensures |m'.seats| == |m.seats|
    ensures forall i :: 0 <= i < |m.seats| && m.seats[i].id != id ==> m'.seats[i] == m.seats[i]
    ensures Find(m.seats, id).Some? && m.seats[Find(m.seats, id).value].status != Occupied ==>
      && m'.seats == ToggleAll(m.seats, id)
      && (id in m.selected ==> m'.selected == Without(m.selected, id))
      && (id !in m.selected ==> m'.selected == m.selected + [id])
  {
    match Find(m.seats, id)
    case None => m
    case Some(k) =>
      if m.seats[k].status == Occupied then m
      else SeatMap(ToggleAll(m.seats, id),
                   if id in m.selected then Without(m.selected, id) else m.selected + [id])
  }

  /** A click on a selectable seat flips that seat and only that seat: with unique
      ids, the new seat list is the old one with one status changed. */
  lemma ClickFlipsOneSeat(m: SeatMap, id: string)
    requires UniqueIds(m.seats)
    requires Find(m.seats, id).Some? && m.seats[Find(m.seats, id).value].status != Occupied
    ensures var k := Find(m.seats, id).value;
      Click(m, id).seats == m.seats[k := m.seats[k].(status := Flip(m.seats[k].status))]
  {
  }

  lemma ElementsAppend(list: seq<string>, x: string)
    ensures Elements(list + [x]) == Elements(list) + {x}
  {
  }

  /** The page starts consistent: nothing selected, no seat selected. */
  lemma InitialConsistent(occupied: (nat, char) -> bool)
    ensures Consistent(SeatMap(GenerateSeats(occupied), []))
  {
    var seats := GenerateSeats(occupied);
    assert SelectedIds(seats) == {};
  }

  /** Every click keeps the seat statuses and `selectedSeats` in step. */
  lemma ClickKeepsConsistent(m: SeatMap, id: string)
    requires Consistent(m)
    ensures Consistent(Click(m, id))
  {
    var f := Find(m.seats, id);
    if f.Some? && m.seats[f.value].status != Occupied {
      var k := f.value;
      var m' := Click(m, id);
      var wasSelected := m.seats[k].status == Selected;
      assert forall i :: 0 <= i < |m.seats| && i != k ==> m.seats[i].id != id;
      assert UniqueIds(m'.seats) by {
        assert forall i :: 0 <= i < |m.seats| ==> m'.seats[i].id == m.seats[i].id;
      }
      if wasSelected {
        assert id in SelectedIds(m.seats);
        assert id in m.selected;
        assert SelectedIds(m'.seats) == SelectedIds(m.seats) - {id} by {
          forall x | x in SelectedIds(m'.seats) ensures x in SelectedIds(m.seats) - {x} + {x} && x != id {
            var i :| 0 <= i < |m'.seats| && m'.seats[i].status == Selected && m'.seats[i].id == x;
            assert i != k;
          }
          forall x | x in SelectedIds(m.seats) - {id} ensures x in SelectedIds(m'.seats) {
            var i :| 0 <= i < |m.seats| && m.seats[i].status == Selected && m.seats[i].id == x;
            assert m'.seats[i] == m.seats[i];
          }
        }
      } else {
        assert id !in SelectedIds(m.seats);
        assert id !in Elements(m.selected);
        ElementsAppend(m.selected, id);
        assert SelectedIds(m'.seats) == SelectedIds(m.seats) + {id} by {
          forall x | x in SelectedIds(m'.seats) ensures x in SelectedIds(m.seats) + {id} {
            var i :| 0 <= i < |m'.seats| && m'.seats[i].status == Selected && m'.seats[i].id == x;
            if i != k { assert m'.seats[i] == m.seats[i]; }
          }
          assert m'.seats[k].status == Selected;
          forall x | x in SelectedIds(m.seats) ensures x in SelectedIds(m'.seats) {
            var i :| 0 <= i < |m.seats| && m.seats[i].status == Selected && m.seats[i].id == x;
            assert i != k;
            assert m'.seats[i] == m.seats[i];
          }
        }
        assert NoDuplicates(m'.selected) by {
          assert m'.selected == m.selected + [id];
          forall i, j | 0 <= i < j < |m'.selected| ensures m'.selected[i] != m'.selected[j] {
            if j == |m.selected| {
              assert m'.selected[i] == m.selected[i];
              assert m.selected[i] in m.selected;
            }
          }
        }
      }
    }
  }

  /** Clicking a selectable seat that is not in `selectedSeats` twice restores the
      page exactly. */
  lemma ClickTwiceRestores(m: SeatMap, id: string)
    requires UniqueIds(m.seats)
    requires Find(m.seats, id).Some? && m.seats[Find(m.seats, id).value].status != Occupied
    requires id !in m.selected
    ensures Click(Click(m, id), id) == m
  {
    var k := Find(m.seats, id).value;
    var m1 := Click(m, id);
    assert m1.selected == m.selected + [id];
    assert Find(m1.seats, id) == Find(m.seats, id) by {
      FindSameIds(m.seats, m1.seats, id);
    }
    var m2 := Click(m1, id);
    assert m2.selected == Without(m.selected + [id], id);
    WithoutAppend(m.selected, id);
    assert m2.seats == m.seats by {
      forall i | 0 <= i < |m.seats| ensures m2.seats[i] == m.seats[i] {
        if m.seats[i].id == id {
          assert i == k;
        }
      }
    }
  }

  /** Clicking twice on a selected seat puts its id back at the end of
      `selectedSeats`: the same set of ids, and the seats as before. */
  lemma ClickTwiceSameSelection(m: SeatMap, id: string)
    requires Consistent(m)
    ensures Click(Click(m, id), id).seats == m.seats
    ensures Elements(Click(Click(m, id), id).selected) == Elements(m.selected)
  {
    var f := Find(m.seats, id);
    if f.Some? && m.seats[f.value].status != Occupied {
      var k := f.value;
      var m1 := Click(m, id);
      FindSameIds(m.seats, m1.seats, id);
      var m2 := Click(m1, id);
      assert m2.seats == m.seats by {
        forall i | 0 <= i < |m.seats| ensures m2.seats[i] == m.seats[i] {
          if m.seats[i].id == id {
            assert Flip(Flip(m.seats[i].status)) == m.seats[i].status;
          }
        }
      }
      if id in m.selected {
        assert m1.selected == Without(m.selected, id);
        assert id !in m1.selected by { assert id !in Elements(m1.selected); }
        ElementsAppend(m1.selected, id);
        assert id in Elements(m.selected);
      } else {
        WithoutAppend(m.selected, id);
      }
    }
  }

  lemma FindSameIds(a: seq<Seat>, b: seq<Seat>, id: string)
    requires |a| == |b|
    requires forall i :: 0 <= i < |a| ==> a[i].id == b[i].id
    ensures Find(a, id) == Find(b, id)
    decreases |a|
  {
    if a != [] {
      FindSameIds(a[1..], b[1..], id);
    }
  }

  lemma {:induction false} WithoutAppend(list: seq<string>, id: string)
    requires id !in list
    ensures Without(list + [id], id) == list
    decreases |list|
  {
    var l := list + [id];
    if list == [] {
      assert l[1..] == [];
    } else {
      assert l[0] == list[0] != id;
      assert l[1..] == list[1..] + [id];
      WithoutAppend(list[1..], id);
      assert Without(l, id) == [list[0]] + Without(l[1..], id);
      assert list == [list[0]] + list[1..];
    }
  }

  /** Filtering keeps the order of the list: the filter of a concatenation is the
      concatenation of the filters. With the one-element case this pins the
      filtered list down completely. */
  lemma {:induction false} WithoutDistributes(a: seq<string>, b: seq<string>, id: string)
    ensures Without(a + b, id) == Without(a, id) + Without(b, id)
    decreases |a|
  {
    if a == [] {
      assert a + b == b;
    } else {
      assert (a + b)[1..] == a[1..] + b;
      WithoutDistributes(a[1..], b, id);
    }
  }

  // ---------------------------------------------------------------------------
  // Colour, price and continue

  const OCCUPIED_COLOR: string := "#cbd5e1"
  const SELECTED_COLOR: string := "#3b82f6"
  const BUSINESS_COLOR: string := "#8b5cf6"
  const PREMIUM_COLOR: string := "#f59e0b"
  const ECONOMY_COLOR: string := "#10b981"

  /** `getSeatColor`: status decides first, the cabin only for an available seat.
      Each colour names one status, and for an available seat one cabin. */
  function SeatColor(s: Seat): (c: string)
    ensures c == OCCUPIED_COLOR <==> s.status == Occupied
    ensures c == SELECTED_COLOR <==> s.status == Selected
    ensures c == BUSINESS_COLOR <==> s.status == Available && s.cabin == Business
    ensures c == PREMIUM_COLOR <==> s.status == Available && s.cabin == Premium
    ensures c == ECONOMY_COLOR <==> s.status == Available && s.cabin == Economy
  {
    if s.status == Occupied then OCCUPIED_COLOR
    else if s.status == Selected then SELECTED_COLOR
    else
      assert s.status == Available;
      match s.cabin
      case Business => BUSINESS_COLOR
      case Premium => PREMIUM_COLOR
      case Economy => ECONOMY_COLOR
  }

  /** The colour of an occupied or selected seat does not depend on its cabin, and
      the colour tells the status (and, for an available seat, the cabin). */
  lemma SeatColorStatusFirst(s: Seat, t: Seat, c: Cabin)
    ensures s.status != Available ==> SeatColor(s.(cabin := c)) == SeatColor(s)
    ensures SeatColor(s) == SeatColor(t) ==>
      s.status == t.status && (s.status == Available ==> s.cabin == t.cabin)
  {
  }

  function Charge(s: Seat): nat {
    if s.status == Selected then s.price else 0
  }

  /** `seats.filter(s => s.status === "selected").reduce((sum, s) => sum + s.price, 0)`. */
  function SelectedSum(seats: seq<Seat>): (r: nat)
    ensures forall i :: 0 <= i < |seats| ==> Charge(seats[i]) <= r
    ensures r == 0 <==> forall i :: 0 <= i < |seats| ==> Charge(seats[i]) == 0
    decreases |seats|
  {
    if seats == [] then 0 else Charge(seats[0]) + SelectedSum(seats[1..])
  }

  /** `totalPrice`. */
  function TotalPrice(seats: seq<Seat>): (t: nat)
    ensures t >= BASE_PRICE
    ensures t == BASE_PRICE <==> forall i :: 0 <= i < |seats| ==> seats[i].status != Selected || seats[i].price == 0
  {
    SelectedSum(seats) + BASE_PRICE
  }

  lemma {:induction false} SelectedSumUpdate(seats: seq<Seat>, k: nat, t: Seat)
    requires k < |seats|
    ensures SelectedSum(seats[k := t]) == SelectedSum(seats) - Charge(seats[k]) + Charge(t)
    decreases |seats|
  {
    if k > 0 {
      SelectedSumUpdate(seats[1..], k - 1, t);
      assert seats[k := t][1..] == seats[1..][k - 1 := t];
    }
  }

  lemma {:induction false} NothingSelectedSum(seats: seq<Seat>)
    requires forall i :: 0 <= i < |seats| ==> seats[i].status != Selected
    ensures SelectedSum(seats) == 0
    decreases |seats|
  {
    if seats != [] {
      NothingSelectedSum(seats[1..]);
    }
  }

  /** With nothing selected the total is the base fare; the page starts so. */
  lemma InitialTotalIsBase(occupied: (nat, char) -> bool)
    ensures TotalPrice(GenerateSeats(occupied)) == BASE_PRICE
  {
    NothingSelectedSum(GenerateSeats(occupied));
  }

  /** Selecting a seat adds its price to the total; deselecting takes it off. */
  lemma ClickAdjustsTotal(m: SeatMap, id: string)
    requires UniqueIds(m.seats)
    requires Find(m.seats, id).Some? && m.seats[Find(m.seats, id).value].status != Occupied
    ensures var s := m.seats[Find(m.seats, id).value];
      TotalPrice(Click(m, id).seats)
        == if s.status == Available then TotalPrice(m.seats) + s.price else TotalPrice(m.seats) - s.price
  {
    var k := Find(m.seats, id).value;
    ClickFlipsOneSeat(m, id);
    SelectedSumUpdate(m.seats, k, m.seats[k].(status := Flip(m.seats[k].status)));
  }

  /** The continue button: disabled while nothing is selected; otherwise it offers
      the selected seats and the total. */
  function Continue(m: SeatMap): (r: Option<(seq<string>, nat)>)
    ensures r.Some? <==> |m.selected| > 0
    ensures r.Some? ==> r.value.0 == m.selected && r.value.1 == TotalPrice(m.seats)
  {
    if |m.selected| > 0 then Some((m.selected, TotalPrice(m.seats))) else None
  }

  /** On a consistent page the button is enabled exactly when some seat is selected. */
  lemma ContinueIffSeatSelected(m: SeatMap)
    requires Consistent(m)
    ensures Continue(m).Some? <==> exists i :: 0 <= i < |m.seats| && m.seats[i].status == Selected
  {
    if |m.selected| > 0 {
      assert m.selected[0] in Elements(m.selected);
    }
    if exists i :: 0 <= i < |m.seats| && m.seats[i].status == Selected {
      var i :| 0 <= i < |m.seats| && m.seats[i].status == Selected;
      assert m.seats[i].id in SelectedIds(m.seats);
    }
  }
}
