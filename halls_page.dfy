/**
 * The admin halls page: the hall and session lists, the sessions of one hall, the
 * "total seats" column, the hall preview (a seat map of a chosen session, or an empty
 * default grid), its occupancy counts, and the create/edit form.
 */
module HallsPage {
  import opened Wrappers
  import opened CinemaTypes
  import opened JsText
  import opened Collections
  import opened ApiShapes
  import opened Arithmetic
  import HallLayout

  /** `session.hall?.id === hallId`: only the embedded hall object is consulted, not `hall_id`. */
  predicate InHall(hallId: int, s: Session) {
    s.hall.Some? && s.hall.value.id == hallId
  }

  function HallMatcher(hallId: int): Session -> bool {
    s => InHall(hallId, s)
  }

  /** `getSessionsByHall`: the sessions of one hall, in list order. */
  function SessionsByHall(sessions: seq<Session>, hallId: int): (r: seq<Session>)
    ensures |r| <= |sessions|
    ensures forall i :: 0 <= i < |r| ==> r[i] in sessions && r[i].hall.Some? && r[i].hall.value.id == hallId
    ensures forall i :: 0 <= i < |sessions| && sessions[i].hall.Some? && sessions[i].hall.value.id == hallId ==>
              sessions[i] in r
  {
    Filter(sessions, HallMatcher(hallId))
  }

  /** The per-hall list never reorders: it distributes over concatenation of the session list. */
  lemma SessionsByHallKeepsOrder(a: seq<Session>, b: seq<Session>, hallId: int)
    ensures SessionsByHall(a + b, hallId) == SessionsByHall(a, hallId) + SessionsByHall(b, hallId)
  {
    FilterConcat(a, b, HallMatcher(hallId));
  }

  /** Two different halls never share a session, and a session without an embedded hall is in no hall's list. */
  lemma SessionsByHallDisjoint(sessions: seq<Session>, h1: int, h2: int, s: Session)
    requires h1 != h2
    ensures !(s in SessionsByHall(sessions, h1) && s in SessionsByHall(sessions, h2))
    ensures s.hall.None? ==> s !in SessionsByHall(sessions, h1)
  {
  }

  /** The "total seats" column. */
  function TotalSeats(hall: Hall): (n: int)
    ensures hall.rows >= 0 && hall.seatsPerRow >= 0 ==> n >= 0
    ensures hall.rows == 0 || hall.seatsPerRow == 0 ==> n == 0
  {
    hall.rows * hall.seatsPerRow
  }

  /** The preview's status of a server seat: unavailable seats are split into reserved and sold by `(row + seat) % 3`. */
  function PreviewDecode(api: ApiSeat): (s: Seat)
    ensures s.row == api.rowNumber && s.seat == api.seatNumber
    ensures s.status == Available <==> api.isAvailable
    ensures s.status == Reserved <==> !api.isAvailable && (api.rowNumber + api.seatNumber) % 3 == 0
  {
    var sum := api.rowNumber + api.seatNumber;
    assert Remainder(sum, 3) == 0 <==> sum % 3 == 0 by {
      DivisibleNegated(sum, 3);
    }
    Seat(api.rowNumber, api.seatNumber,
         if api.isAvailable then Available else if Remainder(sum, 3) == 0 then Reserved else Sold)
  }

  /** The one seat of the default grid at index `i`. */
  function GridSeat(i: int, seatsPerRow: int): Seat
    requires seatsPerRow != 0
  {
    Seat(FloorDiv(i, seatsPerRow) + 1, Remainder(i, seatsPerRow) + 1, Available)
  }

  /** The preview without a session: `rows * seats_per_row` free seats (none for a non-positive product). */
  function DefaultGrid(hall: Hall): (grid: seq<Seat>)
    ensures |grid| == Max(hall.rows * hall.seatsPerRow, 0)
    ensures forall i :: 0 <= i < |grid| ==> grid[i].status == Available
  {
    var n := Max(hall.rows * hall.seatsPerRow, 0);
    seq(n, i requires 0 <= i < n => assert hall.seatsPerRow != 0; GridSeat(i, hall.seatsPerRow))
  }

  /** For a hall with positive dimensions, "total seats" is the size of the default grid and of the rendered map. */
  lemma TotalSeatsMatchesGrid(hall: Hall)
    requires hall.rows >= 0 && hall.seatsPerRow >= 0
    ensures TotalSeats(hall) == |DefaultGrid(hall)| == |HallLayout.LayoutCells(hall)|
  {
    assert hall.rows * hall.seatsPerRow >= 0;
  }

  /** A positive product with a positive factor has a positive other factor. */
  lemma PositiveCofactor(a: int, m: int)
    requires m >= 1 && a * m > 0
    ensures a >= 1
  {
  }

  /** The default grid is row-major and lists, index by index, the cells the seat map renders. */
  lemma DefaultGridRowMajor(hall: Hall, i: int)
    requires hall.seatsPerRow >= 1 && 0 <= i < |DefaultGrid(hall)|
    ensures DefaultGrid(hall)[i].row == i / hall.seatsPerRow + 1
    ensures DefaultGrid(hall)[i].seat == i % hall.seatsPerRow + 1
    ensures 1 <= DefaultGrid(hall)[i].row <= hall.rows && 1 <= DefaultGrid(hall)[i].seat <= hall.seatsPerRow
    ensures (DefaultGrid(hall)[i].row, DefaultGrid(hall)[i].seat) == HallLayout.LayoutCells(hall)[i]
  {
    var m := hall.seatsPerRow;
    PositiveCofactor(hall.rows, m);
    TotalSeatsMatchesGrid(hall);
    assert DefaultGrid(hall)[i] == GridSeat(i, m);
    HallLayout.LayoutCellsRowMajor(hall, i);
  }

  /** Row `r`, seat `s` sits at index `(r - 1) * spr + (s - 1)` of a `rows * spr` grid. */
  lemma CellIndexInRange(rows: int, m: int, r: int, s: int)
    requires 1 <= r <= rows && 1 <= s <= m
    ensures 0 <= (r - 1) * m + (s - 1) < rows * m
    ensures ((r - 1) * m + (s - 1)) / m == r - 1 && ((r - 1) * m + (s - 1)) % m == s - 1
  {
    var k := (r - 1) * m + (s - 1);
    assert (rows - r) * m >= 0;
    assert rows * m == (r - 1) * m + m + (rows - r) * m;
    assert 0 <= (r - 1) * m;
    DivModUnique(k, m, r - 1, s - 1);
  }

  /** Every cell `(r, s)` of the hall appears in the default grid exactly once, at index `(r - 1) * spr + (s - 1)`. */
  lemma DefaultGridCoversEachCellOnce(hall: Hall, r: int, s: int)
    requires 1 <= r <= hall.rows && 1 <= s <= hall.seatsPerRow
    ensures var k := (r - 1) * hall.seatsPerRow + (s - 1);
            0 <= k < |DefaultGrid(hall)| && IsAt(DefaultGrid(hall)[k], r, s)
    ensures forall j :: 0 <= j < |DefaultGrid(hall)| && IsAt(DefaultGrid(hall)[j], r, s) ==>
              j == (r - 1) * hall.seatsPerRow + (s - 1)
  {
    var m := hall.seatsPerRow;
    var k := (r - 1) * m + (s - 1);
    CellIndexInRange(hall.rows, m, r, s);
    DefaultGridRowMajor(hall, k);
    forall j | 0 <= j < |DefaultGrid(hall)| && IsAt(DefaultGrid(hall)[j], r, s)
      ensures j == k
    {
      GridIndexDeterminedByCell(hall, j);
    }
  }

  lemma GridIndexDeterminedByCell(hall: Hall, j: int)
    requires hall.seatsPerRow >= 1 && 0 <= j < |DefaultGrid(hall)|
    ensures j == (DefaultGrid(hall)[j].row - 1) * hall.seatsPerRow + (DefaultGrid(hall)[j].seat - 1)
  {
    DefaultGridRowMajor(hall, j);
    var m := hall.seatsPerRow;
    assert j == (j / m) * m + j % m;
  }

  /** Which session the preview of a hall is showing, as the select sets it. */
  datatype PreviewSelection = PreviewSelection(hallId: int, sessionId: Option<int>)

  /** The preview shows a session's seats when this hall's select holds a truthy session id. */
  predicate ShowsSession(hall: Hall, selection: Option<PreviewSelection>) {
    selection.Some? && selection.value.hallId == hall.id && TruthyInt(selection.value.sessionId)
  }

  /**
   * The seats the preview passes to the seat map: the decoded `seatsData.data.seats` when
   * a session of this hall is chosen (none while it is absent), otherwise the default grid.
   */
  function PreviewSeats(hall: Hall, selection: Option<PreviewSelection>, seatsField: Option<seq<ApiSeat>>): (seats: seq<Seat>)
    ensures !ShowsSession(hall, selection) ==> seats == DefaultGrid(hall)
    ensures ShowsSession(hall, selection) && seatsField.None? ==> seats == []
    ensures ShowsSession(hall, selection) && seatsField.Some? ==>
              |seats| == |seatsField.value| &&
              forall i :: 0 <= i < |seats| ==> seats[i] == PreviewDecode(seatsField.value[i])
  {
    if ShowsSession(hall, selection) then
      if seatsField.Some? then
        seq(|seatsField.value|, i requires 0 <= i < |seatsField.value| => PreviewDecode(seatsField.value[i]))
      else []
    else DefaultGrid(hall)
  }

  predicate IsFree(s: Seat) { s.status == Available }
  predicate IsReserved(s: Seat) { s.status == Reserved }
  predicate IsSold(s: Seat) { s.status == Sold }

  /** The occupancy line: free, reserved and sold counts. */
  function Occupancy(seats: seq<Seat>): (counts: (nat, nat, nat))
    ensures counts.0 <= |seats| && counts.1 <= |seats| && counts.2 <= |seats|
  {
    (Count(seats, IsFree), Count(seats, IsReserved), Count(seats, IsSold))
  }

  /** The three counts partition the seat list. */
  lemma {:induction false} OccupancyPartitions(seats: seq<Seat>)
    ensures Occupancy(seats).0 + Occupancy(seats).1 + Occupancy(seats).2 == |seats|
  {
    if seats != [] {
      OccupancyPartitions(seats[1..]);
      assert Filter(seats, IsFree) == (if IsFree(seats[0]) then [seats[0]] else []) + Filter(seats[1..], IsFree);
      assert Filter(seats, IsReserved) == (if IsReserved(seats[0]) then [seats[0]] else []) + Filter(seats[1..], IsReserved);
      assert Filter(seats, IsSold) == (if IsSold(seats[0]) then [seats[0]] else []) + Filter(seats[1..], IsSold);
    }
  }

  /** Without a chosen session the seat map shows every seat of the hall as free. */
  lemma DefaultPreviewIsAllFree(hall: Hall, selection: Option<PreviewSelection>, seatsField: Option<seq<ApiSeat>>, r: int, s: int)
    requires !ShowsSession(hall, selection)
    requires 1 <= r <= hall.rows && 1 <= s <= hall.seatsPerRow
    ensures HallLayout.SeatAvailability(PreviewSeats(hall, selection, seatsField), r, s)
  {
    var grid := DefaultGrid(hall);
    DefaultGridCoversEachCellOnce(hall, r, s);
    var k := (r - 1) * hall.seatsPerRow + (s - 1);
    assert IsAt(grid[k], r, s);
    var found := FindSeat(grid, r, s);
    assert found.Some? && found.value.status == Available;
  }

  /** The hall form as submitted: absent fields are `None`. */
  datatype HallFormValues = HallFormValues(name: Option<string>, rows: Option<int>, seatsPerRow: Option<int>)

  /** The form's messages, field by field: a missing value is "required", a present one below 1 is "minimum". */
  function HallFormErrors(v: HallFormValues): (errors: seq<string>)
    ensures errors == [] <==>
              (v.name.Some? && v.name.value != "" && v.rows.Some? && v.rows.value >= 1
               && v.seatsPerRow.Some? && v.seatsPerRow.value >= 1)
    ensures |errors| <= 3
  {
    (if v.name.None? || v.name.value == "" then ["Введите название зала"] else [])
    + (if v.rows.None? then ["Введите количество рядов"] else if v.rows.value < 1 then ["Минимум 1 ряд"] else [])
    + (if v.seatsPerRow.None? then ["Введите количество мест в ряду"]
       else if v.seatsPerRow.value < 1 then ["Минимум 1 место"] else [])
  }

  /** `handleSubmit`: nothing when validation fails; otherwise update the edited hall, or create one. */
  function HallSubmit(editing: Option<Hall>, v: HallFormValues): (m: Option<Mutation<HallFormValues>>)
    ensures m.Some? <==> HallFormErrors(v) == []
    ensures m.Some? ==> m.value.values == v
    ensures m.Some? ==> (m.value.Update? <==> editing.Some?)
    ensures m.Some? && editing.Some? ==> m.value.id == editing.value.id
  {
    if HallFormErrors(v) == [] then Some(SubmitMutation(if editing.Some? then Some(editing.value.id) else None, v))
    else None
  }

  /** A hall the form accepts has at least one seat and a default grid of exactly `rows * seats_per_row` free seats. */
  lemma AcceptedHallHasSeats(editing: Option<Hall>, v: HallFormValues, id: int)
    requires HallSubmit(editing, v).Some?
    ensures var hall := Hall(id, v.name.value, v.rows.value, v.seatsPerRow.value);
            TotalSeats(hall) >= 1 && |DefaultGrid(hall)| == TotalSeats(hall)
  {
    var hall := Hall(id, v.name.value, v.rows.value, v.seatsPerRow.value);
    MulAtLeast(hall.rows, hall.seatsPerRow);
    TotalSeatsMatchesGrid(hall);
  }
}
