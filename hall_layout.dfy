/**
 * The seat map of a hall: rows 1..rows, each with seats 1..seatsPerRow, one button per
 * cell, with availability and selection looked up in the seat lists it is given.
 */
module HallLayout {
  import opened Wrappers
  import opened CinemaTypes
  import opened JsText
  import opened SeatButton
  import opened Arithmetic

  /** `getSeatAvailability`: the first entry at that position is free; false when there is none. */
  function SeatAvailability(seats: seq<Seat>, row: int, seat: int): (available: bool)
    ensures available <==> exists i :: 0 <= i < |seats| && IsAt(seats[i], row, seat)
                                       && seats[i].status == Available
                                       && forall j :: 0 <= j < i ==> !IsAt(seats[j], row, seat)
    ensures (forall i :: 0 <= i < |seats| ==> !IsAt(seats[i], row, seat)) ==> !available
  {
    match FindSeat(seats, row, seat)
    case Some(s) => s.status == Available
    case None => false
  }

  /** `isSeatSelected`: some selected entry is at that position, exactly when `findIndex` finds one. */
  function IsSeatSelected(selected: seq<Seat>, row: int, seat: int): (r: bool)
    ensures r <==> PositionIndex(selected, row, seat) >= 0
  {
    exists i | 0 <= i < |selected| :: IsAt(selected[i], row, seat)
  }

  /** `Array.from({ length: n }, (_, i) => i + 1)`: the numbers 1..n in increasing order. */
  function OneTo(n: int): (r: seq<int>)
    ensures |r| == Max(n, 0)
    ensures forall i :: 0 <= i < |r| ==> r[i] == i + 1
    ensures forall k :: k in r ==> 1 <= k <= n
  {
    seq(Max(n, 0), i => i + 1)
  }

  /** Every number from 1 to n is rendered. */
  lemma OneToCovers(n: int, k: int)
    requires 1 <= k <= n
    ensures k in OneTo(n)
  {
    assert OneTo(n)[k - 1] == k;
  }

  /** The cells of one row, left to right. */
  function RowCells(row: int, seatNumbers: seq<int>): (cells: seq<(int, int)>)
    ensures |cells| == |seatNumbers|
    ensures forall k :: 0 <= k < |cells| ==> cells[k] == (row, seatNumbers[k])
  {
    seq(|seatNumbers|, k requires 0 <= k < |seatNumbers| => (row, seatNumbers[k]))
  }

  /** The cells of the given rows, top to bottom. */
  function Cells(rowNumbers: seq<int>, seatNumbers: seq<int>): (cells: seq<(int, int)>)
    ensures |cells| == |rowNumbers| * |seatNumbers|
  {
    if rowNumbers == [] then []
    else RowCells(rowNumbers[0], seatNumbers) + Cells(rowNumbers[1..], seatNumbers)
  }

  /** The (row, seat) of every button the layout renders, in rendering order. */
  function LayoutCells(hall: Hall): (cells: seq<(int, int)>)
    ensures |cells| == Max(hall.rows, 0) * Max(hall.seatsPerRow, 0)
  {
    Cells(OneTo(hall.rows), OneTo(hall.seatsPerRow))
  }

  lemma {:induction false} CellsAt(rowNumbers: seq<int>, seatNumbers: seq<int>, k: int)
    requires |seatNumbers| > 0 && 0 <= k < |rowNumbers| * |seatNumbers|
    ensures 0 <= k / |seatNumbers| < |rowNumbers|
    ensures Cells(rowNumbers, seatNumbers)[k] == (rowNumbers[k / |seatNumbers|], seatNumbers[k % |seatNumbers|])
  {
    var m := |seatNumbers|;
    var first := RowCells(rowNumbers[0], seatNumbers);
    var rest := rowNumbers[1..];
    var tail := Cells(rest, seatNumbers);
    assert Cells(rowNumbers, seatNumbers) == first + tail;
    if k < m {
      DivModUnique(k, m, 0, k);
    } else {
      ShiftRow(k, m, |rest|);
      CellsAt(rest, seatNumbers, k - m);
      assert tail[k - m] == (rest[(k - m) / m], seatNumbers[(k - m) % m]);
    }
  }

  /** The layout renders row-major: cell k is row k div seatsPerRow + 1, seat k mod seatsPerRow + 1. */
  lemma LayoutCellsRowMajor(hall: Hall, k: int)
    requires 0 <= k < |LayoutCells(hall)|
    ensures hall.seatsPerRow > 0 && hall.rows > 0
    ensures LayoutCells(hall)[k] == (k / hall.seatsPerRow + 1, k % hall.seatsPerRow + 1)
    ensures k / hall.seatsPerRow < hall.rows
  {
    var rs := OneTo(hall.rows);
    var ss := OneTo(hall.seatsPerRow);
    assert |rs| > 0 && |ss| > 0;
    CellsAt(rs, ss, k);
  }

  /** The React key of a cell, `${row}-${seat}`. */
  function CellKey(row: int, seat: int): (key: string)
    ensures row >= 0 ==> |key| > |NatToString(row)| && '-' !in NatToString(row)
    ensures row >= 0 ==> key[..|NatToString(row)|] == NatToString(row) && key[|NatToString(row)|] == '-'
  {
    IntToString(row) + "-" + IntToString(seat)
  }

  /** Keys of cells with non-negative row and seat numbers are pairwise distinct. */
  lemma CellKeysDistinct(r1: nat, s1: nat, r2: nat, s2: nat)
    requires CellKey(r1, s1) == CellKey(r2, s2)
    ensures r1 == r2 && s1 == s2
  {
    var a, b, c, d := IntToString(r1), IntToString(s1), IntToString(r2), IntToString(s2);
    assert '-' !in a && '-' !in c;
    assert CellKey(r1, s1) == a + ['-'] + b && CellKey(r2, s2) == c + ['-'] + d;
    SeparatedPairInjective(a, b, c, d, '-');
    NatToStringInjective(r1, r2);
    NatToStringInjective(s1, s2);
  }

  /**
   * The props each cell's seat button receives, as the layout passes them: availability is
   * passed as `is_available`, a prop the button does not read, so the button gets no status.
   */
  function CellProps(seats: seq<Seat>, selected: seq<Seat>, row: int, seat: int): (p: SeatProps)
    ensures p.row == row && p.seat == seat
    ensures p.isSelected == IsSeatSelected(selected, row, seat)
  {
    var _ := SeatAvailability(seats, row, seat);
    SeatProps(row, seat, None, IsSeatSelected(selected, row, seat))
  }

  /** As written, every cell is an enabled, unhighlighted button whose click selects it. */
  lemma EveryCellIsEnabled(seats: seq<Seat>, selected: seq<Seat>, row: int, seat: int)
    ensures !Render(CellProps(seats, selected, row, seat)).disabled
    ensures Render(CellProps(seats, selected, row, seat)).click == Some((row, seat))
    ensures Render(CellProps(seats, selected, row, seat)).props == ButtonProps(Default, false, None)
  {
  }

  /** A concrete case: a sold seat 1/1 renders as a clickable button, even when it is the only seat. */
  lemma SoldSeatCellIsClickable()
    ensures var v := Render(CellProps([Seat(1, 1, Sold)], [], 1, 1));
            !v.disabled && v.click == Some((1, 1)) && !v.props.danger
  {
  }

  /** The status the layout evidently meant to hand to the button: that of the first entry at the position. */
  function CellPropsIntended(seats: seq<Seat>, selected: seq<Seat>, row: int, seat: int): (p: SeatProps)
    ensures p.row == row && p.seat == seat
    ensures p.isSelected == IsSeatSelected(selected, row, seat)
  {
    var found := FindSeat(seats, row, seat);
    SeatProps(row, seat, if found.Some? then Some(found.value.status) else None, IsSeatSelected(selected, row, seat))
  }

  /**
   * With the status passed, a cell is disabled exactly when the first entry at its position is
   * sold or reserved, a free selected seat is highlighted, and a click selects only enabled cells.
   */
  lemma IntendedCellReflectsStatus(seats: seq<Seat>, selected: seq<Seat>, row: int, seat: int)
    ensures var v := Render(CellPropsIntended(seats, selected, row, seat));
            var found := FindSeat(seats, row, seat);
            && (v.disabled <==> found.Some? && found.value.status != Available)
            && (v.click.Some? <==> !v.disabled)
            && (v.props.kind == Primary <==> SeatAvailability(seats, row, seat) && IsSeatSelected(selected, row, seat))
  {
  }
}
