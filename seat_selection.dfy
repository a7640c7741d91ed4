/**
 * The seat selection page: the seat list decoded from the seat endpoint, the selection a
 * visitor builds by clicking seats, the 30-minute countdown that clears it, the reserve
 * button, the total price and the `m:ss` timer text.
 */
module SeatSelection {
  import opened Wrappers
  import opened CinemaTypes
  import opened JsText
  import HallLayout

  /** Seconds a visitor has to reserve the seats picked. */
  const ReservationTime: int := 30 * 60

  /**
   * One element of the endpoint's `seats` array: in the server's shape, already in seat-map
   * shape, or not an object at all (`null`, a number, a string), on which the `in` test throws.
   */
  datatype RawSeat = ApiShaped(api: ApiSeat) | MapShaped(seat: Seat) | NotAnObject

  /**
   * The `data` of the seat endpoint's response: falsy, an object whose `seats` is an array,
   * an object whose `seats` is not an array, or a value without `seats`.
   */
  datatype SeatsPayload = NoData | SeatsArray(raw: seq<RawSeat>) | SeatsNotArray | WithoutSeats

  /** One seat: a server seat is free exactly when `is_available` holds and is otherwise sold. */
  function DecodeSeat(raw: RawSeat): (s: Seat)
    requires !raw.NotAnObject?
    ensures raw.ApiShaped? ==> s.row == raw.api.rowNumber && s.seat == raw.api.seatNumber
    ensures raw.ApiShaped? ==> s.status != Reserved
    ensures raw.ApiShaped? ==> (s.status == Available <==> raw.api.isAvailable)
    ensures raw.MapShaped? ==> s == raw.seat
  {
    match raw
    case ApiShaped(a) => Seat(a.rowNumber, a.seatNumber, if a.isAvailable then Available else Sold)
    case MapShaped(s) => s
  }

  /** Every element of the array is an object, so decoding it throws nowhere. */
  predicate AllObjects(raw: seq<RawSeat>) {
    forall i :: 0 <= i < |raw| ==> !raw[i].NotAnObject?
  }

  /**
   * The `seats` memo: the decoded array, element by element in order, or `[]` without one;
   * an element that is not an object throws, and the `catch` falls through to `[]`.
   */
  function DecodeSeats(payload: SeatsPayload): (seats: seq<Seat>)
    ensures payload.SeatsArray? && AllObjects(payload.raw) ==> |seats| == |payload.raw|
    ensures payload.SeatsArray? && AllObjects(payload.raw) ==>
              forall i :: 0 <= i < |seats| ==> seats[i] == DecodeSeat(payload.raw[i])
    ensures payload.SeatsArray? && !AllObjects(payload.raw) ==> seats == []
    ensures !payload.SeatsArray? ==> seats == []
  {
    match payload
    case SeatsArray(raw) =>
      if AllObjects(raw) then seq(|raw|, i requires 0 <= i < |raw| => DecodeSeat(raw[i])) else []
    case _ => []
  }

  /** A decoded server seat list never shows a reserved seat. */
  lemma DecodedServerSeatsNeverReserved(raw: seq<ApiSeat>, i: int)
    requires 0 <= i < |raw|
    ensures DecodeSeats(SeatsArray(seq(|raw|, k requires 0 <= k < |raw| => ApiShaped(raw[k]))))[i].status != Reserved
  {
  }

  /** No two entries of the selection are at the same position. */
  predicate NoDuplicatePositions(sel: seq<Seat>) {
    forall i, j :: 0 <= i < j < |sel| ==> !IsAt(sel[i], sel[j].row, sel[j].seat)
  }

  /** What the selection holds at all times: free seats, each position at most once. */
  predicate WellFormedSelection(sel: seq<Seat>) {
    && (forall i :: 0 <= i < |sel| ==> sel[i].status == Available)
    && NoDuplicatePositions(sel)
  }

  /** The click guard: the seat list has an entry at that position and it is not free. */
  predicate SeatTaken(seats: seq<Seat>, row: int, seat: int) {
    var found := FindSeat(seats, row, seat);
    found.Some? && found.value.status != Available
  }

  /** The `setSelectedSeats` updater of a click: append an unselected seat as free, or drop the selected one. */
  function Toggle(prev: seq<Seat>, row: int, seat: int): (next: seq<Seat>)
    ensures !HallLayout.IsSeatSelected(prev, row, seat) ==> next == prev + [Seat(row, seat, Available)]
    ensures HallLayout.IsSeatSelected(prev, row, seat) ==>
              exists i :: && 0 <= i < |prev| && IsAt(prev[i], row, seat)
                          && (forall j :: 0 <= j < i ==> !IsAt(prev[j], row, seat))
                          && next == prev[..i] + prev[i + 1..]
  {
    var i := PositionIndex(prev, row, seat);
    if i == -1 then prev + [Seat(row, seat, Available)] else prev[..i] + prev[i + 1..]
  }

  /** A click flips whether the clicked seat is selected and leaves every other position as it was. */
  lemma ToggleFlipsOnlyTheClickedSeat(prev: seq<Seat>, row: int, seat: int, r: int, s: int)
    requires NoDuplicatePositions(prev)
    ensures HallLayout.IsSeatSelected(Toggle(prev, row, seat), r, s) <==>
              if r == row && s == seat then !HallLayout.IsSeatSelected(prev, row, seat)
              else HallLayout.IsSeatSelected(prev, r, s)
  {
    var next := Toggle(prev, row, seat);
    var i := PositionIndex(prev, row, seat);
    if i == -1 {
      assert next[|prev|] == Seat(row, seat, Available);
      if HallLayout.IsSeatSelected(prev, r, s) {
        var k := PositionIndex(prev, r, s);
        assert next[k] == prev[k];
      }
    } else {
      if r == row && s == seat {
        forall k | 0 <= k < |next| ensures !IsAt(next[k], r, s) {
          if k < i { assert next[k] == prev[k]; } else { assert next[k] == prev[k + 1]; }
        }
      } else if HallLayout.IsSeatSelected(prev, r, s) {
        var k := PositionIndex(prev, r, s);
        assert k != i;
        if k < i { assert next[k] == prev[k]; } else { assert next[k - 1] == prev[k]; }
      } else {
        forall k | 0 <= k < |next| ensures !IsAt(next[k], r, s) {
          if k < i { assert next[k] == prev[k]; } else { assert next[k] == prev[k + 1]; }
        }
      }
    }
  }

  /** Every click keeps the selection well formed: free seats only, no position twice. */
  lemma ToggleKeepsWellFormed(prev: seq<Seat>, row: int, seat: int)
    requires WellFormedSelection(prev)
    ensures WellFormedSelection(Toggle(prev, row, seat))
  {
    var next := Toggle(prev, row, seat);
    var i := PositionIndex(prev, row, seat);
    if i != -1 {
      forall a, b | 0 <= a < b < |next| ensures !IsAt(next[a], next[b].row, next[b].seat) {
        var a' := if a < i then a else a + 1;
        var b' := if b < i then b else b + 1;
        assert next[a] == prev[a'] && next[b] == prev[b'];
      }
    }
  }

  /** Clicking an unselected seat twice gives the selection back unchanged. */
  lemma ToggleTwiceRestores(prev: seq<Seat>, row: int, seat: int)
    requires !HallLayout.IsSeatSelected(prev, row, seat)
    ensures Toggle(Toggle(prev, row, seat), row, seat) == prev
  {
    var once := Toggle(prev, row, seat);
    assert IsAt(once[|prev|], row, seat);
    var j := PositionIndex(once, row, seat);
    assert j == |prev|;
    assert once[..j] == prev;
  }

  /** Clicking a selected seat twice keeps the same seats but moves that one to the end. */
  lemma ToggleTwiceMovesToEnd(prev: seq<Seat>, row: int, seat: int)
    requires WellFormedSelection(prev) && HallLayout.IsSeatSelected(prev, row, seat)
    ensures exists i :: 0 <= i < |prev| && IsAt(prev[i], row, seat)
                        && Toggle(Toggle(prev, row, seat), row, seat) == prev[..i] + prev[i + 1..] + [prev[i]]
  {
    var i := PositionIndex(prev, row, seat);
    var once := Toggle(prev, row, seat);
    assert once == prev[..i] + prev[i + 1..];
    ToggleFlipsOnlyTheClickedSeat(prev, row, seat, row, seat);
    assert prev[i] == Seat(row, seat, Available);
  }

  /** The countdown updater: one second less, or 0 once the time is up. */
  function NextTimeLeft(prev: int): (next: int)
    ensures next >= 0
    ensures prev > 0 ==> next == prev - 1
    ensures prev <= 0 ==> next == 0
  {
    if prev <= 0 then 0 else prev - 1
  }

  /** The time left after `k` ticks starting from `t`. */
  function TimeAfterTicks(t: int, k: nat): int {
    if k == 0 then t else NextTimeLeft(TimeAfterTicks(t, k - 1))
  }

  /** From a non-negative start `t`, `k` ticks leave `max(t - k, 0)` seconds. */
  lemma {:induction false} TimeAfterTicksIs(t: nat, k: nat)
    ensures TimeAfterTicks(t, k) == Max(t - k, 0)
  {
    if k > 0 {
      TimeAfterTicksIs(t, k - 1);
    }
  }

  /** A full reservation window lasts exactly `ReservationTime` ticks; the next tick is the expiring one. */
  lemma ReservationWindowLength(k: nat)
    ensures k < ReservationTime ==> TimeAfterTicks(ReservationTime, k) > 0
    ensures TimeAfterTicks(ReservationTime, ReservationTime) == 0
  {
    TimeAfterTicksIs(ReservationTime, k);
    TimeAfterTicksIs(ReservationTime, ReservationTime);
  }

  /** `selectedSeats.length * (session.price || 0)`. */
  function TotalPrice(selected: seq<Seat>, price: Option<int>): (total: int)
    ensures TruthyInt(price) ==> total == |selected| * price.value
    ensures !TruthyInt(price) ==> total == 0
  {
    |selected| * (if TruthyInt(price) then price.value else 0)
  }

  /** Each click adds or removes exactly one seat's price. */
  lemma TotalPriceFollowsToggle(prev: seq<Seat>, row: int, seat: int, price: int)
    ensures TotalPrice(Toggle(prev, row, seat), Some(price)) ==
            TotalPrice(prev, Some(price)) + (if HallLayout.IsSeatSelected(prev, row, seat) then -price else price)
  {
    var next := Toggle(prev, row, seat);
    if HallLayout.IsSeatSelected(prev, row, seat) {
      assert |next| == |prev| - 1;
      assert |next| * price == |prev| * price - price;
    } else {
      assert |next| * price == |prev| * price + price;
    }
  }

  /** `formatTime`: minutes, a colon, and the seconds padded to two digits. */
  function FormatTime(seconds: int): (text: string)
    ensures |text| >= 4
  {
    IntToString(FloorDiv(seconds, 60)) + ":" + PadStart(IntToString(Remainder(seconds, 60)), 2, '0')
  }

  /** Reads an `m:ss` timer text back into seconds. */
  function ParseTime(text: string): Option<int> {
    var parts := Split(text, ':');
    if |parts| != 2 then None
    else
      var m, ss := parts[0], parts[1];
      if m == "" || !AllDigits(m) || |ss| != 2 || !AllDigits(ss) || ParseDigits(ss) >= 60 then None
      else Some(ParseDigits(m) * 60 + ParseDigits(ss))
  }

  /** The seconds part of the timer text: two digits that read back to the seconds. */
  lemma TwoDigitSeconds(r: nat)
    requires r < 60
    ensures |PadStart(NatToString(r), 2, '0')| == 2
    ensures AllDigits(PadStart(NatToString(r), 2, '0'))
    ensures ParseDigits(PadStart(NatToString(r), 2, '0')) == r
  {
    var rs := NatToString(r);
    var ss := PadStart(rs, 2, '0');
    if r < 10 {
      assert ss == ['0', DigitChar(r)];
      assert ss[..1] == ['0'];
      assert ParseDigits(['0']) == 0 by {
        assert ['0'][..0] == [];
      }
    } else {
      assert rs == NatToString(r / 10) + [DigitChar(r % 10)];
      assert |rs| == 2;
      assert ss == rs;
      ParseNatToString(r);
    }
  }

  /** A well-formed `m:ss` text reads as `m * 60 + ss`. */
  lemma ParseWellFormedTime(m: string, ss: string)
    requires m != [] && AllDigits(m) && |ss| == 2 && AllDigits(ss) && ParseDigits(ss) < 60
    ensures ParseTime(m + [':'] + ss) == Some(ParseDigits(m) * 60 + ParseDigits(ss))
  {
    assert ':' !in m && ':' !in ss;
    SplitAround(m, ss, ':');
  }

  /** For a non-negative time the timer text is `m:ss` and reads back to the time. */
  lemma FormatTimeRoundTrip(seconds: nat)
    ensures ParseTime(FormatTime(seconds)) == Some(seconds)
  {
    var m := NatToString(seconds / 60);
    var ss := PadStart(NatToString(seconds % 60), 2, '0');
    assert FloorDiv(seconds, 60) == seconds / 60;
    assert Remainder(seconds, 60) == seconds % 60;
    assert FormatTime(seconds) == m + [':'] + ss;
    TwoDigitSeconds(seconds % 60);
    ParseNatToString(seconds / 60);
    ParseWellFormedTime(m, ss);
  }

  /** The page's selection and countdown, updated by seat clicks and by the one-second interval. */
  class SeatSelectionPage {
    var selectedSeats: seq<Seat>
    var timeLeft: int

    ghost predicate Valid()
      reads this
    {
      0 <= timeLeft <= ReservationTime && WellFormedSelection(selectedSeats)
    }

    constructor ()
      ensures Valid()
      ensures selectedSeats == [] && timeLeft == ReservationTime
    {
      selectedSeats := [];
      timeLeft := ReservationTime;
    }

    /** `handleSeatSelect`: refuse a taken seat, otherwise toggle it; the countdown is not touched. */
    method SelectSeat(seats: seq<Seat>, row: int, seat: int) returns (refused: bool)
      requires Valid()
      modifies this
      ensures Valid()
      ensures refused <==> SeatTaken(seats, row, seat)
      ensures selectedSeats == if refused then old(selectedSeats) else Toggle(old(selectedSeats), row, seat)
      ensures timeLeft == old(timeLeft)
    {
      refused := SeatTaken(seats, row, seat);
      if !refused {
        ToggleKeepsWellFormed(selectedSeats, row, seat);
        selectedSeats := Toggle(selectedSeats, row, seat);
      }
    }

    /**
     * One second of the interval. The interval only runs while seats are selected; a tick at
     * zero clears the selection (the expiry warning), any other tick takes one second off.
     */
    method Tick() returns (expired: bool)
      requires Valid()
      modifies this
      ensures Valid()
      ensures timeLeft <= old(timeLeft)
      ensures old(selectedSeats) == [] ==> !expired && selectedSeats == [] && timeLeft == old(timeLeft)
      ensures old(selectedSeats) != [] ==> expired == (old(timeLeft) <= 0)
      ensures old(selectedSeats) != [] ==> timeLeft == NextTimeLeft(old(timeLeft))
      ensures selectedSeats == if expired then [] else old(selectedSeats)
    {
      expired := false;
      if selectedSeats != [] {
        expired := timeLeft <= 0;
        timeLeft := NextTimeLeft(timeLeft);
        if expired {
          selectedSeats := [];
        }
      }
    }

    /** `handleReserve`: nothing is sent for an empty selection, else one request per selected seat, in order. */
    function ReserveRequests(): (requests: Option<seq<(int, int)>>)
      reads this
      ensures requests.None? <==> selectedSeats == []
      ensures requests.Some? ==> |requests.value| == |selectedSeats|
      ensures requests.Some? ==> forall i :: 0 <= i < |selectedSeats| ==>
                requests.value[i] == (selectedSeats[i].row, selectedSeats[i].seat)
    {
      if selectedSeats == [] then None
      else Some(seq(|selectedSeats|, i requires 0 <= i < |selectedSeats| reads this => (selectedSeats[i].row, selectedSeats[i].seat)))
    }

    /** The reserve button is disabled with nothing selected or with no time left. */
    predicate ReserveDisabled()
      reads this
      ensures ReserveDisabled() <==> ReserveRequests().None? || timeLeft == 0
    {
      |selectedSeats| == 0 || timeLeft == 0
    }
  }
}
