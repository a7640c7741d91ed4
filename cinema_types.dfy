/**
 * The records the client exchanges with the cinema server (users, movies, halls,
 * sessions, seats and tickets), and the seat lookups shared by the seat map and the
 * seat selection page.
 */
module CinemaTypes {
  import opened Wrappers

  datatype User = User(id: int, email: string, name: string, role: string)

  /**
   * A movie. `director`, `durationMinutes`, `duration` and `rating` may be absent in what the
   * server sends, so they are optional here.
   */
  datatype Movie = Movie(
    id: int,
    title: string,
    description: string,
    director: Option<string>,
    durationMinutes: Option<int>,
    duration: Option<int>,
    genre: string,
    releaseYear: int,
    posterUrl: string,
    isActive: bool,
    rating: Option<int>)

  datatype Hall = Hall(id: int, name: string, rows: int, seatsPerRow: int)

  /** A session; `price` is optional because the pages read it with a `|| 0` fallback. */
  datatype Session = Session(
    id: int,
    movieId: int,
    hallId: int,
    startTime: string,
    endTime: string,
    price: Option<int>,
    movie: Option<Movie>,
    hall: Option<Hall>)

  datatype SeatStatus = Available | Reserved | Sold

  /** A seat of the seat map: 1-based row and seat number and its status. */
  datatype Seat = Seat(row: int, seat: int, status: SeatStatus)

  /** A seat as the server's seat endpoint sends it. */
  datatype ApiSeat = ApiSeat(rowNumber: int, seatNumber: int, isAvailable: bool)

  /**
   * A ticket. The status is kept as the string the server sent ("reserved", "paid",
   * "cancelled", "expired" or anything else), because the pages compare it as a string.
   */
  datatype Ticket = Ticket(
    id: int,
    sessionId: int,
    userId: int,
    row: int,
    seat: int,
    status: string,
    price: int,
    reservedUntil: Option<string>,
    paidAt: Option<string>,
    session: Option<Session>)

  predicate IsAt(s: Seat, row: int, seat: int) {
    s.row == row && s.seat == seat
  }

  /** `seats.findIndex(s => s.row === row && s.seat === seat)`: the first match, or -1. */
  function PositionIndex(seats: seq<Seat>, row: int, seat: int): (i: int)
    ensures -1 <= i < |seats|
    ensures i >= 0 ==> IsAt(seats[i], row, seat)
    ensures forall j :: 0 <= j < |seats| && (i == -1 || j < i) ==> !IsAt(seats[j], row, seat)
  {
    if seats == [] then -1
    else if IsAt(seats[0], row, seat) then 0
    else
      var k := PositionIndex(seats[1..], row, seat);
      if k == -1 then -1 else k + 1
  }

  /** `seats.find(s => s.row === row && s.seat === seat)`: the first seat at that position. */
  function FindSeat(seats: seq<Seat>, row: int, seat: int): (r: Option<Seat>)
    ensures r.Some? <==> exists i :: 0 <= i < |seats| && IsAt(seats[i], row, seat)
    ensures r.Some? ==> IsAt(r.value, row, seat)
    ensures r.Some? ==> exists i :: 0 <= i < |seats| && seats[i] == r.value
                                    && forall j :: 0 <= j < i ==> !IsAt(seats[j], row, seat)
  {
    var i := PositionIndex(seats, row, seat);
    if i < 0 then None else Some(seats[i])
  }
}
