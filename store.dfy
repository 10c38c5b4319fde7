/**
 * The relational store the services work on (the ORM's tables), the Bull
 * queue of delayed jobs, and the table updates several services share.
 */
module Store {
  import opened Results

  /** The database client's message when an update targets a row that does not exist. */
  const RecordToUpdateNotFound := "Record to update not found."

  /** The database client's message when a required relation of a found row has no row. */
  const RequiredRelationMissing := "Inconsistent query result: Field is required to return data, got `null` instead."

  /** The database client's message when a query or a write receives an invalid date. */
  const InvalidDate := "Provided Date object is invalid"

  /** The seat status strings the code uses: 'available', 'pending', 'booked'. */
  datatype SeatStatus = Available | Pending | Booked

  /** Booking status values ('pending', 'confirmed', 'cancelled'). */
  datatype BookingStatus = BookingPending | Confirmed | Cancelled

  /** Payment status values ('pending', 'completed', 'failed'). */
  datatype PaymentStatus = PaymentPending | Completed | Failed

  datatype MovieStatus = MovieActive | MovieInactive

  datatype UserStatus = UserActive | UserInactive

  /** A seat of a room. Its status is one column of the seat row, shared by every showtime. */
  datatype Seat = Seat(roomId: int, row: string, seatNumber: int, seatType: string,
                       price: Option<int>, status: SeatStatus)

  datatype Room = Room(name: string, capacity: int)

  /**
   * A showtime. `showDate` is the show date as a day number; `startTime` and
   * `endTime` are minutes after that day's midnight.
   */
  datatype Showtime = Showtime(movieId: int, roomId: int, showDate: int, startTime: int,
                               endTime: int, basePrice: int, availableSeats: int, status: string)

  datatype Booking = Booking(userId: int, showtimeId: int, bookingStatus: BookingStatus,
                             paymentStatus: PaymentStatus, totalAmount: Option<int>,
                             bookingCode: Option<string>)

  datatype BookingDetail = BookingDetail(bookingId: int, seatId: int)

  datatype Payment = Payment(bookingId: int, amount: int, paymentMethod: string,
                             transactionId: string, status: PaymentStatus)

  datatype Movie = Movie(title: string, description: Option<string>, duration: int,
                         releaseDate: string, poster: Option<string>, trailer: Option<string>,
                         director: Option<string>, cast: Option<string>, language: Option<string>,
                         subtitle: Option<string>, status: MovieStatus, createdAt: int)

  datatype Genre = Genre(name: string)

  datatype MovieGenre = MovieGenre(movieId: int, genreId: int)

  datatype User = User(email: string, password: string, fullName: string, phone: Option<string>,
                       roleId: int, status: UserStatus, emailVerified: bool,
                       createdAt: int, updatedAt: int)

  /**
   * The content of every table at one moment. Tables whose rows are found in
   * insertion order by `findFirst` are sequences (payments, booking details,
   * movie-genre links); the row id of a payment is its position. The `next…Id`
   * fields are the auto-increment sequences of the tables that code inserts into.
   */
  datatype Tables = Tables(
    rooms: map<int, Room>,
    seats: map<int, Seat>,
    showtimes: map<int, Showtime>,
    bookings: map<int, Booking>,
    details: seq<BookingDetail>,
    payments: seq<Payment>,
    movies: map<int, Movie>,
    genres: map<int, Genre>,
    movieGenres: seq<MovieGenre>,
    users: map<int, User>,
    nextShowtimeId: int,
    nextUserId: int,
    nextMovieId: int)

  /** Every auto-increment sequence is past every id in its table. */
  predicate SequencesAhead(t: Tables)
  {
    && (forall k :: k in t.showtimes ==> k < t.nextShowtimeId)
    && (forall k :: k in t.users ==> k < t.nextUserId)
    && (forall k :: k in t.movies ==> k < t.nextMovieId)
  }

  /**
   * The database the services share. Each service call reads its tables and
   * writes back the tables its queries leave behind.
   */
  class Database {
    var tables: Tables

    constructor (t: Tables)
      ensures tables == t
    {
      tables := t;
    }
  }

  /** The payload of a 'release-seats' job. */
  datatype Job = Job(seatIds: seq<int>, showtimeId: int)

  /** A job waiting in the queue: its name, its payload and its delay in milliseconds. */
  datatype DelayedJob = DelayedJob(name: string, data: Job, delayMs: int)

  /** The Bull queue 'seat-reservation', as the list of its delayed jobs in queue order. */
  class JobQueue {
    var delayed: seq<DelayedJob>

    constructor (jobs: seq<DelayedJob>)
      ensures delayed == jobs
    {
      delayed := jobs;
    }
  }

  /** The set of ids a list of ids names (`where: { seat_id: { in: ids } }`). */
  function Elems(ids: seq<int>): (s: set<int>)
    ensures forall x :: x in s <==> x in ids
  {
    set x | x in ids
  }

  /**
   * `seat.updateMany({ where: { seat_id: { in: ids } }, data: { status } })`:
   * every seat whose id is in `ids` gets `status`; ids without a seat are ignored.
   */
  function WithStatus(seats: map<int, Seat>, ids: set<int>, status: SeatStatus): (r: map<int, Seat>)
    ensures r.Keys == seats.Keys
    ensures forall id :: id in ids && id in seats ==> r[id] == seats[id].(status := status)
    ensures forall id :: id !in ids && id in seats ==> r[id] == seats[id]
  {
    map id | id in seats :: if id in ids then seats[id].(status := status) else seats[id]
  }

  /** `showtime.update({ data: { available_seats: { increment: delta } } })` on an existing row. */
  function AddAvailable(showtimes: map<int, Showtime>, id: int, delta: int): (r: map<int, Showtime>)
    requires id in showtimes
    ensures r.Keys == showtimes.Keys
    ensures r[id].availableSeats == showtimes[id].availableSeats + delta
    ensures r[id] == showtimes[id].(availableSeats := r[id].availableSeats)
    ensures forall k :: k in showtimes && k != id ==> r[k] == showtimes[k]
  {
    showtimes[id := showtimes[id].(availableSeats := showtimes[id].availableSeats + delta)]
  }
}
