/** The test-drive server actions of actions/test-drive.js: `bookTestDrive`,
    `getUserTestDrives` and `cancelTestDrive`. The signed-in identity, the
    generated booking id and the clock are parameters. */
module TestDriveActions {
  import opened Envelope
  import opened Store
  import Ordering

  const NotSignedInMessage: string := "You must be logged in to book a test drive"
  const UserNotInDatabaseMessage: string := "User not found in database"
  const CarNotAvailableMessage: string := "Car not available for test drive"
  const SlotTakenMessage: string := "This time slot is already booked. Please select another time."
  const BookingNotFoundMessage: string := "Booking not found"
  const CancelUnauthorizedMessage: string := "Unauthorized to cancel the booking"
  const AlreadyCancelledMessage: string := "Booking is already cancelled"
  const CompletedBookingMessage: string := "Cannot cancel a completed booking"
  const CancelledMessage: string := "Test drive cancelled successfully"

  // ---------------------------------------------------------------- slots

  /** What a booking reserves: a car, a day and a start time. */
  datatype Slot = Slot(carId: string, bookingDate: int, startTime: string)

  function SlotOf(b: Booking): Slot {
    Slot(b.carId, b.bookingDate, b.startTime)
  }

  /** A booking that still holds its slot: `PENDING` or `CONFIRMED`. */
  predicate Holds(b: Booking) {
    b.status == Pending || b.status == Confirmed
  }

  /** Some booking that holds `slot` exists (the `findFirst` of the slot check). */
  predicate SlotTaken(bookings: seq<Booking>, slot: Slot) {
    exists k :: 0 <= k < |bookings| && Holds(bookings[k]) && SlotOf(bookings[k]) == slot
  }

  /** No two bookings that hold their slot hold the same one. */
  ghost predicate NoDoubleBooking(bookings: seq<Booking>) {
    forall i, j :: 0 <= i < j < |bookings| && Holds(bookings[i]) && Holds(bookings[j]) ==>
      SlotOf(bookings[i]) != SlotOf(bookings[j])
  }

  /** Appending a booking for a slot nobody holds keeps slots exclusive. */
  lemma BookingKeepsSlotsExclusive(bookings: seq<Booking>, b: Booking)
    requires NoDoubleBooking(bookings)
    requires !SlotTaken(bookings, SlotOf(b))
    ensures NoDoubleBooking(bookings + [b])
  {
  }

  /** A booking with the given status instead of its own; everything else is kept. */
  function WithStatus(bookings: seq<Booking>, k: nat, status: BookingStatus): (r: seq<Booking>)
    requires k < |bookings|
    ensures |r| == |bookings| && r[k].status == status
    ensures forall j :: 0 <= j < |r| && j != k ==> r[j] == bookings[j]
    ensures r[k].(status := bookings[k].status) == bookings[k]
  {
    bookings[k := bookings[k].(status := status)]
  }

  /** Cancelling a booking keeps slots exclusive and frees its slot, so that
      it can be booked again. */
  lemma CancelFreesSlot(bookings: seq<Booking>, k: nat)
    requires k < |bookings| && NoDoubleBooking(bookings) && Holds(bookings[k])
    ensures NoDoubleBooking(WithStatus(bookings, k, Cancelled))
    ensures !SlotTaken(WithStatus(bookings, k, Cancelled), SlotOf(bookings[k]))
  {
  }

  // ---------------------------------------------------------------- bookTestDrive

  /** A car row with this id and status `AVAILABLE` exists. */
  predicate CarAvailable(cars: seq<Car>, carId: string) {
    exists c :: c in cars && c.id == carId && c.status == Available
  }

  /** `notes || null`: an empty note is stored as no note. */
  function StoredNotes(notes: Option<string>): Option<string> {
    if notes.Some? && notes.value != "" then notes else None
  }

  /** `bookTestDrive`. The caller must be signed in and in the user table, the
      car must exist with status `AVAILABLE`, and no `PENDING` or `CONFIRMED`
      booking may hold the same car, day and start time; each failing check
      returns its message and writes nothing. Otherwise one `PENDING` booking
      of the caller's user row is appended and returned. */
  method BookTestDrive(
    db: Database, requester: Option<string>, carId: string, bookingDate: int,
    startTime: string, endTime: string, notes: Option<string>, newId: string, now: int)
    returns (r: Response<Booking>)
    requires db.Valid()
    requires forall b :: b in db.bookings ==> b.id != newId
    modifies db`bookings
    ensures db.Valid()
    ensures NoDoubleBooking(old(db.bookings)) ==> NoDoubleBooking(db.bookings)
    ensures !r.Thrown?
    ensures r.Failure? ==> db.bookings == old(db.bookings)
    ensures requester.None? ==> r == Failure(NotSignedInMessage)
    ensures requester.Some? && requester.value !in db.users ==> r == Failure(UserNotInDatabaseMessage)
    ensures requester.Some? && requester.value in db.users && !CarAvailable(db.cars, carId) ==>
      r == Failure(CarNotAvailableMessage)
    ensures (requester.Some? && requester.value in db.users && CarAvailable(db.cars, carId)
             && SlotTaken(old(db.bookings), Slot(carId, bookingDate, startTime))) ==>
      r == Failure(SlotTakenMessage)
    ensures r.Success? <==>
      requester.Some? && requester.value in db.users && CarAvailable(db.cars, carId)
      && !SlotTaken(old(db.bookings), Slot(carId, bookingDate, startTime))
    ensures r.Success? ==>
      r.data == Booking(newId, carId, db.users[requester.value].id, bookingDate, startTime, endTime,
                        StoredNotes(notes), Pending, now)
      && db.bookings == old(db.bookings) + [r.data]
  {
    if requester.None? {
      return Failure(NotSignedInMessage);
    }
    if requester.value !in db.users {
      return Failure(UserNotInDatabaseMessage);
    }
    var user := db.users[requester.value];
    if !CarAvailable(db.cars, carId) {
      return Failure(CarNotAvailableMessage);
    }
    if SlotTaken(db.bookings, Slot(carId, bookingDate, startTime)) {
      return Failure(SlotTakenMessage);
    }
    var booking := Booking(newId, carId, user.id, bookingDate, startTime, endTime, StoredNotes(notes), Pending, now);
    if NoDoubleBooking(db.bookings) {
      BookingKeepsSlotsExclusive(db.bookings, booking);
    }
    db.bookings := db.bookings + [booking];
    r := Success(booking);
  }

  // ---------------------------------------------------------------- getUserTestDrives

  function BookingDate(b: Booking): int {
    b.bookingDate
  }

  /** The bookings of user row `userId`, latest booking date first. */
  function UserBookings(bookings: seq<Booking>, userId: string): (r: seq<Booking>)
    ensures Ordering.SortedDesc(r, BookingDate)
    ensures forall b :: b in r <==> b in bookings && b.userId == userId
    ensures forall b :: multiset(r)[b] == if b.userId == userId then multiset(bookings)[b] else 0
  {
    Ordering.SortDesc(Ordering.Filter(bookings, (b: Booking) => b.userId == userId), BookingDate)
  }

  /** One entry of the list `getUserTestDrives` returns: the booking with its
      car row attached. */
  datatype BookingView = BookingView(
    id: string,
    carId: string,
    car: Option<Car>,
    bookingDate: int,
    startTime: string,
    endTime: string,
    status: BookingStatus,
    notes: Option<string>,
    createdAt: int)

  function CarOf(cars: seq<Car>, carId: string): (r: Option<Car>)
    ensures r.Some? ==> r.value in cars && r.value.id == carId
    ensures r.None? ==> forall c :: c in cars ==> c.id != carId
  {
    match CarIndex(cars, carId)
    case Some(k) => Some(cars[k])
    case None => None
  }

  function ViewOf(cars: seq<Car>, b: Booking): BookingView {
    BookingView(b.id, b.carId, CarOf(cars, b.carId), b.bookingDate, b.startTime, b.endTime,
                b.status, b.notes, b.createdAt)
  }

  function ViewDate(v: BookingView): int {
    v.bookingDate
  }

  /** The formatted list: one entry per booking, in order. */
  function Views(cars: seq<Car>, bookings: seq<Booking>): seq<BookingView> {
    seq(|bookings|, k requires 0 <= k < |bookings| => ViewOf(cars, bookings[k]))
  }

  /** Attaching cars keeps the rows and their order. */
  lemma ViewsFollowBookings(cars: seq<Car>, bookings: seq<Booking>)
    ensures forall b :: b in bookings ==> ViewOf(cars, b) in Views(cars, bookings)
    ensures forall v :: v in Views(cars, bookings) ==> exists b :: b in bookings && v == ViewOf(cars, b)
    ensures Ordering.SortedDesc(bookings, BookingDate) ==> Ordering.SortedDesc(Views(cars, bookings), ViewDate)
  {
    var views := Views(cars, bookings);
    forall b | b in bookings ensures ViewOf(cars, b) in views {
      var k :| 0 <= k < |bookings| && bookings[k] == b;
      assert views[k] == ViewOf(cars, b);
    }
    forall v | v in views ensures exists b :: b in bookings && v == ViewOf(cars, b) {
      var k :| 0 <= k < |views| && views[k] == v;
      assert bookings[k] in bookings;
    }
    if Ordering.SortedDesc(bookings, BookingDate) {
      forall i, j | 0 <= i < j < |views| ensures ViewDate(views[i]) >= ViewDate(views[j]) {
        assert BookingDate(bookings[i]) >= BookingDate(bookings[j]);
      }
    }
  }

  /** `getUserTestDrives`: the signed-in caller's own bookings, each with its
      car, latest booking date first; the two identity checks fail with the
      same messages as `bookTestDrive`. The list is the formatted query
      result, so each of the caller's rows appears exactly once per copy in
      the table. */
  function GetUserTestDrives(
    users: map<string, User>, cars: seq<Car>, bookings: seq<Booking>, requester: Option<string>)
    : (r: Response<seq<BookingView>>)
    ensures !r.Thrown?
    ensures requester.None? ==> r == Failure(NotSignedInMessage)
    ensures requester.Some? && requester.value !in users ==> r == Failure(UserNotInDatabaseMessage)
    ensures r.Success? <==> requester.Some? && requester.value in users
    ensures r.Success? ==>
      var owner := users[requester.value].id;
      Ordering.SortedDesc(r.data, ViewDate)
      && (forall b :: b in bookings && b.userId == owner ==> ViewOf(cars, b) in r.data)
      && (forall v :: v in r.data ==> exists b :: b in bookings && b.userId == owner && v == ViewOf(cars, b))
      && (forall v :: v in r.data && v.car.Some? ==> v.car.value in cars && v.car.value.id == v.carId)
    ensures r.Success? ==> r.data == Views(cars, UserBookings(bookings, users[requester.value].id))
  {
    if requester.None? then Failure(NotSignedInMessage)
    else if requester.value !in users then Failure(UserNotInDatabaseMessage)
    else
      var mine := UserBookings(bookings, users[requester.value].id);
      var views := Views(cars, mine);
      ViewsFollowBookings(cars, mine);
      Success(views)
  }

  // ---------------------------------------------------------------- cancelTestDrive

  /** The authorisation test of `cancelTestDrive` as written: the request is
      refused when the booking is not the caller's OR the caller is not an
      admin, so only an admin cancelling their own booking gets through. */
  predicate CancelAuthorized(user: User, b: Booking)
    ensures CancelAuthorized(user, b) <==> b.userId == user.id && user.role == AdminRole
  {
    !(b.userId != user.id || user.role != AdminRole)
  }

  /** The consequence of that test: an ordinary user cannot cancel even their
      own booking, and an admin cannot cancel anybody else's. */
  lemma OnlyAdminOwnerCancels(user: User, b: Booking)
    ensures user.role == UserRole ==> !CancelAuthorized(user, b)
    ensures b.userId != user.id ==> !CancelAuthorized(user, b)
  {
  }

  /** `cancelTestDrive`. After the identity checks, an unknown booking id, a
      refused authorisation, a booking already `CANCELLED` and a `COMPLETED`
      booking each fail with their message and change nothing. Otherwise only
      that booking's status becomes `CANCELLED`. */
  method CancelTestDrive(db: Database, requester: Option<string>, bookingId: string)
    returns (r: Response<string>)
    requires db.Valid()
    modifies db`bookings
    ensures db.Valid()
    ensures NoDoubleBooking(old(db.bookings)) ==> NoDoubleBooking(db.bookings)
    ensures !r.Thrown?
    ensures r.Failure? ==> db.bookings == old(db.bookings)
    ensures requester.None? ==> r == Failure(NotSignedInMessage)
    ensures requester.Some? && requester.value !in db.users ==> r == Failure(UserNotInDatabaseMessage)
    ensures requester.Some? && requester.value in db.users ==>
      var user := db.users[requester.value];
      match BookingIndex(old(db.bookings), bookingId)
      case None => r == Failure(BookingNotFoundMessage)
      case Some(k) =>
        var b := old(db.bookings)[k];
        if !CancelAuthorized(user, b) then r == Failure(CancelUnauthorizedMessage)
        else if b.status == Cancelled then r == Failure(AlreadyCancelledMessage)
        else if b.status == Completed then r == Failure(CompletedBookingMessage)
        else r == Success(CancelledMessage) && db.bookings == WithStatus(old(db.bookings), k, Cancelled)
  {
    if requester.None? {
      return Failure(NotSignedInMessage);
    }
    if requester.value !in db.users {
      return Failure(UserNotInDatabaseMessage);
    }
    var user := db.users[requester.value];
    var found := BookingIndex(db.bookings, bookingId);
    if found.None? {
      return Failure(BookingNotFoundMessage);
    }
    var k := found.value;
    var booking := db.bookings[k];
    if !CancelAuthorized(user, booking) {
      return Failure(CancelUnauthorizedMessage);
    }
    if booking.status == Cancelled {
      return Failure(AlreadyCancelledMessage);
    }
    if booking.status == Completed {
      return Failure(CompletedBookingMessage);
    }
    var next := WithStatus(db.bookings, k, Cancelled);
    if NoDoubleBooking(db.bookings) {
      if Holds(booking) {
        CancelFreesSlot(db.bookings, k);
      } else {
        assert NoDoubleBooking(next) by {
          forall i, j | 0 <= i < j < |next| && Holds(next[i]) && Holds(next[j])
            ensures SlotOf(next[i]) != SlotOf(next[j])
          {
            assert i != k && j != k;
          }
        }
      }
    }
    assert UniqueBookingIds(next) by {
      forall i, j | 0 <= i < j < |next| ensures next[i].id != next[j].id {
        assert next[i].id == db.bookings[i].id && next[j].id == db.bookings[j].id;
      }
    }
    db.bookings := next;
    r := Success(CancelledMessage);
  }
}
