/** The persistent state the actions work on: the database tables behind the
    ORM client and the `car-images` storage bucket. */
module Store {
  import opened Envelope

  datatype Role = UserRole | AdminRole

  /** A row of the user table; `clerkUserId` is the identity provider's key. */
  datatype User = User(id: string, clerkUserId: string, role: Role)

  datatype CarStatus = Available | Unavailable | Sold

  /** A row of the car table. `createdAt` is the time the row was written. */
  datatype Car = Car(
    id: string,
    make: string,
    model: string,
    year: int,
    price: real,
    mileage: int,
    color: string,
    fuelType: string,
    transmission: string,
    bodyType: string,
    seats: Option<int>,
    description: string,
    status: CarStatus,
    featured: bool,
    images: seq<string>,
    createdAt: int)

  datatype BookingStatus = Pending | Confirmed | Completed | Cancelled | NoShow

  /** A row of the test-drive booking table; `bookingDate` is the parsed date. */
  datatype Booking = Booking(
    id: string,
    carId: string,
    userId: string,
    bookingDate: int,
    startTime: string,
    endTime: string,
    notes: Option<string>,
    status: BookingStatus,
    createdAt: int)

  /** Position of the row whose primary key `key` is `id`, if there is one
      (`findUnique({ where: { id } })`). */
  function IndexOf<T>(rows: seq<T>, id: string, key: T -> string): (r: Option<nat>)
    ensures r.Some? ==> r.value < |rows| && key(rows[r.value]) == id
    ensures r.None? ==> forall k :: 0 <= k < |rows| ==> key(rows[k]) != id
  {
    if rows == [] then None
    else if key(rows[|rows| - 1]) == id then Some(|rows| - 1)
    else IndexOf(rows[..|rows| - 1], id, key)
  }

  function CarId(car: Car): string {
    car.id
  }

  function BookingId(b: Booking): string {
    b.id
  }

  function CarIndex(cars: seq<Car>, id: string): Option<nat> {
    IndexOf(cars, id, CarId)
  }

  function BookingIndex(bookings: seq<Booking>, id: string): Option<nat> {
    IndexOf(bookings, id, BookingId)
  }

  ghost predicate UniqueCarIds(cars: seq<Car>) {
    forall i, j :: 0 <= i < j < |cars| ==> cars[i].id != cars[j].id
  }

  ghost predicate UniqueBookingIds(bookings: seq<Booking>) {
    forall i, j :: 0 <= i < j < |bookings| ==> bookings[i].id != bookings[j].id
  }

  /** The database: the user table keyed by identity-provider id (the key of
      `findUnique({ where: { clerkUserId } })`), and the car and booking tables
      in insertion order. */
  class Database {
    var users: map<string, User>
    var cars: seq<Car>
    var bookings: seq<Booking>

    /** Primary keys are unique. */
    ghost predicate Valid()
      reads this
    {
      (forall k :: k in users ==> users[k].clerkUserId == k)
      && UniqueCarIds(cars) && UniqueBookingIds(bookings)
    }

    constructor (users: map<string, User>)
      requires forall k :: k in users ==> users[k].clerkUserId == k
      ensures Valid()
      ensures this.users == users && cars == [] && bookings == []
    {
      this.users := users;
      cars := [];
      bookings := [];
    }
  }

  /** The `car-images` storage bucket: the set of object paths it holds. */
  class Bucket {
    var objects: set<string>

    constructor ()
      ensures objects == {}
    {
      objects := {};
    }
  }
}
