/** The inventory server actions of actions/cars.js: `addCar`, `getCars`,
    `deleteCar` and `updateCarStatus`. The signed-in identity, the clock, the
    generated id and the outcome of each storage call are parameters. */
module CarActions {
  import opened Envelope
  import opened Text
  import opened Store
  import opened ImagePaths
  import Ordering

  const AddCarErrorPrefix: string := "Error adding car:"
  const UnauthorizedMessage: string := "Unauthorized"
  const UserNotFoundMessage: string := "User not found!"
  const UploadFailedPrefix: string := "Failed to upload image: "
  const NoValidImagesMessage: string := "No valid images were uplaoded"
  /** The message of the `TypeError` that `Buffer.from(undefined, "base64")`
      raises when a data URL has no comma before its payload. */
  const MissingPayloadMessage: string :=
    "The first argument must be of type string or an instance of Buffer, ArrayBuffer, or Array or an Array-like Object. Received undefined"
  const CarNotFoundMessage: string := "Car not found"
  const AdminRequiredMessage: string := "Unauthorized: Admin access required"
  /** The message of the ORM's error for an update whose row does not exist. */
  const RecordToUpdateNotFoundMessage: string := "Record to update not found."

  /** The car attributes the admin form submits to `addCar`. */
  datatype CarData = CarData(
    make: string,
    model: string,
    year: int,
    price: real,
    mileage: int,
    color: string,
    fuelType: string,
    transmission: string,
    bodyType: string,
    seats: Option<int>,
    description: string,
    status: CarStatus,
    featured: bool)

  /** The row `db.car.create` writes. */
  function NewCar(carId: string, data: CarData, images: seq<string>, createdAt: int): Car {
    Car(carId, data.make, data.model, data.year, data.price, data.mileage, data.color,
        data.fuelType, data.transmission, data.bodyType, data.seats, data.description,
        data.status, data.featured, images, createdAt)
  }

  /** The elements of `s`. */
  function ToSet(s: seq<string>): (r: set<string>)
    ensures forall p :: p in r <==> p in s
  {
    if s == [] then {} else ToSet(s[..|s| - 1]) + {s[|s| - 1]}
  }

  // ---------------------------------------------------------------- addCar

  /** The storage path of entry `i`, stamped with the clock reading taken when
      the loop reached it. */
  function UploadPath(carId: string, images: seq<Option<string>>, clock: seq<nat>, i: nat): string
    requires i < |images| == |clock| && IsValidImage(images[i])
  {
    ImagePath(carId, ImageFileName(clock[i], i, ExtensionOf(images[i].value)))
  }

  /** The paths uploaded for the entries before `n`, in loop order. */
  function UploadPaths(carId: string, images: seq<Option<string>>, clock: seq<nat>, n: nat): seq<string>
    requires n <= |images| == |clock|
  {
    if n == 0 then []
    else
      var next := if IsValidImage(images[n - 1]) then [UploadPath(carId, images, clock, n - 1)] else [];
      UploadPaths(carId, images, clock, n - 1) + next
  }

  /** The indices of the valid entries before `n`, in increasing order. */
  function ValidIndices(images: seq<Option<string>>, n: nat): (r: seq<nat>)
    requires n <= |images|
    ensures forall k :: 0 <= k < |r| ==> r[k] < n && IsValidImage(images[r[k]])
    ensures forall a, b :: 0 <= a < b < |r| ==> r[a] < r[b]
    ensures forall i :: 0 <= i < n && IsValidImage(images[i]) ==> i in r
  {
    if n == 0 then []
    else ValidIndices(images, n - 1) + (if IsValidImage(images[n - 1]) then [n - 1] else [])
  }

  /** The public URL of each path, in order. */
  function PublicUrls(base: string, paths: seq<string>): seq<string> {
    seq(|paths|, k requires 0 <= k < |paths| => PublicUrl(base, paths[k]))
  }

  /** Why an entry stops the image loop: a valid data URL without a comma
      leaves no payload to decode, or the upload fails with the storage
      service's message. */
  datatype IngestError = MissingPayload | UploadFailed(message: string)

  /** The message the action's error carries after its prefix. */
  function IngestMessage(e: IngestError): string {
    match e
    case MissingPayload => MissingPayloadMessage
    case UploadFailed(message) => UploadFailedPrefix + message
  }

  /** Why entry `i` stops the loop, if it does. */
  function IngestFailure(images: seq<Option<string>>, uploadError: nat -> Option<string>, i: nat): Option<IngestError>
    requires i < |images|
  {
    if !IsValidImage(images[i]) then None
    else if ',' !in images[i].value then Some(MissingPayload)
    else match uploadError(i)
      case Some(message) => Some(UploadFailed(message))
      case None => None
  }

  /** The first entry at or after `from` that stops the loop. */
  function FirstFailure(images: seq<Option<string>>, uploadError: nat -> Option<string>, from: nat): (r: Option<nat>)
    requires from <= |images|
    ensures r.Some? ==> from <= r.value < |images| && IngestFailure(images, uploadError, r.value).Some?
    decreases |images| - from
  {
    if from == |images| then None
    else if IngestFailure(images, uploadError, from).Some? then Some(from)
    else FirstFailure(images, uploadError, from + 1)
  }

  /** Every entry before the one the loop stops at (before the end, when it
      does not stop) passes. */
  lemma {:induction false} FirstFailureIsFirst(images: seq<Option<string>>, uploadError: nat -> Option<string>, from: nat)
    requires from <= |images|
    ensures var r := FirstFailure(images, uploadError, from);
      forall j :: from <= j < |images| && (r.None? || j < r.value) ==> IngestFailure(images, uploadError, j).None?
    decreases |images| - from
  {
    if from < |images| {
      FirstFailureIsFirst(images, uploadError, from + 1);
    }
  }

  /** The uploads are exactly one per valid entry, in input order, and each
      file name carries the entry's own index in `images` (not its rank among
      the valid entries). */
  lemma {:induction false} UploadPathsFollowValidEntries(
    carId: string, images: seq<Option<string>>, clock: seq<nat>, n: nat)
    requires n <= |images| == |clock|
    ensures |UploadPaths(carId, images, clock, n)| == |ValidIndices(images, n)|
    ensures forall k :: 0 <= k < |ValidIndices(images, n)| ==>
      UploadPaths(carId, images, clock, n)[k] == UploadPath(carId, images, clock, ValidIndices(images, n)[k])
  {
    if n > 0 {
      UploadPathsFollowValidEntries(carId, images, clock, n - 1);
      var paths, valid := UploadPaths(carId, images, clock, n - 1), ValidIndices(images, n - 1);
      if IsValidImage(images[n - 1]) {
        var next, nextValid := paths + [UploadPath(carId, images, clock, n - 1)], valid + [n - 1];
        assert UploadPaths(carId, images, clock, n) == next;
        assert ValidIndices(images, n) == nextValid;
        forall k | 0 <= k < |nextValid| ensures next[k] == UploadPath(carId, images, clock, nextValid[k]) {
          if k < |valid| {
            assert next[k] == paths[k] && nextValid[k] == valid[k];
          }
        }
      } else {
        assert UploadPaths(carId, images, clock, n) == paths;
        assert ValidIndices(images, n) == valid;
      }
    }
  }

  /** The object uploaded for entry `i` lies directly in the car's folder
      `cars/<carId>`. */
  lemma UploadPathInCarFolder(carId: string, images: seq<Option<string>>, clock: seq<nat>, i: nat)
    requires i < |images| == |clock| && IsValidImage(images[i])
    ensures InCarFolder(UploadPath(carId, images, clock, i), carId)
  {
    var name := ImageFileName(clock[i], i, ExtensionOf(images[i].value));
    FileNameHasNoSlash(clock[i], i, ExtensionOf(images[i].value));
    assert name[0] == 'i';
  }

  /** So every object `addCar` uploads lies in the car's folder. */
  lemma UploadsSitInCarFolder(carId: string, images: seq<Option<string>>, clock: seq<nat>, n: nat)
    requires n <= |images| == |clock|
    ensures forall p :: p in UploadPaths(carId, images, clock, n) ==> InCarFolder(p, carId)
  {
    UploadPathsFollowValidEntries(carId, images, clock, n);
    var paths := UploadPaths(carId, images, clock, n);
    var valid := ValidIndices(images, n);
    forall p | p in paths ensures InCarFolder(p, carId) {
      var k :| 0 <= k < |paths| && paths[k] == p;
      UploadPathInCarFolder(carId, images, clock, valid[k]);
    }
  }

  lemma PublicUrlsSnoc(base: string, paths: seq<string>, path: string)
    ensures PublicUrls(base, paths + [path]) == PublicUrls(base, paths) + [PublicUrl(base, path)]
  {
  }

  lemma ToSetSnoc(paths: seq<string>, path: string)
    ensures ToSet(paths + [path]) == ToSet(paths) + {path}
  {
  }

  /** One step of the upload loop: a valid entry adds its path; any other
      entry adds nothing. */
  lemma UploadStep(carId: string, images: seq<Option<string>>, clock: seq<nat>, i: nat)
    requires i < |images| == |clock|
    ensures UploadPaths(carId, images, clock, i + 1) ==
      UploadPaths(carId, images, clock, i)
      + (if IsValidImage(images[i]) then [UploadPath(carId, images, clock, i)] else [])
  {
  }

  /** A row with a fresh id keeps the car ids unique. */
  lemma AppendFreshCar(cars: seq<Car>, car: Car)
    requires UniqueCarIds(cars) && CarIndex(cars, car.id).None?
    ensures UniqueCarIds(cars + [car])
  {
  }

  /** One pass of the image loop of `addCar` over entry `i`: a valid entry is
      decoded, named `cars/<carId>/image-<clock>-<i>.<ext>` and uploaded, and
      its public URL comes back; an entry without a payload or whose upload
      fails stops the loop and leaves the bucket as it was; any other entry is
      skipped. */
  method UploadEntry(
    bucket: Bucket, images: seq<Option<string>>, carId: string, baseUrl: string, clock: seq<nat>,
    uploadError: nat -> Option<string>, i: nat)
    returns (stop: bool, url: Option<string>)
    requires i < |images| == |clock|
    modifies bucket
    ensures stop <==> IngestFailure(images, uploadError, i).Some?
    ensures stop || !IsValidImage(images[i]) ==> bucket.objects == old(bucket.objects) && url.None?
    ensures !stop && IsValidImage(images[i]) ==>
      bucket.objects == old(bucket.objects) + {UploadPath(carId, images, clock, i)}
      && url == Some(PublicUrl(baseUrl, UploadPath(carId, images, clock, i)))
  {
    var entry := images[i];
    if !IsValidImage(entry) {
      return false, None;
    }
    var data := entry.value;
    if ',' !in data {
      return true, None;
    }
    var path := ImagePath(carId, ImageFileName(clock[i], i, ExtensionOf(data)));
    if uploadError(i).Some? {
      return true, None;
    }
    bucket.objects := bucket.objects + {path};
    url := Some(PublicUrl(baseUrl, path));
    stop := false;
  }

  /** The image loop of `addCar`: the entries are taken in order. The first
      entry without a payload or whose upload fails stops the loop, leaving
      the objects uploaded before it in the bucket; otherwise the public URLs
      of all uploads come back in order. */
  method UploadImages(
    bucket: Bucket, images: seq<Option<string>>, carId: string, baseUrl: string, clock: seq<nat>,
    uploadError: nat -> Option<string>)
    returns (failure: Option<nat>, imageUrls: seq<string>)
    requires |clock| == |images|
    modifies bucket
    ensures failure == FirstFailure(images, uploadError, 0)
    ensures var done := if failure.Some? then failure.value else |images|;
      done <= |images|
      && bucket.objects == old(bucket.objects) + ToSet(UploadPaths(carId, images, clock, done))
      && imageUrls == PublicUrls(baseUrl, UploadPaths(carId, images, clock, done))
  {
    imageUrls := [];
    ghost var uploaded: seq<string> := [];
    var i := 0;
    while i < |images|
      invariant i <= |images|
      invariant uploaded == UploadPaths(carId, images, clock, i)
      invariant imageUrls == PublicUrls(baseUrl, uploaded)
      invariant bucket.objects == old(bucket.objects) + ToSet(uploaded)
      invariant FirstFailure(images, uploadError, 0) == FirstFailure(images, uploadError, i)
      modifies bucket
    {
      var stop, url := UploadEntry(bucket, images, carId, baseUrl, clock, uploadError, i);
      if stop {
        return Some(i), imageUrls;
      }
      UploadStep(carId, images, clock, i);
      if url.Some? {
        var path := UploadPath(carId, images, clock, i);
        PublicUrlsSnoc(baseUrl, uploaded, path);
        ToSetSnoc(uploaded, path);
        uploaded := uploaded + [path];
        imageUrls := imageUrls + [url.value];
      }
      i := i + 1;
    }
    failure := None;
  }

  /** `addCar`. The caller must be signed in and known to the user table. The
      image loop runs; the first entry without a payload or whose upload fails
      aborts the action with no car row. With no valid entry nothing is
      written. Otherwise one row with id `carId` and the public URLs of the
      uploads, in order, is appended. Every failure is thrown, prefixed
      `Error adding car:`. */
  method AddCar(
    db: Database, bucket: Bucket, requester: Option<string>, carData: CarData,
    images: seq<Option<string>>, carId: string, baseUrl: string, clock: seq<nat>,
    uploadError: nat -> Option<string>, now: int)
    returns (r: Response<()>)
    requires db.Valid()
    requires |clock| == |images|
    requires CarIndex(db.cars, carId).None?
    modifies db`cars, bucket
    ensures db.Valid()
    ensures r.Thrown? || r == Success(())
    ensures requester.None? ==>
      r == Thrown(AddCarErrorPrefix + UnauthorizedMessage)
      && db.cars == old(db.cars) && bucket.objects == old(bucket.objects)
    ensures requester.Some? && requester.value !in db.users ==>
      r == Thrown(AddCarErrorPrefix + UserNotFoundMessage)
      && db.cars == old(db.cars) && bucket.objects == old(bucket.objects)
    ensures requester.Some? && requester.value in db.users ==>
      match FirstFailure(images, uploadError, 0)
      case Some(f) =>
        r == Thrown(AddCarErrorPrefix + IngestMessage(IngestFailure(images, uploadError, f).value))
        && db.cars == old(db.cars)
        && bucket.objects == old(bucket.objects) + ToSet(UploadPaths(carId, images, clock, f))
      case None =>
        var paths := UploadPaths(carId, images, clock, |images|);
        bucket.objects == old(bucket.objects) + ToSet(paths)
        && (paths == [] ==> r == Thrown(AddCarErrorPrefix + NoValidImagesMessage) && db.cars == old(db.cars))
        && (paths != [] ==>
              r == Success(()) && db.cars == old(db.cars) + [NewCar(carId, carData, PublicUrls(baseUrl, paths), now)])
  {
    if requester.None? {
      return Thrown(AddCarErrorPrefix + UnauthorizedMessage);
    }
    if requester.value !in db.users {
      return Thrown(AddCarErrorPrefix + UserNotFoundMessage);
    }
    var failure, imageUrls := UploadImages(bucket, images, carId, baseUrl, clock, uploadError);
    if failure.Some? {
      return Thrown(AddCarErrorPrefix + IngestMessage(IngestFailure(images, uploadError, failure.value).value));
    }
    if |imageUrls| == 0 {
      return Thrown(AddCarErrorPrefix + NoValidImagesMessage);
    }
    AppendFreshCar(db.cars, NewCar(carId, carData, imageUrls, now));
    db.cars := db.cars + [NewCar(carId, carData, imageUrls, now)];
    r := Success(());
  }

  // ---------------------------------------------------------------- getCars

  /** The search condition: the make, the model or the colour contains the
      search term, ignoring the case of ASCII letters. */
  predicate CarMatches(car: Car, search: string)
    ensures search == "" ==> CarMatches(car, search)
  {
    var term := Lower(search);
    assert search == "" ==> StartsWith(Lower(car.make), term);
    Contains(Lower(car.make), term) || Contains(Lower(car.model), term) || Contains(Lower(car.color), term)
  }

  function Matcher(search: string): Car -> bool {
    c => CarMatches(c, search)
  }

  function CreatedAt(car: Car): int {
    car.createdAt
  }

  /** `getCars`: the cars whose make, model or colour contains the search term
      (every car when the term is empty), newest first; each matching row
      appears as often as in the table. */
  function GetCars(cars: seq<Car>, search: string): (r: seq<Car>)
    ensures Ordering.SortedDesc(r, CreatedAt)
    ensures forall c :: multiset(r)[c] == if search == "" || CarMatches(c, search) then multiset(cars)[c] else 0
    ensures forall c :: c in r <==> c in cars && (search == "" || CarMatches(c, search))
  {
    if search == "" then Ordering.SortDesc(cars, CreatedAt)
    else Ordering.SortDesc(Ordering.Filter(cars, Matcher(search)), CreatedAt)
  }

  /** A search lists the matching cars in the order the unfiltered listing
      shows them. */
  lemma GetCarsSearchFiltersAll(cars: seq<Car>, search: string)
    ensures GetCars(cars, search) == Ordering.Filter(GetCars(cars, ""), Matcher(search))
  {
    if search == "" {
      Ordering.FilterAll(GetCars(cars, ""), Matcher(search));
    } else {
      Ordering.FilterSortCommute(cars, CreatedAt, Matcher(search));
    }
  }

  lemma {:induction false} FilterSame(cars: seq<Car>, p: Car -> bool, q: Car -> bool)
    requires forall c :: p(c) == q(c)
    ensures Ordering.Filter(cars, p) == Ordering.Filter(cars, q)
  {
    if cars != [] {
      FilterSame(cars[1..], p, q);
    }
  }

  /** The search term's case does not matter. */
  lemma SearchIgnoresCase(cars: seq<Car>, search: string)
    ensures GetCars(cars, search) == GetCars(cars, Lower(search))
  {
    var lowered := Lower(search);
    assert Lower(lowered) == lowered;
    FilterSame(cars, Matcher(search), Matcher(lowered));
  }

  // ---------------------------------------------------------------- deleteCar

  /** Where the best-effort storage cleanup of `deleteCar` gives up: the
      storage client cannot be set up, listing the folder fails, or removing
      the listed objects fails. Each of these is logged and swallowed. */
  datatype StorageFault = NoFault | ClientFails | ListFails | RemoveFails

  /** The folder the cleanup targets: the folder key of the pathname of the
      first image URL. It is always one car's folder `cars/<name>`, never the
      bucket's root or a folder nested deeper. `pathname` stands for `new URL(u).pathname`, which is
      `None` when `u` does not parse (the constructor throws). */
  function CleanupFolder(images: seq<string>, pathname: string -> Option<string>): (r: Option<string>)
    ensures r.Some? ==> images != [] && StartsWith(r.value, CarsFolder) && |r.value| > |CarsFolder|
    ensures r.Some? ==> '/' !in r.value[|CarsFolder|..]
  {
    if images == [] then None
    else match pathname(images[0])
      case None => None
      case Some(path) => FolderKey(path)
  }

  /** The bucket after the cleanup: listing the folder and removing every
      listed path takes away exactly the objects directly in the folder;
      any fault, or a URL that yields no folder key, leaves the bucket as it was. */
  function CleanupStorage(objects: set<string>, images: seq<string>, pathname: string -> Option<string>,
                          fault: StorageFault): (r: set<string>)
    ensures r <= objects
    ensures fault != NoFault || CleanupFolder(images, pathname).None? ==> r == objects
    ensures fault == NoFault && CleanupFolder(images, pathname).Some? ==>
      forall p :: p in objects ==> (p !in r <==> DirectlyIn(p, CleanupFolder(images, pathname).value))
  {
    if fault != NoFault then objects
    else match CleanupFolder(images, pathname)
      case None => objects
      case Some(folder) => objects - set p | p in objects && DirectlyIn(p, folder)
  }

  /** Removing row `k` of a table with unique ids takes away exactly the car
      with that id and keeps every other row. */
  lemma RemoveCarRow(cars: seq<Car>, k: nat)
    requires k < |cars| && UniqueCarIds(cars)
    ensures forall c :: c in cars[..k] + cars[k + 1..] <==> c in cars && c.id != cars[k].id
    ensures UniqueCarIds(cars[..k] + cars[k + 1..])
  {
  }

  /** `deleteCar`. The caller must be signed in (no role is checked). An
      unknown id fails with `Car not found` and changes nothing; otherwise that
      row is removed and the action succeeds whatever the storage cleanup
      does. */
  method DeleteCar(
    db: Database, bucket: Bucket, requester: Option<string>, id: string,
    pathname: string -> Option<string>, fault: StorageFault)
    returns (r: Response<()>)
    requires db.Valid()
    modifies db`cars, bucket
    ensures db.Valid()
    ensures requester.None? ==>
      r == Failure(UnauthorizedMessage) && db.cars == old(db.cars) && bucket.objects == old(bucket.objects)
    ensures requester.Some? ==>
      match CarIndex(old(db.cars), id)
      case None =>
        r == Failure(CarNotFoundMessage) && db.cars == old(db.cars) && bucket.objects == old(bucket.objects)
      case Some(k) =>
        r == Success(())
        && db.cars == old(db.cars)[..k] + old(db.cars)[k + 1..]
        && bucket.objects == CleanupStorage(old(bucket.objects), old(db.cars)[k].images, pathname, fault)
  {
    if requester.None? {
      return Failure(UnauthorizedMessage);
    }
    var found := CarIndex(db.cars, id);
    if found.None? {
      return Failure(CarNotFoundMessage);
    }
    var k := found.value;
    var images := db.cars[k].images;
    RemoveCarRow(db.cars, k);
    db.cars := db.cars[..k] + db.cars[k + 1..];
    bucket.objects := CleanupStorage(bucket.objects, images, pathname, fault);
    r := Success(());
  }

  lemma CleanupRemovesFolderObject(
    objects: set<string>, images: seq<string>, pathname: string -> Option<string>, folder: string, p: string)
    requires CleanupFolder(images, pathname) == Some(folder)
    requires DirectlyIn(p, folder)
    ensures p !in CleanupStorage(objects, images, pathname, NoFault)
  {
  }

  /** Deleting a car whose image URLs are the public URLs of objects in its
      own folder, with a URL parser that gives back the path after the base
      URL and no storage fault, removes every one of those objects. */
  lemma CleanupRemovesCarImages(
    objects: set<string>, carId: string, paths: seq<string>, baseUrl: string, pathname: string -> Option<string>)
    requires carId != [] && '/' !in carId
    requires paths != [] && forall p :: p in paths ==> InCarFolder(p, carId)
    requires forall p :: pathname(PublicUrl(baseUrl, p)) == Some(PublicPathname(p))
    ensures forall p :: p in paths ==> p !in CleanupStorage(objects, PublicUrls(baseUrl, paths), pathname, NoFault)
  {
    var urls := PublicUrls(baseUrl, paths);
    var folder := FolderPath(carId);
    assert paths[0] in paths;
    CarFolderObject(paths[0], carId);
    assert pathname(urls[0]) == Some(PublicPathname(paths[0]));
    assert CleanupFolder(urls, pathname) == Some(folder);
    forall p | p in paths ensures p !in CleanupStorage(objects, urls, pathname, NoFault) {
      CarFolderObject(p, carId);
      CleanupRemovesFolderObject(objects, urls, pathname, folder, p);
    }
  }

  /** The round trip of the storage layout: deleting a car that `addCar`
      created, with a URL parser that gives back the path after the base URL
      (a base URL without a path of its own) and no storage fault, removes
      every object `addCar` uploaded for it. */
  lemma DeleteRemovesUploadedImages(
    objects: set<string>, carId: string, images: seq<Option<string>>, clock: seq<nat>,
    baseUrl: string, pathname: string -> Option<string>)
    requires |images| == |clock|
    requires carId != [] && '/' !in carId
    requires UploadPaths(carId, images, clock, |images|) != []
    requires forall p :: pathname(PublicUrl(baseUrl, p)) == Some(PublicPathname(p))
    ensures var urls := PublicUrls(baseUrl, UploadPaths(carId, images, clock, |images|));
      forall p :: p in UploadPaths(carId, images, clock, |images|) ==>
        p !in CleanupStorage(objects, urls, pathname, NoFault)
  {
    UploadsSitInCarFolder(carId, images, clock, |images|);
    CleanupRemovesCarImages(objects, carId, UploadPaths(carId, images, clock, |images|), baseUrl, pathname);
  }

  // ---------------------------------------------------------------- updateCarStatus

  /** The signed-in caller is in the user table with the admin role. */
  predicate IsAdmin(requester: Option<string>, users: map<string, User>) {
    requester.Some? && requester.value in users && users[requester.value].role == AdminRole
  }

  /** The row after `update({ data: updateData })`: a supplied field takes its
      new value, an omitted one keeps its old value, and nothing else changes. */
  function ApplyStatusUpdate(car: Car, status: Option<CarStatus>, featured: Option<bool>): (r: Car)
    ensures r.status == (if status.Some? then status.value else car.status)
    ensures r.featured == (if featured.Some? then featured.value else car.featured)
    ensures r.(status := car.status, featured := car.featured) == car
  {
    var withStatus := if status.Some? then car.(status := status.value) else car;
    if featured.Some? then withStatus.(featured := featured.value) else withStatus
  }

  /** `updateCarStatus`. Only a signed-in admin gets past the guard; an unknown
      id fails with the ORM's not-found error. Otherwise only the supplied
      fields of that one row change. */
  method UpdateCarStatus(
    db: Database, requester: Option<string>, id: string, status: Option<CarStatus>, featured: Option<bool>)
    returns (r: Response<()>)
    requires db.Valid()
    modifies db`cars
    ensures db.Valid()
    ensures requester.None? ==> r == Failure(UnauthorizedMessage) && db.cars == old(db.cars)
    ensures requester.Some? && !IsAdmin(requester, db.users) ==>
      r == Failure(AdminRequiredMessage) && db.cars == old(db.cars)
    ensures IsAdmin(requester, db.users) ==>
      match CarIndex(old(db.cars), id)
      case None => r == Failure(RecordToUpdateNotFoundMessage) && db.cars == old(db.cars)
      case Some(k) =>
        r == Success(())
        && db.cars == old(db.cars)[k := ApplyStatusUpdate(old(db.cars)[k], status, featured)]
  {
    if requester.None? {
      return Failure(UnauthorizedMessage);
    }
    if !IsAdmin(requester, db.users) {
      return Failure(AdminRequiredMessage);
    }
    var found := CarIndex(db.cars, id);
    if found.None? {
      return Failure(RecordToUpdateNotFoundMessage);
    }
    var k := found.value;
    db.cars := db.cars[k := ApplyStatusUpdate(db.cars[k], status, featured)];
    r := Success(());
  }
}
