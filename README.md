# Car marketplace server actions, modelled in Dafny

This project models the server actions of a used-car marketplace built on
Next.js. An admin adds cars, and each car's pictures are uploaded to an
object-storage bucket. Buyers search the inventory and book test drives. Two
files hold the decision logic:

- `actions/cars.js` holds the inventory actions:
  - `processCarImageWithAI` cleans and validates a vision model's JSON reply.
  - `addCar` validates the submitted data-URL images, names each upload
    `cars/<carId>/image-<time>-<index>.<ext>`, uploads them and writes the
    car row with their public URLs.
  - `getCars` is a case-insensitive search, newest first.
  - `deleteCar` removes the row and then, on a best-effort basis, empties
    the car's storage folder, which it finds from the first image URL.
  - `updateCarStatus` is a partial update that only an admin may make.
- `actions/test-drive.js` holds the booking actions:
  - `bookTestDrive` checks that the car is available and the slot is free,
    then inserts a `PENDING` booking.
  - `getUserTestDrives` lists the caller's bookings, latest date first.
  - `cancelTestDrive` checks that the booking exists, the authorisation and
    the status, then sets the status to `CANCELLED`.

The ORM's tables are the fields of a `Database` object, with the rows in
insertion order. The storage bucket is a `Bucket` object that holds a set of
object paths. The actions are methods that change these objects, and their
postconditions state the whole new state. The string handling is written as
pure functions: the fence stripping, JavaScript's `trim`, the regular
expressions, the paths and the URLs. So are the queries: the `where` filter
and the `orderBy ... desc` ordering.

Some outside inputs become parameters of the model:

- the signed-in identity (`auth()`);
- the clock (`Date.now()`, the `createdAt` default);
- the generated ids (`uuidv4()`, the booking id);
- the outcome of each storage call;
- `JSON.parse`;
- the URL parser.

The modules are:

- `Envelope`: the `{ success, data | error }` envelope and a thrown error.
- `Text`: the JavaScript string operations the actions use.
- `Ordering`: the generic filter, and a stable descending sort with its
  commutation lemma.
- `Store`: the rows, the `Database` and `Bucket` classes, and primary-key
  lookup.
- `AiResponse`: `processCarImageWithAI`.
- `ImagePaths`: data URLs, extensions, object paths, public URLs and the
  folder key.
- `CarActions`: the inventory actions.
- `TestDriveActions`: the booking actions.

## Where the code works against its own callers

In both places below, the model follows the code as written.

- **The cancel authorisation.** The admin test-drive list hands
  `cancelTestDrive` to the card of every booking it shows, whoever made the
  booking (`app/(admin)/admin/test-drives/_components/test-drive-list.jsx:46-51`
  and `:151`). So admins are evidently meant to cancel other users'
  bookings. But the test at `actions/test-drive.js:148` refuses the request
  when the booking is not the caller's *or* the caller is not an admin. So
  only an admin who owns the booking gets past it, and an ordinary user
  cannot cancel their own booking either. `TestDriveActions.CancelAuthorized`
  models the test as written and states its simplified form, and
  `TestDriveActions.OnlyAdminOwnerCancels` states the two consequences.
- **A model reply that lacks a required key.** `actions/cars.js:108-110`
  builds an error that names the missing fields. It is raised inside the
  `try` whose `catch` at `actions/cars.js:118-124` discards it and returns
  the generic `Failed to parse AI response`. So the list of missing fields
  never reaches the caller, and `AiResponse.ProcessCarImageWithAI` states
  exactly that.

## Model

| member | source | states |
|---|---|---|
| AiResponse.ProcessCarImageWithAI | actions/cars.js:21-130 | A missing or empty API key, or a failed model call, is thrown as `Gemini API error:` plus the message. A reply succeeds exactly when its cleaned text parses to an object holding all eleven required keys (`seats` is not one of them), and the parsed object is returned unchanged. Every other reply gets the generic `Failed to parse AI response`. |
| AiResponse.MissingFields | actions/cars.js:103-105 | The missing fields are exactly the required keys that the object lacks. |
| AiResponse.MissingFieldsEmpty | actions/cars.js:107-111 | The missing-field list is empty exactly when every required key is present. |
| AiResponse.StripFenceMarkers | actions/cars.js:82 | The global replacement of the fence pattern, scanning left to right: each triple backtick goes, together with an optional `json` right after it and then an optional newline. The result is never longer than the reply. The lemmas below state what it keeps and what it removes. |
| AiResponse.CleanResponseText | actions/cars.js:82 | After the replacement and `trim()`, no triple backtick is left anywhere in the cleaned text. |
| AiResponse.StripWithoutBackticks | actions/cars.js:82 | Text without a backtick passes the fence replacement unchanged. |
| AiResponse.CleanWithoutBackticks | actions/cars.js:82 | The cleaned form of text without a backtick is its plain trim. |
| AiResponse.KeepsNonBacktickHead | actions/cars.js:82 | A first character that is not a backtick survives the replacement, in front of the rest. |
| AiResponse.StripLeavesNoFence | actions/cars.js:82 | No triple backtick is left after the global replacement. |
| AiResponse.SliceKeepsNoFence | actions/cars.js:82 | Trimming a fence-free string cannot create a triple backtick. |
| AiResponse.TrimmedStripLeavesNoFence | actions/cars.js:82 | Trimming the stripped text keeps it free of triple backticks. |
| AiResponse.StripBeforeClosingFence | actions/cars.js:82 | A closing triple backtick is removed, and a body without backticks before it is kept unchanged. |
| AiResponse.CleanFencedReply | actions/cars.js:82 | A reply wrapped in a fence that opens with `json` and a newline is cleaned to its trimmed body, so the JSON between the fences reaches the parser intact. |
| Text.TrimStart | actions/cars.js:82 | The front half of `trim()`: the result is a suffix of the input that does not start with ECMAScript white space, and everything dropped is white space. |
| Text.TrimEnd | actions/cars.js:82 | The back half of `trim()`: the result is a prefix of the input that does not end with white space, and everything dropped is white space. |
| Text.Decimal | actions/cars.js:265 | `${n}` for a time stamp or an index is a non-empty run of decimal digits. |
| ImagePaths.IsValidImage | actions/cars.js:251 | The entry the loop keeps: present, not empty, and starting with `data:image/`. Its consequences are stated by `CarActions.ValidIndices` and `CarActions.UploadPathsFollowValidEntries`. |
| ImagePaths.AlnumPrefix | actions/cars.js:261 | The greedy `[a-zA-Z0-9]+` run: a prefix of the input made of letters and digits, followed by the end of the input or by another character. |
| ImagePaths.MimeMatchAt | actions/cars.js:261 | A match of `data:image\/([a-zA-Z0-9]+);` at one position captures a non-empty run of letters and digits. |
| ImagePaths.MimeSubtype | actions/cars.js:261 | The leftmost match's group is a non-empty run of letters and digits. |
| ImagePaths.ExtensionOf | actions/cars.js:261-262 | The extension is either `jpeg` or a non-empty run of letters and digits. |
| ImagePaths.ExtensionOfImageDataUrl | actions/cars.js:261-262 | For `data:image/<subtype>;...`, the extension is exactly `<subtype>`. |
| ImagePaths.NonSlashPrefix | actions/cars.js:502 | The greedy `[^/]+` run: a slash-free prefix of the input, followed by the end of the input or by a slash. |
| ImagePaths.FolderKey | actions/cars.js:502 | A folder key found in a pathname is `cars/` followed by a non-empty name without a slash. |
| ImagePaths.FolderKeySkipsPrefix | actions/cars.js:502 | No match can start inside a prefix that has no `-` and no slash among its last four characters, so the search moves past it. The public-object route is such a prefix. |
| ImagePaths.FolderKeyRoundTrip | actions/cars.js:502 | For an id without a slash, the folder key read back from the public pathname of `cars/<carId>/<file>` is `cars/<carId>`, the folder that `addCar` writes to (`actions/cars.js:238`, `266`, `281`). |
| ImagePaths.CarFolderObject | actions/cars.js:502-528 | An object named `cars/<carId>/<name>` lies directly in the folder that the cleanup lists and empties, and its URL yields that folder's key. |
| ImagePaths.FileNameHasNoSlash | actions/cars.js:265 | `image-<time>-<i>.<ext>` never contains a slash. |
| CarActions.ValidIndices | actions/cars.js:247-254 | The indices of the entries the loop does not skip, in increasing order. An entry is skipped exactly when it is absent, empty or not a `data:image/` URL. |
| CarActions.UploadPaths | actions/cars.js:247-283 | The storage paths uploaded for the entries before `n`, in loop order. `CarActions.UploadStep` gives one step of it, and `CarActions.UploadPathsFollowValidEntries` shows it holds one path per valid entry. |
| CarActions.FirstFailure | actions/cars.js:247-278 | The entry at which the loop stops, if any: it lies in range, and it is a valid entry without a payload or one whose upload fails. |
| CarActions.FirstFailureIsFirst | actions/cars.js:247-278 | Every entry before that one (or every entry, when there is none) passes. |
| CarActions.UploadPathsFollowValidEntries | actions/cars.js:247-284 | Exactly one upload per valid entry, in input order. Each file name carries the entry's own index in `images`, not its rank among the valid entries. |
| CarActions.UploadPathInCarFolder | actions/cars.js:264-266 | The object uploaded for an entry lies directly in `cars/<carId>`. |
| CarActions.UploadsSitInCarFolder | actions/cars.js:247-284 | Every object that `addCar` uploads lies directly in `cars/<carId>`. |
| CarActions.UploadStep | actions/cars.js:247-284 | One pass of the loop: a valid entry adds its path to the uploads, and any other entry adds nothing. |
| CarActions.AppendFreshCar | actions/cars.js:291-293 | A row whose id is not yet in the table keeps the ids unique. |
| CarActions.UploadEntry | actions/cars.js:248-283 | One pass of the loop. A skipped entry changes nothing. An entry without a payload, or whose upload fails, stops the loop and changes nothing. Otherwise the entry's object is added to the bucket and its public URL is returned. |
| CarActions.UploadImages | actions/cars.js:245-284 | The loop stops at the first failing entry, leaving the objects uploaded before it in the bucket. Otherwise all entries are processed. The URLs returned are the public URLs of the uploads, in order. |
| CarActions.AddCar | actions/cars.js:224-318 | A caller who is not signed in, or not in the user table, changes nothing. A failing entry leaves no car row, and neither does having no valid image. Otherwise exactly one row is appended, with id `carId`, the submitted attributes and the upload URLs in order. Every failure is thrown with the `Error adding car:` prefix, and the car ids stay unique. |
| CarActions.CarMatches | actions/cars.js:369-374 | The search condition: the make, the model or the colour contains the term, ignoring ASCII case. An empty term matches every car, as `if (search)` leaves the `where` empty. |
| CarActions.GetCars | actions/cars.js:363-396 | The cars whose make, model or colour contains the term, ignoring ASCII case (every car for an empty term). They come newest first, and each matching row appears as often as in the table. |
| CarActions.GetCarsSearchFiltersAll | actions/cars.js:369-381 | A search returns the matching cars in the same order as the unfiltered listing. |
| CarActions.SearchIgnoresCase | actions/cars.js:371-373 | The case of the search term does not change the result. |
| CarActions.CleanupFolder | actions/cars.js:499-505 | The folder the cleanup targets is read from the first image URL. It exists only when there is an image, and it is always one car's folder: `cars/` followed by a non-empty name without a slash, never the bucket's root or a deeper folder. |
| CarActions.CleanupStorage | actions/cars.js:494-547 | The cleanup only removes objects. A fault, or a first URL that yields no folder key, leaves the bucket unchanged. Otherwise it removes exactly the objects that lie directly in the folder. |
| CarActions.RemoveCarRow | actions/cars.js:488-491 | Deleting by id removes exactly the car with that id, keeps every other row and keeps the ids unique. |
| CarActions.DeleteCar | actions/cars.js:470-561 | Any signed-in caller may delete, and no role is checked. An unknown id returns `Car not found` and changes nothing. Otherwise exactly that row is removed, and the action succeeds whatever the storage cleanup does. |
| CarActions.CleanupRemovesCarImages | actions/cars.js:498-528 | When a car's image URLs are the public URLs of objects in its own folder, a cleanup without a fault removes all of those objects. |
| CarActions.DeleteRemovesUploadedImages | actions/cars.js:498-528 | The round trip of the storage layout: deleting a car that `addCar` created removes every object `addCar` uploaded for it, provided the URL parser gives back the path after the base URL and there is no storage fault. |
| CarActions.ApplyStatusUpdate | actions/cars.js:576-590 | A supplied `status` or `featured` takes its new value, and an omitted one keeps its old value. No other field changes. |
| CarActions.UpdateCarStatus | actions/cars.js:563-603 | A caller who is not signed in, or not an admin, fails and changes nothing. An unknown id fails with the ORM's not-found error. Otherwise only the supplied fields of that one row change. |
| Store.IndexOf | actions/cars.js:476-479 | The lookup by primary key finds a row with that key, or reports that none exists. The car lookup of `deleteCar` and `updateCarStatus`, the car lookup of the bookings (`actions/test-drive.js:93-95`) and the booking lookup of `cancelTestDrive` (`actions/test-drive.js:137-139`) all use it. |
| Ordering.Filter | actions/cars.js:369-381 | The `where` filter keeps exactly the rows that satisfy the condition, each as often as in the table. |
| Ordering.SortDesc | actions/cars.js:378-381 | `orderBy: { key: "desc" }` gives a permutation of the rows, with the largest key first. |
| Ordering.FilterSortCommute | actions/cars.js:366-381 | Filtering and then ordering gives the same list as ordering and then filtering. |
| TestDriveActions.BookingKeepsSlotsExclusive | actions/test-drive.js:35-61 | Inserting a booking whose slot no `PENDING` or `CONFIRMED` booking holds keeps every car, day and start time held at most once. |
| TestDriveActions.BookTestDrive | actions/test-drive.js:8-78 | Each failing check returns its own message and writes nothing: not signed in, unknown user, car missing or not `AVAILABLE`, slot held by a `PENDING` or `CONFIRMED` booking (`endTime` is ignored). The action succeeds exactly when every check passes. It then appends one `PENDING` booking of the caller's user row, with absent or empty notes stored as null, and returns it. Slots stay exclusive. |
| TestDriveActions.UserBookings | actions/test-drive.js:91-97 | Exactly the given user's bookings, each as often as in the table, latest booking date first. |
| TestDriveActions.CarOf | actions/test-drive.js:93-95 | The included car is the car row with the booking's car id, or none when no such row exists. |
| TestDriveActions.ViewsFollowBookings | actions/test-drive.js:99-110 | Formatting neither adds nor drops bookings, and keeps the date order. |
| TestDriveActions.GetUserTestDrives | actions/test-drive.js:80-123 | The identity failures use the same messages as `bookTestDrive`. On success the list is the formatted result of the query: each row of the caller's user, as many times as it is in the table and nothing else, with its own car, latest booking date first. |
| TestDriveActions.WithStatus | actions/test-drive.js:171-174 | Only the status of that one booking changes. |
| TestDriveActions.CancelFreesSlot | actions/test-drive.js:156-174 | Cancelling a booking that holds its slot keeps slots exclusive and frees the slot for a new booking. |
| TestDriveActions.CancelAuthorized | actions/test-drive.js:148 | The authorisation test as written lets a request through exactly when the booking is the caller's and the caller is an admin. |
| TestDriveActions.OnlyAdminOwnerCancels | actions/test-drive.js:148-153 | An ordinary user cannot cancel even their own booking, and an admin cannot cancel anybody else's. |
| TestDriveActions.CancelTestDrive | actions/test-drive.js:125-190 | The guards run in the order of the source: identity, unknown booking, authorisation, already `CANCELLED`, `COMPLETED`. Each failure returns its message and changes nothing. Otherwise only that booking's status becomes `CANCELLED`, and slots stay exclusive. |

## Left out

- The Gemini call, `fileToBase64` and the prompt (`actions/cars.js:14-18`, `29-81`) are foreign API calls. The model's reply, or the message of the error it raised, is a parameter.
- `JSON.parse` is a parameter from the cleaned text to an optional JSON value. A parse error is `None`.
- `auth()` from Clerk is the `requester` parameter, the signed-in identity or none. The user row is looked up by that key in `Database.users`.
- `revalidatePath` and `console.*` are left out. They have no effect on the results or the state modelled here.
- `CarActions.AddCar` does not model a failure of `cookies()` or of the construction of the storage client (`actions/cars.js:241-242`). Such a failure would be thrown as `Error adding car:` plus its message, before any upload. In `deleteCar` the same failure is modelled, as the fault `ClientFails`, which the storage `try` swallows.
- `uuidv4()`, `Date.now()`, the database's `createdAt` default and the booking id it generates are parameters. The requires clauses say the ids are fresh.
- `serializeCarData` is taken as the identity on rows. Dates are integers, not ISO strings, and `updatedAt` is not part of the rows.
- Concurrency is not modelled. Two `bookTestDrive` calls can interleave between the slot check and the insert. The model runs the actions one at a time, and the exclusive-slot invariant is proved only for that case.
- `actions/settings.js` and the UI components are not part of this model.
- `new Date(bookingDate)` is taken as an already parsed day (an integer). An unparsable date is not modelled.
- The upload of one image is atomic: it adds its object or fails with a message given by the `uploadError` parameter. The decoded bytes, `Buffer.from` and the content type are not modelled.
- `CarActions.CleanupStorage` removes every object directly in the folder. The storage client's `list` returns at most 100 entries by default, so a folder with more objects keeps the rest. `remove` is modelled as all or nothing.
- `CarActions.DeleteCar`: a URL that does not parse is modelled by the `pathname` parameter returning none. `new URL` would then throw inside the storage `try`, and the result is the same: the bucket is unchanged and the action succeeds.
- `CarActions.GetCars` always succeeds. The `{ success: false }` envelope for a database error is not modelled, because no database error is modelled.
- `CarActions.UpdateCarStatus`: the not-found error carries a short stand-in for the ORM's message, whose exact wording belongs to the ORM.
- `CarActions.AddCar`: the error message for a valid data URL without a comma is Node's `TypeError` message for `Buffer.from(undefined, "base64")`, as a constant.
- `Text.Lower` folds only ASCII letters. The database's case-insensitive match folds more of Unicode.
- `Ordering.SortDesc` is stable: rows with equal keys keep their table order. The database does not promise an order for ties. `Ordering.SortDesc`, `CarActions.GetCars` and `TestDriveActions.UserBookings` state only sortedness and the permutation, which hold for any tie order.
- `CarActions.GetCarsSearchFiltersAll` and `Ordering.FilterSortCommute` state exact list equality. That holds for the model's stable tie order, and for any order when the `createdAt` values are distinct. It is not promised when two cars share a `createdAt` and the database breaks the tie differently in the two queries.
- `TestDriveActions.CarOf`: the booking's `car` relation is an optional lookup in the car table, because the model does not enforce foreign keys.
