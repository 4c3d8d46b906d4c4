# Hotel booking app: user store and client list logic, in Dafny

This project models the stateful core of a mobile hotel-booking application:

- **The backend's user store** (`backend/index.js`): the SQLite `users` table
  (AUTOINCREMENT id, NOT NULL username, NOT NULL UNIQUE email, NOT NULL password
  holding a bcrypt hash) and its two request handlers. `POST /register` refuses a
  missing or empty field with 400 "All fields are required" and a stored email
  with 400 "Email already exists"; otherwise it inserts the row and answers with
  `{id, username, email}`. `GET /user/:id` answers with the row's public columns
  or with 404 "User not found". The table is a class `UserStore.UserTable` whose
  methods `Register` and `GetUser` follow the handlers' early returns and are
  proved equal to the value-level functions `Registration` and `Lookup`. The
  properties are proved about those functions: the table's constraints
  (email uniqueness among them) hold after every request, every failure leaves
  the table unchanged, ids grow strictly and are never reused across any series
  of registrations, and a registered user can be fetched by the id returned.
- **The "My Booking" screen** (`components/MyBookingScreen.tsx`): the tab filter
  ("Upcoming" shows status `booked`, "Cancelled" shows status `cancelled`,
  "Completed" shows nothing), the local `prev.map(...)` update that marks a
  booking cancelled after a successful PATCH, and the screen state
  (`bookings`, `tab`, `loading`, `userId`) as a class.
- **The "Favorite" screen** (`components/FavoritesScreen.tsx`): the uid fallback
  chain (stored `"userId"`, else the `id` of the stored `"user"` object), the
  empty list on every failed or skipped fetch, `loading` false at the end of
  every path, and removal by id after a successful DELETE.

HTTP responses, AsyncStorage reads, `JSON.parse`, bcrypt and storage-engine
failures are inputs of the operations: a response or read outcome is a
parameter, bcrypt is a function parameter of each registration (a fresh salt
is a fresh function, so nothing assumes two hashes of one password agree), and
a storage or hashing failure is a `fault` message that the handler returns with
status 500.

Files: `common.dfy` (module `Common`: `Option`, `Alert`, `HttpOutcome`, the
subsequence relation and the generic order-preserving `Filter`),
`user_store.dfy` (module `UserStore`), `my_bookings.dfy` (module
`MyBookings`), `favorites.dfy` (module `Favorites`).

The client calls `/login`, `/bookings/:id`, `PATCH /booking/:id` and the
`/favorites` endpoints, but the backend contains no handler for any of them;
the model follows the code and describes only the two handlers that exist,
and treats the answers of the others as inputs of the client operations.

## Model

| member | source | states |
|---|---|---|
| `Common.Filter` | components/MyBookingScreen.tsx:56-59 | `Array.prototype.filter`: the result is an order-preserving subsequence of the input, every kept element passes the test, every passing element is kept, and each element occurs as often as in the input if it passes and not at all otherwise |
| `UserStore.EmptyTable` | backend/index.js:20-27 | the freshly created `users` table is empty and satisfies the table's constraints |
| `UserStore.EmailTaken` | backend/index.js:24 | the UNIQUE constraint rejects an email exactly when some stored row has that email (exact, case-sensitive comparison) |
| `UserStore.FindById` | backend/index.js:56 | `WHERE id=?` finds nothing exactly when no row has the id; what it finds is a stored row with that id |
| `UserStore.FindByIdFindsRow` | backend/index.js:21-22 | with the primary key unique, the lookup of a stored row's id returns that very row |
| `UserStore.Registration` | backend/index.js:33-53 | missing/empty field gives 400 "All fields are required" and duplicate email gives 400 "Email already exists", and a bcrypt or storage fault gives 500 with its message, all with the table unchanged; success happens exactly when the fields are present, nothing failed and the email is new; every failure leaves the table unchanged; a success appends exactly one row holding the hash of the password and answers `{id, username, email}` echoing the inputs; the new id exceeds every earlier id; the table's constraints (unique emails, increasing ids) still hold |
| `UserStore.Lookup` | backend/index.js:55-61 | a fault gives 500 with its message; 404 "User not found" exactly when no row has the id; a 200 answer carries the public columns of a stored row with that id |
| `UserStore.LookupStoredRow` | backend/index.js:56-59 | every stored row is returned by `GET /user/:id` with its id, username and email only |
| `UserStore.RegisterThenLookup` | backend/index.js:39-59 | after a successful registration, fetching the returned id answers 200 with the same `{id, username, email}` |
| `UserStore.SecondRegistrationRejected` | backend/index.js:41-43 | registering an already registered email fails with "Email already exists" and leaves the first account's table untouched |
| `UserStore.RegisterAll` | backend/index.js:33-53 | a series of registrations keeps the table's constraints and never lowers the next id |
| `UserStore.RegisteredIdsIncrease` | backend/index.js:22 | across any series of registrations, the ids returned by successful ones increase strictly and lie between the old and the new next id, so no id is reused |
| `UserStore.UserTable.constructor` | backend/index.js:20-27 | the table starts empty with next id 1 |
| `UserStore.UserTable.Register` | backend/index.js:33-53 | the handler with its early returns yields exactly the response and new table of `Registration` and keeps the table valid |
| `UserStore.UserTable.GetUser` | backend/index.js:55-61 | the handler yields exactly the response of `Lookup` and changes nothing |
| `MyBookings.FilteredBookings` | components/MyBookingScreen.tsx:56-59 | the listed bookings are an order-preserving subsequence of `bookings`, all shown on the tab, and every booking shown on the tab is listed as often as it occurs |
| `MyBookings.TabsListStatuses` | components/MyBookingScreen.tsx:56-59 | "Upcoming" lists exactly the bookings with status `booked` and "Cancelled" exactly those with status `cancelled`, in order (against an independent recursive definition) |
| `MyBookings.CompletedTabEmpty` | components/MyBookingScreen.tsx:56-59 | "Completed" always lists nothing |
| `MyBookings.MarkCancelled` | components/MyBookingScreen.tsx:70-72 | the update keeps length, order and every id; a booking with the id gets status `cancelled` and no other change; every other booking is unchanged |
| `MyBookings.MarkCancelledIdempotent` | components/MyBookingScreen.tsx:70-72 | applying the update twice equals applying it once |
| `MyBookings.MarkCancelledAbsent` | components/MyBookingScreen.tsx:70-72 | cancelling an id no booking has leaves the list unchanged |
| `MyBookings.CancelledBookingChangesTab` | components/MyBookingScreen.tsx:56-72 | after the update no booking with that id is listed under "Upcoming" and each booking that had it is listed, cancelled, under "Cancelled" |
| `MyBookings.MyBookingsScreen.constructor` | components/MyBookingScreen.tsx:23-26 | initial state: no bookings, tab 0, loading, no user id |
| `MyBookings.MyBookingsScreen.UserIdLoaded` | components/MyBookingScreen.tsx:30-35 | the user id is set only when one was stored; nothing else changes |
| `MyBookings.MyBookingsScreen.SelectTab` | components/MyBookingScreen.tsx:163-164 | a tab press sets the tab and nothing else |
| `MyBookings.MyBookingsScreen.LoadBookings` | components/MyBookingScreen.tsx:43-53 | without a user id nothing is requested or changed; otherwise the request is for that id, loading ends false, a list body replaces `bookings`, a `null` body gives the empty list, and a failed request leaves `bookings` unchanged |
| `MyBookings.MyBookingsScreen.CancelBooking` | components/MyBookingScreen.tsx:61-77 | an ok PATCH applies `MarkCancelled` and alerts success; a non-ok or failed PATCH leaves `bookings` unchanged and alerts the error; tab, loading and user id are unchanged; after an ok PATCH on "Upcoming" no rendered booking has that id |
| `Favorites.ResolveUid` | components/FavoritesScreen.tsx:30-47 | a resolved uid is never falsy; a truthy stored "userId" wins; otherwise the uid is the stored "user" object's non-empty `id`, or there is none; an exception arises exactly from a failed read or from a stored "user" that is not valid JSON or is `null` (a primitive or array yields no uid without throwing) |
| `Favorites.FetchedFavorites` | components/FavoritesScreen.tsx:52-63 | a failed or non-ok request gives the empty list; an ok list body gives that list; a non-empty result only comes from an ok list body |
| `Favorites.WithoutId` | components/FavoritesScreen.tsx:77 | no favorite with the id remains; every favorite with another id remains, in the original order, as often as before |
| `Favorites.RemoveAbsentUnchanged` | components/FavoritesScreen.tsx:77 | removing an id that no favorite has leaves the list unchanged |
| `Favorites.RemoveIdempotent` | components/FavoritesScreen.tsx:77 | removing the same id twice equals removing it once |
| `Favorites.FavoritesScreen.constructor` | components/FavoritesScreen.tsx:17-19 | initial state: no favorites, not loading, no user id |
| `Favorites.FavoritesScreen.FetchFavorites` | components/FavoritesScreen.tsx:26-67 | loading is false at the end of every path; a request is issued exactly when a uid resolves, and for that uid; the user id is set only then; favorites become the fetched list on success and the empty list with no uid, on an exception or on a failed, non-ok or `null` response |
| `Favorites.FavoritesScreen.RemoveFavorite` | components/FavoritesScreen.tsx:69-86 | an ok DELETE removes every favorite with the id; a non-ok or failed DELETE leaves the list unchanged; the alert matches each of the three outcomes; loading and user id are unchanged |

## Left out

- Express, cors, body-parser, the `GET /` test route, `app.listen` and the SQLite connection setup (backend/index.js:1-18, 29-30, 64-67): I/O plumbing.
- bcrypt internals: the hash is a function parameter, so that a stored hash differs from the plaintext password is bcrypt's property and is not proved.
- Which step of `POST /register` a storage or hashing failure happens in: any such failure is one `fault` input checked after the field check, answering 500 with its message and leaving the table unchanged.
- JSON request fields that are neither missing, `null` nor strings (numbers, booleans, objects): each body field is modelled as an optional string.
- The text-to-integer conversion of the `:id` path parameter: `GetUser` takes the id as an integer.
- Concurrent requests: the server handles one request after another; the interleaving of two registrations around the awaited bcrypt call is not modelled (the UNIQUE constraint decides either way).
- MyBookings.MyBookingsScreen.UserIdLoaded: does not model `Number(idString)` (components/MyBookingScreen.tsx:34), including `NaN`; it receives the converted number; a failed AsyncStorage read there only logs and is the same as no stored id.
- Response bodies that are neither a list nor `null` (an error object, for instance) for the bookings and favorites lists: those would reach the list state as non-lists in JavaScript and have no counterpart in the typed model.
- React's scheduling of state updates: each setter call is applied at once, in program order; overlapping requests are not modelled.
- `console.log` and `console.error` calls (components/FavoritesScreen.tsx:41, 44, 59, 62, 83; components/MyBookingScreen.tsx:37): logging only, with no effect on state.
- `Alert.alert` is recorded as its title and message; rendering, modals, styles and navigation are not modelled.
- Server endpoints that the client calls but the backend does not contain (login, bookings, booking cancellation, favorites), other screens, date and amount arithmetic, onboarding paging, client-side empty-field guards and `backend/viewusers.js`.
