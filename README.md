# Hour-slot reservations for coworking spaces, in Dafny

This project models the reservation engine of a coworking-space booking
service. The service runs as an AWS Lambda behind an HTTP API. A guest books
one-hour slots of a space on a date. Each slot is one item of the DynamoDB
table `reservation`. The item's key is the space id plus the text
`<date>T<HH>:00:00Z`. The item is written with a conditional `put_item`, so a
slot that is already held is never overwritten.

The model has four modules:

- `Wrappers` (`wrappers.dfy`): `Option`, and `Present`. `Present` is Python's
  truthiness of an optional string parameter.
- `SlotKeys` (`slot_keys.dfy`): how keys are built. It covers `f"{h:02d}"`,
  `str(h)` and the key format. A decoder reads a key back, and the proofs
  show that each key names exactly one (date, hour) pair.
- `Reservations` (`reservations.dfy`): the three tables and the five handlers
  of `reservations.py`.
  - The `reservation` table is a map from `SlotId` (`spaceId_reservation`,
    `datetime_reservation`) to the other attributes.
  - `coworking-spaces` and `users` are read-only maps.
  - The class `Store` holds the reservation map in a field. Its methods are
    the handlers: `AddReservation`, `CheckAvailability`, `CancelReservation`,
    `ListUserReservations` and `ListHosterReservations`.
  - The loops of `add_reservation` and `check_availability` are each
    specified by a recursive function, `Claims` and `Occupied`. Lemmas state
    what those functions guarantee.
- `Router` (`router.dfy`): the if/elif chain of `lambda_handler`, as a pure
  function from the HTTP method and `rawPath` to a handler or a 400.

The model follows the code as written:

- A request without `status` stores the literal status `reserved`.
- Keys end in `Z` (UTC).
- A slot conflict is a plain 400 whose message names the hour.
- An `add_reservation` whose `hours_reservation` is an empty list answers
  200 and writes nothing.

## Model

| member | source | states |
|---|---|---|
| `SlotKeys.HourTextShape` | reservations.py:64 | `int(hour):02d` pads a non-negative hour to at least two digits, exactly two below 100; a negative hour is a minus sign followed by digits |
| `SlotKeys.DigitsRoundTrip` | reservations.py:74 | the decimal digits of a natural number read back as that number |
| `SlotKeys.IntTextRoundTrip` | reservations.py:74 | `str(hour)`, stored as `hour_reservation`, reads back as the hour |
| `SlotKeys.HourTextRoundTrip` | reservations.py:64 | the two-digit hour inside a key reads back as the hour, including the zero-padded hours 0-9 |
| `SlotKeys.SlotKeyRoundTrip` | reservations.py:64 | decoding `date + "T" + HH + ":00:00Z"` gives back exactly the date and hour it was built from |
| `SlotKeys.SlotKeyInjective` | reservations.py:144 | two (date, hour) pairs share a key only if they are equal, so reads at line 144 and writes at line 64 address the same slot for the same hour and never a different one |
| `Reservations.Claims` | reservations.py:62-87 | the hour loop claims at most all hours; it stops with a conflict exactly when it claimed fewer than all, and the conflict names the first unclaimed hour |
| `Reservations.ClaimsFrom` | reservations.py:62-87 | one step of the loop: a present slot stops it with the table as is, an absent slot is inserted and the loop goes on with the next hour |
| `Reservations.ClaimsStep` | reservations.py:62-87 | the same step seen from the whole request, as the method's loop takes it: at a present slot the whole claim ends there, naming that hour |
| `Reservations.ClaimsKeepsExisting` | reservations.py:67-78 | the conditional put never overwrites: every item in the table before the loop is still there, unchanged, after it |
| `Reservations.ClaimsStopsAtFirstTaken` | reservations.py:62-87 | no claimed hour was taken (in the table or repeated earlier in the request), and the loop stops at the first taken hour |
| `Reservations.ClaimsWrites` | reservations.py:62-87 | every claimed hour has a new item with the request's `userId`, `status`, `date_reservation`, `str(hour)` and `created_at`; every other key of the result was already there, so hours after the conflict are never written and earlier ones are not rolled back |
| `Reservations.ClaimsStopsAtRepeatedHour` | reservations.py:62-87 | a request that lists an hour twice fails, at the second occurrence at the latest |
| `Reservations.ClaimsKeepsKeysMatchingRecords` | reservations.py:64-75 | if every stored item sits at the key named by its own `date_reservation` and `hour_reservation`, that still holds after the loop |
| `Reservations.OccupiedMembers` | reservations.py:141-154 | an hour is reported as a conflict if and only if it was requested and its slot is in the table |
| `Reservations.OccupiedExtend` | reservations.py:143-154 | one step of the availability loop appends the hour exactly when its slot is present |
| `Reservations.OccupiedCounts` | reservations.py:143-154 | `conflicts` keeps duplicates: an occupied hour appears as many times as it was requested, a free hour never |
| `Reservations.OccupiedEmpty` | reservations.py:156-161 | `available` (no conflicts) holds exactly when no requested slot is in the table |
| `Reservations.OccupiedWhenAllPresent` | reservations.py:141-154 | when every requested slot is present, `conflicts` is the request itself, in order |
| `Reservations.ClaimedHoursAreOccupied` | reservations.py:144 | write and read use the same key rule: right after a complete reservation, checking the same space, date and hours reports every hour, in order, as a conflict |
| `Reservations.ClaimedHoursListedForUser` | reservations.py:226-230 | every hour claimed for a user shows up among that user's reservations with the record written for it |
| `Reservations.CancelFreesOnlyThatHour` | reservations.py:199-204 | deleting one hour's slot removes that hour from `conflicts` and leaves the count of every other hour unchanged |
| `Reservations.ItemsOfUser` | reservations.py:226-230 | the scan returns exactly the stored items whose `userId` equals the parameter |
| `Reservations.HosterParam` | reservations.py:248 | `hosterId` is used when truthy, otherwise a truthy `coHosterId`; absent or empty both means no parameter |
| `Reservations.Store.constructor` | reservations.py:7-10 | the store starts from the given contents of the three tables |
| `Reservations.Store.AddReservation` | reservations.py:37-121 | a missing body key, an absent or unavailable space, or an unknown user gives its 400 message with the table unchanged; otherwise the table becomes the result of `Claims`, and the answer is 400 naming the conflicting hour or 200 with the success message, echoing space, date and hours |
| `Reservations.Store.CheckAvailability` | reservations.py:124-162 | missing `spaceId` or `date`, or empty or unparseable `hours`, gives 400; otherwise 200 with `conflicts` equal to `Occupied` and `available` true exactly when no requested slot is present; the table is not changed |
| `Reservations.Store.CancelReservation` | reservations.py:165-213 | missing parameters give 400; an absent item and another user's item give the same 400 with the table unchanged; otherwise exactly that key is deleted and the answer is 200 with the success message, echoing the key |
| `Reservations.Store.ListUserReservations` | reservations.py:216-242 | a missing or empty `userId` gives 400; otherwise 200 with the items of that user |
| `Reservations.Store.ListHosterReservations` | reservations.py:245-310 | no hoster parameter gives 400; otherwise every display item comes from a reservation of one of the hoster's spaces that passes the status filter, with `id` = `spaceId + "\|" + datetime`, `endDate` = `startDate` and missing names shown as `—`; every such reservation appears, and none appears twice |
| `Router.Route` | lambda_function.py:18-27 | a missing or empty method or `rawPath` is exactly the router's own 400 `MissingMethodOrPath`; an unsupported route echoes the method and path (the texts of both 400 answers are given by `Router.ErrorMessage`) |
| `Router.SuffixOfSuffix` | lambda_function.py:33-54 | of two suffixes of one path, the shorter is a suffix of the longer |
| `Router.NotBothSuffixes` | lambda_function.py:33-54 | a path cannot end with two suffixes when the shorter is not a suffix of the longer |
| `Router.SuffixesExclusive` | lambda_function.py:33-54 | no path ends with two of `/reservations`, `/reservations/availability`, `/reservations/user`, `/reservations/cohoster` |
| `Router.RouteFollowsTable` | lambda_function.py:31-61 | the chain picks a handler exactly when the order-free routing table accepts the method and path for it (POST or DELETE on `/reservations`; GET on `/reservations` or `/reservations/cohoster`, on `/reservations/availability`, or on `/reservations/user`), and answers "unsupported route" exactly when the table accepts it for none |

## Left out

- JSON decoding of request bodies and query strings, and `json.dumps` of answers. Inputs are already-decoded values and answers are a status code with a structured body. The 400 for a body that is not valid JSON (reservations.py:111-115, 165-172) is therefore not modelled. For `hours` in `check_availability`, `None` stands for an absent or undecodable parameter.
- Hours are modelled as integers. `int(hour)` on a string or float, and the exceptions it can raise, are not modelled.
- A `status` key present with a JSON `null` is not modelled: the request's `status` is either absent (then `reserved`) or a string.
- The 500 answers for store failures and unexpected exceptions (reservations.py:89-94, 116-121, 237-242, 312-317) are not modelled. Every store call succeeds, and `space_exists_and_available` never hits its exception branch.
- The DynamoDB clients and table singletons are not modelled. A conditional `put_item` is one atomic insert-if-absent step, and requests do not run concurrently in the model.
- `datetime.utcnow()` for `created_at` is the `createdAt` parameter. `decimal_default` (float conversion) and all logging are not modelled.
- Scans return their items in no particular order and without pagination. `ListUserReservations` returns a set. `ListHosterReservations` returns the items in an unspecified order and states membership and absence of duplicates rather than an order.
- `availability` is modelled as an optional boolean. Other truthy attribute values are not modelled.
- `lambda_handler` passing the event on to the chosen handler is not modelled beyond the choice of handler. A `requestContext` present as `null` (an uncaught error in the source) is not modelled.
- The 400 `Campo obrigatório ausente: 'body'` that `add_reservation` answers when the event has no `body` at all (reservations.py:39, 106-110) is not modelled, because the model starts from the decoded body.
