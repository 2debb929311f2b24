# Train booking backend, modelled in Dafny

This project models the in-memory core of a small train-ticket booking
system written in C++. The core has four parts:

- A `Train` keeps an ordered route of stops and, for each travel date, a
  vector with the seats left on each segment. Segment *i* runs from stop *i*
  to stop *i + 1*.
- A `SystemManager` holds the users by name, the trains by id and the
  logged-in user. It runs the search, booking and refund workflows.
- An `Order` records a booking. Its id is a timestamp followed by a counter.
- A user is either a `Passenger`, who has an order history, or an `Admin`,
  who has none.

Modules, one per concern:

| file | module | models |
|---|---|---|
| `options.dfy` | `Options` | the optional value used where the source has nullptr |
| `ordered_keys.dfy` | `OrderedKeys` | how a `std::map<string, …>` orders its keys, as a strictly increasing key sequence |
| `order.dfy` | `Orders` | `OrderStatus`, `Order`, the order-id formatting and counter (include/Order.h, src/Order.cpp) |
| `user.dfy` | `Users` | `Passenger` / `Admin`, `checkPassword`, `getRole`, `addOrder`, `cancelOrder` (include/User.h, src/User.cpp) |
| `train.dfy` | `Trains` | `Stop`, the route lookups, the `Train` class and its seat inventory (include/Train.h, src/Train.cpp) |
| `system_manager.dfy` | `Booking` | `SystemManager` and its workflows (include/SystemManager.h, src/SystemManager.cpp) |
| `scenario.dfy` | `Scenario` | the walk-through of src/test_main.cpp on the built-in fixture data |

### How the model is built

- **`Train` is a class.** It has `const` fields `trainId`, `trainType` and
  `totalSeats`, and mutable fields `route: seq<Stop>` and
  `seatInventory: map<string, seq<int>>`.
- **Its loops stay loops.** `hasTickets`, `bookTickets` and `releaseTickets`
  are methods with the source's loops.
- **Each method is proved against a value function.** Each method's
  `ensures` ties the new inventory to one function of the old state:
  `Materialize`, `AfterBooking` or `AfterRelease`.
- **The lemmas say what those functions guarantee.** Booking is all or
  nothing, bounds are kept, and release undoes booking.
- **Trains are stored by value.** `SystemManager` stores `map<string, Train>`
  by value, and the model does the same. Its `trains` field maps each id to
  a `TrainState`, the value a by-value copy of a `Train` holds.
- **A member call runs on a loaded copy.** When the manager calls a member
  function on a stored train, the model loads that value into a `Train`
  object, runs the method and stores the resulting state back. This is done
  by `CallHasTickets`, `CallBookTickets` and `CallReleaseTickets`.
- **Search results are copies.** `searchTrains` returns copies, so its
  result is a `seq<TrainState>`.
- **Map key order is kept explicitly.** `trainIds`, the sorted key sequence,
  stands for the iteration order of the `std::map`.
- **Users are values in a map.** `currentUser` is the key of the logged-in
  user, or `None` for nullptr.
- **The clock is an input.** The clock reading is a parameter (`Now`).
- **The id counter belongs to the process.** The function-local static
  counter of `generateOrderId` is an `OrderCounter` object. The manager is
  constructed with the process's counter and keeps it as `idCounter`, so all
  of its orders take their ids from that one counter.
- **Every history was issued by that counter.** `Valid()` states that each
  order id in a passenger's history carries, after its 14-digit timestamp, a
  counter value larger than the order before it and at most the counter's
  current value. Hence no id occurs twice in a history, and a second refund
  of an id fails.
- **Prices are `real`.**

## Model

| member | source | states |
|---|---|---|
| Orders.ZeroPad | src/Order.cpp:33-38 | `setw` pads to at least the width and never cuts the number's digits |
| Orders.TimestampPrefix | src/Order.cpp:32-37 | the timestamp part of an id is all digits |
| Orders.FormatOrderId | src/Order.cpp:31-40 | an id is all digits, starts with the timestamp, and the digits after the timestamp read back as the counter |
| Orders.OrderCounter.constructor | src/Order.cpp:27 | the counter starts at 0 |
| Orders.ZeroPadRoundTrip | src/Order.cpp:33-38 | a number printed with `setfill('0') << setw(w)` reads back as that number |
| Orders.ZeroPadShape | src/Order.cpp:33-38 | the padded form is all digits, exactly `w` long unless the number needs more digits |
| Orders.ZeroPadInjective | src/Order.cpp:38 | different counters never print the same padded field |
| Orders.DecimalRoundTrip | src/Order.cpp:32 | the year as a stream prints it reads back as the year |
| Orders.TwoDigitField | src/Order.cpp:33-37 | a month, day, hour, minute or second below 100 prints as exactly two digits |
| Orders.TimestampPrefixShape | src/Order.cpp:32-37 | for a valid local time with a four-digit year, the prefix is 14 digits (YYYYMMDDHHMMSS) |
| Orders.OrderIdLayout | src/Order.cpp:22-38 | with a counter of at most 9999 the id is 18 digits: the 14-digit timestamp, then the counter padded to 4 digits, which reads back as the counter |
| Orders.DistinctCountersGiveDistinctIds | src/Order.cpp:26-38 | two ids with equally wide timestamps and different counters differ, however large the counters are |
| Orders.OrderCounter.GenerateOrderId | src/Order.cpp:26-41 | the counter goes up by exactly one, and the id is the timestamp followed by the new counter |
| Orders.NewOrder | src/Order.cpp:14-19 | a new order is PAID, copies every argument unchanged, takes a fresh id from the counter and the creation time from the clock |
| Orders.SetStatus | include/Order.h:63 | the status becomes the given one and every other field stays as it was |
| Users.CheckPassword | include/User.h:43-45 | true iff the input equals the stored password |
| Users.Role | include/User.h:57-85 | "Passenger" exactly for a Passenger and "Admin" exactly for an Admin |
| Users.AddOrder | src/User.cpp:22-24 | the history grows by one, the new order is last and the earlier orders are unchanged |
| Users.FirstWithId | src/User.cpp:29-36 | the position of the first order with that id, or -1 exactly when no order has it |
| Users.FirstPaidWithId | src/SystemManager.cpp:145-147 | the position of the first PAID order with that id, or -1 exactly when there is none |
| Users.CancelOrder | src/User.cpp:29-36 | the first order with the id becomes CANCELLED whatever its status was; nothing else changes; without a match the passenger is unchanged |
| Users.CancelAdvancesPaidSearch | src/SystemManager.cpp:145-148 | once the first PAID order with an id is cancelled, the next search for that id finds only a later order, and none when the id occurs once |
| OrderedKeys.Insert | src/SystemManager.cpp:74-76 | storing under a key keeps the key sequence strictly increasing and adds exactly that key |
| OrderedKeys.Remove | src/SystemManager.cpp:78-85 | erasing a key keeps the sequence strictly increasing and removes exactly that key; an absent key changes nothing |
| OrderedKeys.SortedUnique | src/SystemManager.cpp:99-102 | a set of keys has only one strictly increasing ordering, so iteration order is determined by the keys |
| OrderedKeys.SortedPick | src/SystemManager.cpp:101-105 | keys picked at increasing positions of a strictly increasing sequence are strictly increasing |
| Trains.StationIndex | src/Train.cpp:31-38 | getStationIndex gives -1 or an index on the route |
| Trains.StationIndexSpec | src/Train.cpp:31-38 | getStationIndex gives the smallest index with that name, or -1 exactly when there is none |
| Trains.GetStationIndex | src/Train.cpp:31-38 | the linear search returns the index that StationIndex specifies |
| Trains.DepartureTime | src/Train.cpp:127-131 | the departure time of the first stop with that name, and "" when no stop has it |
| Trains.ArrivalTime | src/Train.cpp:136-140 | the arrival time of the first stop with that name, and "" when no stop has it |
| Trains.Price | src/Train.cpp:115-122 | the fare is 0 whenever a station is unknown or the pair is not forward |
| Trains.PriceOfFirstStops | src/Train.cpp:115-122 | for the first stops named A (at i) and B (at j), the pair is valid iff i < j, and the fare is then the difference of their cumulative prices, otherwise 0 |
| Trains.Train.constructor | src/Train.cpp:14-15 | a new train has the given id, type and seats, an empty route and no inventory |
| Trains.Train.State | include/Train.h:38-51 | the value a by-value copy of the train holds: the same id, type, seats, route and inventory |
| Trains.Train.FromState | src/SystemManager.cpp:74-76 | a train object built from a stored value holds exactly that value |
| Trains.Train.AddStop | src/Train.cpp:21-23 | the stop is appended, so the route lists stops in the order they were added; the inventory keeps its shape exactly when no date has been referenced |
| Trains.Train.HasTickets | src/Train.cpp:44-69 | answers whether the pair is valid and every segment in [s, e) has `count` seats, and leaves the inventory as Materialize says |
| Trains.Train.BookTickets | src/Train.cpp:75-89 | answers like hasTickets, and leaves the inventory as AfterBooking says |
| Trains.Train.ReleaseTickets | src/Train.cpp:96-109 | leaves the inventory as AfterRelease says; requires that the call does not read out of bounds |
| Trains.InvalidPairChangesNothing | src/Train.cpp:44-51 | an unknown or non-forward pair answers false and creates no inventory, and booking on it changes nothing |
| Trains.MaterializeShape | src/Train.cpp:53-58 | a valid pair on an unknown date adds one vector of route.size()-1 entries, each totalSeats; existing dates are untouched; nothing else is added |
| Trains.MaterializeKeepsSeats | src/Train.cpp:53-60 | creating a vector lazily changes the seats no date shows |
| Trains.MaterializeKeepsInvariant | include/Train.h:45-51 | lazy creation keeps one entry per segment per date, and keeps seat counts within [0, totalSeats] |
| Trains.BookingAllOrNothing | src/Train.cpp:75-89 | a failed booking changes no seat count anywhere; a successful one lowers exactly the segments [s, e) of that date by `count` |
| Trains.BookingKeepsBounds | src/Train.cpp:76-87 | with a non-negative count and seats within [0, totalSeats], booking keeps the shape and the bounds |
| Trains.NegativeCountOverfills | src/Train.cpp:85-87 | a negative count is accepted and pushes a segment above totalSeats |
| Trains.ReleaseKeepsBounds | src/Train.cpp:101-108 | releasing keeps the shape, and with a non-negative count keeps the bounds |
| Trains.ReleaseUndoesBooking | src/Train.cpp:75-109 | releasing what a successful booking took restores every date's seats |
| Trains.ReleaseUnknownDate | src/Train.cpp:100-101 | a release on a date that was never referenced changes nothing |
| Trains.PriceAdditive | src/Train.cpp:115-122 | for forward pairs A to B and B to C, the fare A to C is their sum |
| Trains.PriceNonNegative | src/Train.cpp:115-122 | with cumulative prices non-decreasing along the route, no fare is negative |
| Trains.NonForwardPair | src/Train.cpp:119 | the reverse of a valid pair is never valid and costs 0 |
| Trains.SameStationPair | src/Train.cpp:119 | on any route, a pair from a station to itself is never valid and costs 0 |
| Booking.BookedOrder | src/SystemManager.cpp:120-123 | the booked order is PAID, for the given user, priced at the pair's fare times the count, departing at the start station's time |
| Booking.PlaceOrder | src/SystemManager.cpp:121-123 | builds exactly the BookedOrder with the next id from the counter, and advances the counter by one |
| Booking.CallHasTickets | src/SystemManager.cpp:101-103 | hasTickets on a stored train answers HasSeats and leaves the train as Searched says |
| Booking.CallBookTickets | src/SystemManager.cpp:117-120 | bookTickets on a stored train answers HasSeats and leaves the train as Booked says |
| Booking.CallReleaseTickets | src/SystemManager.cpp:149-152 | releaseTickets on a stored train leaves it as Released says |
| Booking.VisitInOrder | src/SystemManager.cpp:101-106 | every train is left as its hasTickets call leaves it; the copies kept are those that answered yes, in visiting order, at increasing positions |
| Booking.StoreVisited | src/SystemManager.cpp:101-102 | after the visited trains are written back under their keys, every key holds its train as the call left it |
| Booking.PickedInOrder | src/SystemManager.cpp:99-108 | the kept copies are in key order, and a key is among them exactly when its train answered yes |
| Booking.SearchInOrder | src/SystemManager.cpp:99-108 | every train as hasTickets leaves it; the result holds, in key order, exactly the trains with a seat for the pair on the date, each as that call left it |
| Booking.RecordBooking | src/SystemManager.cpp:125-129 | a Passenger gets the order appended to the history and an Admin keeps nothing; no other user changes |
| Booking.FindPaidOrder | src/SystemManager.cpp:145-147 | the refund loop stops at the first PAID order with the id, or gives -1 |
| Booking.RefundTarget | src/SystemManager.cpp:142-147 | an Admin has no refundable order; a Passenger's is the first PAID order with the id |
| Booking.CancelAt | src/SystemManager.cpp:148 | that order becomes CANCELLED and the rest of the user is unchanged |
| Booking.RefundAgain | src/SystemManager.cpp:139-157 | a second refund of the same id finds only a later PAID order, and fails when the id occurs once |
| Booking.IssuedBounds | src/Order.cpp:27-38 | every id of an issued history carries a counter value between 1 and the counter's current value |
| Booking.IssuedDistinct | src/Order.cpp:27-38 | no two orders of an issued history share an id |
| Booking.IssuedLater | src/Order.cpp:38 | a history stays issued as the counter grows |
| Booking.IssuedSameIds | src/SystemManager.cpp:148 | whether a history is issued depends only on its ids, so a status change keeps it issued |
| Booking.IssuedAppend | src/User.cpp:22-24 | appending the order whose id carries the next counter value keeps the history issued |
| Booking.RecordKeepsIssued | src/SystemManager.cpp:121-129 | recording a booking whose id the counter issues next, with a valid local time and a four-digit year, keeps every history issued |
| Booking.CancelKeepsIssued | src/SystemManager.cpp:148 | cancelling an order keeps every history issued |
| Booking.RefundOnce | src/SystemManager.cpp:145-153 | in an issued history, once the order a refund finds is cancelled, no PAID order with that id is left |
| Booking.RefundTwice | src/SystemManager.cpp:139-157 | of two refunds of the same id, the first does what one refund does and the second fails and changes nothing |
| Booking.FixtureUsersKeyed | src/SystemManager.cpp:22-26 | the admin and user1 accounts are stored under their own names |
| Booking.FixtureKeyOrder | src/SystemManager.cpp:28-42 | G101 precedes K505 in the key order |
| Booking.NewG101 | src/SystemManager.cpp:29-33 | G101 "High-Speed" with 100 seats and the four stops Beijing, Jinan, Nanjing, Shanghai |
| Booking.NewK505 | src/SystemManager.cpp:37-41 | K505 "Normal" with 200 seats and the four stops Beijing, Shijiazhuang, Zhengzhou, Xi'an |
| Booking.SystemManager.constructor | src/SystemManager.cpp:21-43 | the two fixture users, nobody logged in, G101 and K505 stored under their ids with no inventory, and the given counter as the source of order ids |
| Booking.SystemManager.RegisterUser | src/SystemManager.cpp:49-55 | true iff the name is new; then a Passenger with an empty history is stored under it; otherwise nothing changes |
| Booking.SystemManager.Login | src/SystemManager.cpp:61-68 | returns the user and makes it current iff the name exists and the password matches; otherwise returns nothing and the current user stays |
| Booking.SystemManager.Logout | src/SystemManager.cpp:70-72 | nobody is logged in afterwards |
| Booking.SystemManager.GetCurrentUser | include/SystemManager.h:55 | the logged-in user's current record, or nothing iff nobody is logged in |
| Booking.SystemManager.AddTrain | src/SystemManager.cpp:74-76 | the train's state is stored under its id, replacing any train with that id; other entries are kept |
| Booking.SystemManager.DeleteTrain | src/SystemManager.cpp:78-85 | true iff the id was present; exactly that entry is removed |
| Booking.SystemManager.GetTrain | src/SystemManager.cpp:87-93 | the train stored under the id, which carries that id, or nothing iff absent |
| Booking.SystemManager.GetAllTrains | include/SystemManager.h:83 | exactly the stored trains, each under its own id |
| Booking.SystemManager.SearchTrains | src/SystemManager.cpp:99-108 | as SearchInOrder, on the manager's own map |
| Booking.SystemManager.BookTicket | src/SystemManager.cpp:114-133 | true iff someone is logged in, the train exists and it has `count` seats for the pair; without a user or train nothing changes; otherwise the train is left as bookTickets leaves it; on success the counter advances and the order goes where RecordBooking says |
| Booking.SystemManager.BookSeats | src/SystemManager.cpp:117-120 | the stored train runs bookTickets; only that entry changes |
| Booking.SystemManager.RecordOrder | src/SystemManager.cpp:121-129 | the order is built for the current user and recorded as RecordBooking says; the counter advances by one |
| Booking.SystemManager.RefundTicket | src/SystemManager.cpp:139-157 | true iff the current user is a Passenger with a PAID order with the id; then that first order becomes CANCELLED, no PAID order with the id is left, and, if its train is still stored, its seats are released on it; otherwise nothing changes |
| Booking.SystemManager.ReleaseOrder | src/SystemManager.cpp:149-152 | the order's train, if stored, is left as releaseTickets leaves it; no other train changes |
| Scenario.FixtureStations | src/SystemManager.cpp:29-41 | Beijing and Shanghai are stops 0 and 3 of G101, Shanghai is not on K505, and the fare is 553 |
| Scenario.FixtureSearch | src/test_main.cpp:27-30 | on the fixture, G101 has a seat from Beijing to Shanghai and gets the day's vector; K505 has none and is unchanged |
| Scenario.FixtureBookAndRelease | src/test_main.cpp:45-57 | one seat on G101 leaves 99 on each segment, and the refund brings back 100 |
| Scenario.LogInPassenger | src/test_main.cpp:9-24 | the admin logs in and out, then "testuser" registers and is logged in |
| Scenario.SearchFixture | src/test_main.cpp:26-32 | the search finds trains, G101 first |
| Scenario.BookFixture | src/test_main.cpp:34-43 | the booking succeeds and the passenger has exactly one order |
| Scenario.RefundFixture | src/test_main.cpp:52-57 | the refund succeeds and the order is CANCELLED |
| Scenario.TestLogic | src/test_main.cpp:5-61 | every assertion of testLogic holds, the only order ends CANCELLED with fare 553, and G101 ends with all 100 seats on every segment of the day |

## Left out

- Console output is not modelled: `operator<<` for trains and orders, `displayMenu`, and the `cout` lines of src/test_main.cpp.
- The Qt front end (src/MainWindow.cpp, include/MainWindow.h, src/main.cpp) is not part of this model.
- `loadData` and `saveData` are declared but never defined, so there is no persistence logic to model.
- `time(nullptr)` and `localtime` are not modelled. The clock reading is a parameter (`Now`): the broken-down local time and the epoch seconds.
- Single-threaded code: there is no concurrency or locking to model.
- Prices are `real`. Rounding of `double` is not modelled.
- `Orders.OrderCounter`: the function-local static counter of `generateOrderId` is an object, not a global. The manager holds the one it was constructed with.
- `Orders.OrderCounter.GenerateOrderId` requires that the counter is below 2^31 - 1. Incrementing a signed `int` past that is undefined behaviour.
- `Booking.SystemManager.BookTicket` has the same requires, for the counter it may advance.
- `Booking.SystemManager.BookTicket` also requires a clock reading that localtime could produce, with a four-digit year. The timestamp is then 14 digits, and the invariant that makes ids unique relies on that width. Years before 1000 or after 9999 are not modelled.
- `Trains.Train.ReleaseTickets` requires `Valid()` and `ReleaseDefined`. These rule out the two cases where the source reads out of bounds. `ReleaseDefined` rules out a known date with an unknown start station and a known end station; the loop would then start at index -1. `Valid()` rules out a date vector that is shorter than the route's segment count. That happens when a stop is added after the vector was created, and the loop then reaches the missing entry.
- `Trains.Train.BookTickets` and `Trains.Train.ReleaseTickets` do seat arithmetic on unbounded integers. In the source, `dailySeats[i] -= count` and `+= count` are 32-bit `int` operations. They overflow, which is undefined behaviour, when the count is near 2^31. A wrapped release could also bypass the cap at totalSeats. The model does not capture this.
- `Booking.SystemManager.RefundTicket` requires `RefundDefined`, the same condition for the train it would release. A train can be replaced under the same id by one whose route lacks the order's stations.
- `Trains.Train.HasTickets` and `Trains.Train.BookTickets` require `Valid()`, one entry per segment per date. `Trains.Train.AddStop` states when that is lost: a stop added after a date's vector exists leaves the vector one entry short.
- `Booking.SystemManager.AddTrain` requires the train to be `Valid()`, so that the manager's invariant holds for every stored train.
- `Booking.SystemManager.GetTrain` returns the stored value rather than a `Train*` into the map. Mutation through that `Train*` by callers outside the manager is not modelled. The manager's own mutations through it, in bookTicket and refundTicket, are modelled by storing the train's new state back.
- `Booking.SystemManager.Login` returns the user's record as it is at login. The source returns a `shared_ptr`, through which later changes to the user stay visible; `GetCurrentUser` gives the current record.
- `searchTrains` returns copies, as `TrainState` values. Calling member functions on those copies is modelled through `Trains.Price` and the other route functions on their fields.
- initTestData's two `addTrain` calls are modelled by storing the two trains' states directly under their ids. The result is what `AddTrain` would give.
- The default constructors `Train()` and `Order()` are not modelled. `std::map` uses `Train()` for `operator[]`, but every entry is immediately overwritten.
- `COMPLETED` is part of `OrderStatus`, but nothing in the core sets it.
- `Passenger::cancelOrder` is modelled (`Users.CancelOrder`), but refundTicket does not call it. refundTicket runs its own loop, which also checks for PAID; that loop is `FindPaidOrder` plus `CancelAt`.
- Order ids: the source comment describes the format as a timestamp plus a "4-digit counter" (src/Order.cpp:23). In the code, `setw(4)` only pads and never truncates. From counter 10000 on, the id is one character longer, and ids stay distinct for equally wide timestamps (`Orders.DistinctCountersGiveDistinctIds`). The model follows the code.
