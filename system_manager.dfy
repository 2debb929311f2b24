/**
 * The central controller (include/SystemManager.h, src/SystemManager.cpp):
 * users by name, trains by id, the logged-in user, and the booking and
 * refund workflows that tie a train's seat inventory to a passenger's order
 * history.
 */
module Booking {
  import opened Options
  import opened OrderedKeys
  import opened Orders
  import opened Users
  import opened Trains

  /** The ids of a list of trains, in list order. */
  function IdsOf(ts: seq<TrainState>): (ids: seq<string>)
    ensures |ids| == |ts|
    ensures forall i :: 0 <= i < |ts| ==> ids[i] == ts[i].trainId
  {
    seq(|ts|, i requires 0 <= i < |ts| => ts[i].trainId)
  }

  /** The route of the fixture train G101, Beijing to Shanghai. */
  function G101Stops(): seq<Stop>
  {
    [Stop("Beijing", "08:00", "08:00", 0.0, 0),
     Stop("Jinan", "09:30", "09:35", 150.0, 400),
     Stop("Nanjing", "11:30", "11:35", 350.0, 1000),
     Stop("Shanghai", "13:00", "13:00", 553.0, 1318)]
  }

  /** The route of the fixture train K505, Beijing to Xi'an. */
  function K505Stops(): seq<Stop>
  {
    [Stop("Beijing", "07:00", "07:00", 0.0, 0),
     Stop("Shijiazhuang", "10:00", "10:15", 50.0, 300),
     Stop("Zhengzhou", "13:00", "13:20", 120.0, 700),
     Stop("Xi'an", "18:00", "18:00", 200.0, 1200)]
  }

  /**
   * The order bookTicket records for `username`: PAID, the fare of the pair
   * times the count, and the start station's departure time.
   */
  function BookedOrder(orderId: string, username: string, route: seq<Stop>, trainId: string,
                       startStation: string, endStation: string, date: string, count: int,
                       createTime: int): (o: Order)
    ensures o.status == Paid && o.orderId == orderId && o.username == username
    ensures o.price == Price(route, startStation, endStation) * count as real && o.ticketCount == count
    ensures o.departureTime == DepartureTime(route, startStation)
  {
    Order(orderId, username, trainId, startStation, endStation, date,
          DepartureTime(route, startStation), Price(route, startStation, endStation) * count as real,
          count, Paid, createTime)
  }

  /**
   * The order bookTicket builds once the seats are taken
   * (src/SystemManager.cpp:121-123): the fare of the pair times the count,
   * the start station's departure time, and a fresh id from the counter.
   */
  method PlaceOrder(ids: OrderCounter, now: Now, username: string, route: seq<Stop>, trainId: string,
                    startStation: string, endStation: string, date: string, count: int)
    returns (o: Order)
    requires ids.counter < IntMax
    modifies ids
    ensures ids.counter == old(ids.counter) + 1
    ensures o == BookedOrder(FormatOrderId(now.local, ids.counter), username, route, trainId,
                             startStation, endStation, date, count, now.epochSeconds)
  {
    var price := Price(route, startStation, endStation) * count as real;
    var time := DepartureTime(route, startStation);
    o := NewOrder(ids, now, username, trainId, startStation, endStation, date, time, price, count);
  }
  /** Where a booking's order goes: a Passenger's history gets it, an Admin keeps nothing. */
  function RecordBooking(users: map<string, User>, name: string, o: Order): (r: map<string, User>)
    requires name in users
    ensures r.Keys == users.Keys
    ensures forall n :: n in users && n != name ==> r[n] == users[n]
    ensures users[name].Admin? ==> r == users
    ensures users[name].Passenger? ==> r[name] == AddOrder(users[name], o)
  {
    if users[name].Passenger? then users[name := AddOrder(users[name], o)] else users
  }

  /**
   * The search loop of refundTicket (src/SystemManager.cpp:145-147): the
   * position of the first PAID order with that id, or -1.
   */
  method FindPaidOrder(orders: seq<Order>, orderId: string) returns (index: int)
    ensures index == FirstPaidWithId(orders, orderId)
  {
    var i := 0;
    while i < |orders|
      invariant 0 <= i <= |orders|
      invariant forall j :: 0 <= j < i ==> !(orders[j].orderId == orderId && orders[j].status == Paid)
    {
      if orders[i].orderId == orderId && orders[i].status == Paid {
        return i;
      }
      i := i + 1;
    }
    return -1;
  }

  /** Which order refundTicket cancels: a Passenger's first PAID order with that id, or -1. */
  function RefundTarget(u: User, orderId: string): (k: int)
    ensures k == -1 || (u.Passenger? && 0 <= k < |u.orders|)
    ensures u.Admin? ==> k == -1
    ensures 0 <= k ==> u.orders[k].orderId == orderId && u.orders[k].status == Paid
  {
    if u.Passenger? then FirstPaidWithId(u.orders, orderId) else -1
  }

  /** The passenger after order `k` is cancelled in place. */
  function CancelAt(u: User, k: int): (r: User)
    requires u.Passenger? && 0 <= k < |u.orders|
    ensures r.Passenger? && r.(orders := u.orders) == u && |r.orders| == |u.orders|
    ensures r.orders[k] == SetStatus(u.orders[k], Cancelled)
    ensures forall j :: 0 <= j < |u.orders| && j != k ==> r.orders[j] == u.orders[j]
  {
    u.(orders := u.orders[k := SetStatus(u.orders[k], Cancelled)])
  }

  /**
   * After a refund, searching the same id again only finds a later PAID
   * order; when the id occurs once in the history, a second refund fails.
   */
  lemma RefundAgain(u: User, orderId: string)
    requires RefundTarget(u, orderId) >= 0
    ensures var k := RefundTarget(u, orderId);
      var again := RefundTarget(CancelAt(u, k), orderId);
      && (again == -1 || again > k)
      && ((forall j :: 0 <= j < |u.orders| && j != k ==> u.orders[j].orderId != orderId) ==> again == -1)
  {
    CancelAdvancesPaidSearch(u.orders, orderId);
  }

  /** The counter value an order id carries in the digits after its 14-digit timestamp. */
  function IdCounter(orderId: string): nat
  {
    if |orderId| < 14 then 0 else DigitsValue(orderId[14..])
  }

  /**
   * The history was issued in order by generateOrderId with 14-digit
   * timestamps: every id carries a counter value of at least 1, each larger
   * than the one before it, and the last at most `counter`.
   */
  ghost predicate IssuedBefore(orders: seq<Order>, counter: nat)
    decreases |orders|
  {
    |orders| == 0 ||
    var last := orders[|orders| - 1].orderId;
    && 14 <= |last| && 1 <= IdCounter(last) <= counter
    && IssuedBefore(orders[..|orders| - 1], IdCounter(last) - 1)
  }

  /** IssuedBefore for every passenger's history. */
  ghost predicate IssuedHistories(users: map<string, User>, counter: nat)
  {
    forall name :: name in users && users[name].Passenger? ==> IssuedBefore(users[name].orders, counter)
  }

  /** Every id of an issued history carries a counter value between 1 and `counter`. */
  lemma {:induction false} IssuedBounds(orders: seq<Order>, counter: nat)
    requires IssuedBefore(orders, counter)
    ensures forall i :: 0 <= i < |orders| ==> 1 <= IdCounter(orders[i].orderId) <= counter
    decreases |orders|
  {
    if |orders| > 0 {
      var prefix := orders[..|orders| - 1];
      IssuedBounds(prefix, IdCounter(orders[|orders| - 1].orderId) - 1);
      assert forall i :: 0 <= i < |prefix| ==> prefix[i] == orders[i];
    }
  }

  /** No two orders of an issued history share an id. */
  lemma {:induction false} IssuedDistinct(orders: seq<Order>, counter: nat)
    requires IssuedBefore(orders, counter)
    ensures forall i, j :: 0 <= i < j < |orders| ==> orders[i].orderId != orders[j].orderId
    decreases |orders|
  {
    if |orders| > 0 {
      var n := |orders| - 1;
      var prefix := orders[..n];
      var bound := IdCounter(orders[n].orderId) - 1;
      IssuedDistinct(prefix, bound);
      IssuedBounds(prefix, bound);
      forall i, j | 0 <= i < j < |orders|
        ensures orders[i].orderId != orders[j].orderId
      {
        assert orders[i] == prefix[i];
        if j < n {
          assert orders[j] == prefix[j];
        }
      }
    }
  }

  /** A history stays issued as the counter grows. */
  lemma IssuedLater(orders: seq<Order>, counter: nat, later: nat)
    requires IssuedBefore(orders, counter) && counter <= later
    ensures IssuedBefore(orders, later)
  {
  }

  /** Whether a history is issued depends only on its ids. */
  lemma {:induction false} IssuedSameIds(a: seq<Order>, b: seq<Order>, counter: nat)
    requires IssuedBefore(a, counter)
    requires |a| == |b| && forall i :: 0 <= i < |a| ==> a[i].orderId == b[i].orderId
    ensures IssuedBefore(b, counter)
    decreases |a|
  {
    if |a| > 0 {
      var n := |a| - 1;
      IssuedSameIds(a[..n], b[..n], IdCounter(a[n].orderId) - 1);
    }
  }

  /** Appending the order whose id carries the next counter value keeps the history issued. */
  lemma IssuedAppend(orders: seq<Order>, counter: nat, o: Order)
    requires IssuedBefore(orders, counter)
    requires 14 <= |o.orderId| && IdCounter(o.orderId) == counter + 1
    ensures IssuedBefore(orders + [o], counter + 1)
  {
    assert (orders + [o])[..|orders|] == orders;
  }

  /** Recording a booking whose id the counter issues next keeps every history issued. */
  lemma RecordKeepsIssued(users: map<string, User>, name: string, o: Order, counter: nat, t: DateTime)
    requires IssuedHistories(users, counter) && name in users
    requires IsLocalTime(t) && 1000 <= t.year <= 9999 && o.orderId == FormatOrderId(t, counter + 1)
    ensures IssuedHistories(RecordBooking(users, name, o), counter + 1)
  {
    TimestampPrefixShape(t);
    assert IdCounter(o.orderId) == counter + 1;
    var r := RecordBooking(users, name, o);
    forall n | n in r && r[n].Passenger?
      ensures IssuedBefore(r[n].orders, counter + 1)
    {
      if n == name {
        IssuedAppend(users[name].orders, counter, o);
      } else {
        IssuedLater(users[n].orders, counter, counter + 1);
      }
    }
  }

  /** Cancelling an order leaves every id in place, so the histories stay issued. */
  lemma CancelKeepsIssued(users: map<string, User>, name: string, k: int, counter: nat)
    requires IssuedHistories(users, counter) && name in users
    requires users[name].Passenger? && 0 <= k < |users[name].orders|
    ensures IssuedHistories(users[name := CancelAt(users[name], k)], counter)
  {
    IssuedSameIds(users[name].orders, CancelAt(users[name], k).orders, counter);
  }

  /**
   * In an issued history every id occurs at most once, so once the order a
   * refund finds is cancelled, a second refund of that id finds nothing.
   */
  lemma RefundOnce(u: User, orderId: string, counter: nat)
    requires u.Passenger? && IssuedBefore(u.orders, counter)
    requires RefundTarget(u, orderId) >= 0
    ensures RefundTarget(CancelAt(u, RefundTarget(u, orderId)), orderId) == -1
  {
    var k := RefundTarget(u, orderId);
    IssuedDistinct(u.orders, counter);
    forall j | 0 <= j < |u.orders| && j != k
      ensures u.orders[j].orderId != orderId
    {
      if j < k {
        assert u.orders[j].orderId != u.orders[k].orderId;
      } else {
        assert u.orders[k].orderId != u.orders[j].orderId;
      }
    }
    RefundAgain(u, orderId);
  }

  /** The two accounts of initTestData (src/SystemManager.cpp:23-26). */
  function FixtureUsers(): map<string, User>
  {
    map["admin" := Admin("admin", "admin123", "System Admin", "000000"),
        "user1" := Passenger("user1", "123456", "John Doe", "123456789012345678", [])]
  }

  /** Each fixture account is stored under its own name. */
  lemma FixtureUsersKeyed()
    ensures FixtureUsers().Keys == {"admin", "user1"}
    ensures forall name :: name in FixtureUsers() ==> FixtureUsers()[name].username == name
  {
  }

  /** G101 comes before K505 in the order std::map iterates its keys. */
  lemma FixtureKeyOrder()
    ensures Sorted(["G101", "K505"])
  {
    assert Less("G101", "K505");
  }

  /** Train t1 of initTestData: G101 "High-Speed", 100 seats (src/SystemManager.cpp:29-33). */
  method NewG101() returns (t: Train)
    ensures fresh(t) && t.Valid()
    ensures t.trainId == "G101" && t.trainType == "High-Speed" && t.totalSeats == 100
    ensures t.route == G101Stops() && t.seatInventory == map[]
  {
    t := new Train("G101", "High-Speed", 100);
    t.AddStop(Stop("Beijing", "08:00", "08:00", 0.0, 0));
    t.AddStop(Stop("Jinan", "09:30", "09:35", 150.0, 400));
    t.AddStop(Stop("Nanjing", "11:30", "11:35", 350.0, 1000));
    t.AddStop(Stop("Shanghai", "13:00", "13:00", 553.0, 1318));
  }

  /** Train t2 of initTestData: K505 "Normal", 200 seats (src/SystemManager.cpp:37-41). */
  method NewK505() returns (t: Train)
    ensures fresh(t) && t.Valid()
    ensures t.trainId == "K505" && t.trainType == "Normal" && t.totalSeats == 200
    ensures t.route == K505Stops() && t.seatInventory == map[]
  {
    t := new Train("K505", "Normal", 200);
    t.AddStop(Stop("Beijing", "07:00", "07:00", 0.0, 0));
    t.AddStop(Stop("Shijiazhuang", "10:00", "10:15", 50.0, 300));
    t.AddStop(Stop("Zhengzhou", "13:00", "13:20", 120.0, 700));
    t.AddStop(Stop("Xi'an", "18:00", "18:00", 200.0, 1200));
  }


  // ----- Member calls on a train held by value in the manager's map

  /** hasTickets on a stored train: the answer, and the train as the call leaves it. */
  method CallHasTickets(c: TrainState, date: string, startStation: string, endStation: string)
    returns (ok: bool, after: TrainState)
    requires Shaped(c.route, c.seatInventory)
    ensures ok == HasSeats(c, date, startStation, endStation, 1)
    ensures after == Searched(c, date, startStation, endStation)
    ensures Shaped(after.route, after.seatInventory)
  {
    var t := new Train.FromState(c);
    ok := t.HasTickets(date, startStation, endStation);
    after := t.State();
  }

  /** bookTickets on a stored train: the answer, and the train as the call leaves it. */
  method CallBookTickets(c: TrainState, date: string, startStation: string, endStation: string, count: int)
    returns (ok: bool, after: TrainState)
    requires Shaped(c.route, c.seatInventory)
    ensures ok == HasSeats(c, date, startStation, endStation, count)
    ensures after == Booked(c, date, startStation, endStation, count)
    ensures Shaped(after.route, after.seatInventory)
  {
    var t := new Train.FromState(c);
    ok := t.BookTickets(date, startStation, endStation, count);
    after := t.State();
  }

  /** releaseTickets on a stored train: the train as the call leaves it. */
  method CallReleaseTickets(c: TrainState, date: string, startStation: string, endStation: string, count: int)
    returns (after: TrainState)
    requires Shaped(c.route, c.seatInventory)
    requires ReleaseDefined(c.route, c.seatInventory, date, startStation, endStation)
    ensures after == Released(c, date, startStation, endStation, count)
    ensures Shaped(after.route, after.seatInventory)
  {
    var t := new Train.FromState(c);
    t.ReleaseTickets(date, startStation, endStation, count);
    after := t.State();
  }

  /**
   * The loop of searchTrains (src/SystemManager.cpp:101-106): visits the
   * trains `cs` in order, asks each hasTickets for one seat, keeps the train
   * as the call leaves it in `after`, and copies those that answer yes.
   * `picked` holds the positions of the copied trains.
   */
  method VisitInOrder(cs: seq<TrainState>, startStation: string, endStation: string, date: string)
    returns (result: seq<TrainState>, after: seq<TrainState>, ghost picked: seq<int>)
    requires forall j :: 0 <= j < |cs| ==> Shaped(cs[j].route, cs[j].seatInventory)
    ensures |after| == |cs|
    ensures forall j :: 0 <= j < |cs| ==> after[j] == Searched(cs[j], date, startStation, endStation)
    ensures |picked| == |result|
    ensures forall a :: 0 <= a < |picked| ==> 0 <= picked[a] < |cs| && result[a] == after[picked[a]]
    ensures forall a, b :: 0 <= a < b < |picked| ==> picked[a] < picked[b]
    ensures forall j :: 0 <= j < |cs| ==> (j in picked <==> HasSeats(cs[j], date, startStation, endStation, 1))
  {
    var i := 0;
    result, after, picked := [], [], [];
    while i < |cs|
      invariant 0 <= i <= |cs| && |after| == i
      invariant forall j :: 0 <= j < i ==> after[j] == Searched(cs[j], date, startStation, endStation)
      invariant |picked| == |result|
      invariant forall a :: 0 <= a < |picked| ==> 0 <= picked[a] < i && result[a] == after[picked[a]]
      invariant forall a, b :: 0 <= a < b < |picked| ==> picked[a] < picked[b]
      invariant forall j :: 0 <= j < i ==> (j in picked <==> HasSeats(cs[j], date, startStation, endStation, 1))
    {
      var ok, t := CallHasTickets(cs[i], date, startStation, endStation);
      after := after + [t];
      if ok {
        result := result + [t];
        picked := picked + [i];
      }
      i := i + 1;
    }
  }

  /** The values of `keys`, in key order. */
  function ValuesAt(m: map<string, TrainState>, keys: seq<string>): (vs: seq<TrainState>)
    requires forall j :: 0 <= j < |keys| ==> keys[j] in m
    ensures |vs| == |keys|
    ensures forall j :: 0 <= j < |keys| ==> vs[j] == m[keys[j]]
  {
    seq(|keys|, j requires 0 <= j < |keys| => m[keys[j]])
  }

  /** The map holding `vs[j]` under `keys[j]`: values written back under their keys. */
  function {:induction false} StoreAt(keys: seq<string>, vs: seq<TrainState>): (m: map<string, TrainState>)
    requires |keys| == |vs|
    requires forall j, j' :: 0 <= j < j' < |keys| ==> keys[j] != keys[j']
    ensures forall k :: k in m <==> k in keys
    ensures forall j :: 0 <= j < |keys| ==> m[keys[j]] == vs[j]
  {
    if |keys| == 0 then map[]
    else
      var rest := StoreAt(keys[1..], vs[1..]);
      assert forall j :: 1 <= j < |keys| ==> keys[1..][j - 1] == keys[j];
      rest[keys[0] := vs[0]]
  }

  /**
   * Writing the visited trains back under their keys: each key of `ts` then
   * holds its train as `visit` leaves it.
   */
  lemma StoreVisited(ids: seq<string>, ts: map<string, TrainState>, after: seq<TrainState>,
                     visit: TrainState -> TrainState)
    requires forall j, j' :: 0 <= j < j' < |ids| ==> ids[j] != ids[j']
    requires forall k :: k in ids <==> k in ts
    requires |after| == |ids|
    requires forall j :: 0 <= j < |ids| ==> after[j] == visit(ts[ids[j]])
    ensures StoreAt(ids, after).Keys == ts.Keys
    ensures forall k :: k in ts ==> StoreAt(ids, after)[k] == visit(ts[k])
  {
    var m := StoreAt(ids, after);
    forall k | k in ts
      ensures StoreAt(ids, after)[k] == visit(ts[k])
    {
      var j :| 0 <= j < |ids| && ids[j] == k;
    }
  }

  /**
   * The copies a loop over the keys `ids` keeps, at increasing positions
   * `picked`: their ids are in key order, and a key is among them exactly
   * when `answer` holds for its train.
   */
  lemma PickedInOrder(ids: seq<string>, ts: map<string, TrainState>, picked: seq<int>,
                      result: seq<TrainState>, answer: TrainState -> bool)
    requires Sorted(ids) && forall j, j' :: 0 <= j < j' < |ids| ==> ids[j] != ids[j']
    requires forall k :: k in ids <==> k in ts
    requires |picked| == |result|
    requires forall a :: 0 <= a < |picked| ==> 0 <= picked[a] < |ids| && result[a].trainId == ids[picked[a]]
    requires forall a, b :: 0 <= a < b < |picked| ==> picked[a] < picked[b]
    requires forall j :: 0 <= j < |ids| ==> (j in picked <==> answer(ts[ids[j]]))
    ensures Sorted(IdsOf(result))
    ensures forall k :: k in IdsOf(result) <==> k in ts && answer(ts[k])
  {
    SortedPick(ids, picked, IdsOf(result));
    forall k | k in ts
      ensures k in IdsOf(result) <==> answer(ts[k])
    {
      var j :| 0 <= j < |ids| && ids[j] == k;
      if k in IdsOf(result) {
        var a :| 0 <= a < |result| && IdsOf(result)[a] == k;
        assert picked[a] == j;
      }
      if j in picked {
        var a :| 0 <= a < |picked| && picked[a] == j;
        assert IdsOf(result)[a] == k;
      }
    }
  }

  /**
   * searchTrains on the map's values (src/SystemManager.cpp:99-108): every
   * train as its hasTickets call leaves it, and copies of those that answer
   * yes, in key order.
   */
  method SearchInOrder(ids: seq<string>, ts: map<string, TrainState>,
                       startStation: string, endStation: string, date: string)
    returns (result: seq<TrainState>, after: map<string, TrainState>)
    requires Sorted(ids) && forall k :: k in ids <==> k in ts
    requires forall k :: k in ts ==> ts[k].trainId == k && Shaped(ts[k].route, ts[k].seatInventory)
    ensures after.Keys == ts.Keys
    ensures forall k :: k in after ==> after[k] == Searched(ts[k], date, startStation, endStation)
    ensures forall k :: k in after ==> after[k].trainId == k && Shaped(after[k].route, after[k].seatInventory)
    ensures Sorted(IdsOf(result))
    ensures forall k :: k in IdsOf(result) <==> k in ts && HasSeats(ts[k], date, startStation, endStation, 1)
    ensures forall i :: 0 <= i < |result| ==> result[i].trainId in after && result[i] == after[result[i].trainId]
  {
    SortedDistinct(ids);
    var visited;
    ghost var picked;
    result, visited, picked := VisitInOrder(ValuesAt(ts, ids), startStation, endStation, date);
    after := StoreAt(ids, visited);
    ghost var visit := (c: TrainState) => Searched(c, date, startStation, endStation);
    ghost var answer := (c: TrainState) => HasSeats(c, date, startStation, endStation, 1);
    StoreVisited(ids, ts, visited, visit);
    forall a | 0 <= a < |result|
      ensures result[a].trainId == ids[picked[a]] && result[a] == after[ids[picked[a]]]
    {
    }
    PickedInOrder(ids, ts, picked, result, answer);
    forall k | k in after
      ensures Shaped(after[k].route, after[k].seatInventory)
    {
      MaterializeKeepsInvariant(ts[k].route, ts[k].totalSeats, ts[k].seatInventory, date, startStation, endStation);
    }
  }

  class SystemManager {
    /** map<string, shared_ptr<User>>: no entry is ever replaced or removed. */
    var users: map<string, User>
    /** map<string, Train>: the map holds each train by value. */
    var trains: map<string, TrainState>
    /** The keys of `trains` in the order a std::map iterates them. */
    var trainIds: seq<string>
    /** The logged-in user, by name; None for nullptr. */
    var currentUser: Option<string>
    /** The process-wide counter of generateOrderId, the one this manager's orders take their ids from. */
    const idCounter: OrderCounter

    ghost predicate Valid()
      reads this, idCounter
    {
      TrainsValid() && UsersValid()
    }

    /** Every train is stored under its own id and keeps its shape; the key sequence is sorted and complete. */
    ghost predicate TrainsValid()
      reads this`trains, this`trainIds
    {
      && (forall k :: k in trains ==> trains[k].trainId == k && Shaped(trains[k].route, trains[k].seatInventory))
      && Sorted(trainIds)
      && (forall k :: k in trainIds <==> k in trains)
    }

    /** Every user is stored under its name, the current user exists, and every history was issued by the counter. */
    ghost predicate UsersValid()
      reads this`users, this`currentUser, idCounter
    {
      && (forall name :: name in users ==> users[name].username == name)
      && (currentUser.Some? ==> currentUser.value in users)
      && IssuedHistories(users, idCounter.counter)
    }

    /**
     * The constructor runs initTestData (src/SystemManager.cpp:21-43): an
     * admin, one passenger, and the trains G101 and K505 with four stops each
     * and no seat inventory yet, stored under their ids. Order ids come from
     * the process's counter `ids`.
     */
    constructor (ids: OrderCounter)
      ensures Valid() && idCounter == ids
      ensures users == FixtureUsers() && currentUser == None
      ensures trains == map["G101" := TrainState("G101", "High-Speed", 100, G101Stops(), map[]),
                            "K505" := TrainState("K505", "Normal", 200, K505Stops(), map[])]
      ensures trainIds == ["G101", "K505"]
    {
      var t1 := NewG101();
      var t2 := NewK505();
      users := FixtureUsers();
      trains := map["G101" := t1.State(), "K505" := t2.State()];
      trainIds := ["G101", "K505"];
      currentUser := None;
      idCounter := ids;
      new;
      FixtureUsersKeyed();
      FixtureKeyOrder();
    }

    // ----- Users

    /**
     * registerUser: refused when the name is taken, otherwise a new Passenger
     * with an empty history is stored under that name.
     */
    method RegisterUser(username: string, password: string, name: string, id: string)
      returns (ok: bool)
      requires Valid()
      modifies this`users
      ensures Valid()
      ensures ok <==> username !in old(users)
      ensures ok ==> users == old(users)[username := Passenger(username, password, name, id, [])]
      ensures !ok ==> users == old(users)
    {
      if username in users {
        return false;
      }
      users := users[username := Passenger(username, password, name, id, [])];
      return true;
    }

    /**
     * login: when the name exists and the password matches, that user becomes
     * the current user and is returned; otherwise nothing is returned and the
     * current user stays whoever it was.
     */
    method Login(username: string, password: string) returns (u: Option<User>)
      requires Valid()
      modifies this`currentUser
      ensures Valid()
      ensures u.Some? <==> username in users && CheckPassword(users[username], password)
      ensures u.Some? ==> u.value == users[username] && currentUser == Some(username)
      ensures u.None? ==> currentUser == old(currentUser)
    {
      if username in users && CheckPassword(users[username], password) {
        currentUser := Some(username);
        return Some(users[username]);
      }
      return None;
    }

    /** logout: nobody is logged in afterwards. */
    method Logout()
      requires Valid()
      modifies this`currentUser
      ensures Valid()
      ensures currentUser == None
    {
      currentUser := None;
    }

    /** getCurrentUser: the logged-in user's current record, if any. */
    function GetCurrentUser(): (u: Option<User>)
      requires Valid()
      reads this, idCounter
      ensures u.Some? <==> currentUser.Some?
      ensures u.Some? ==> u.value.username == currentUser.value && u.value == users[currentUser.value]
    {
      if currentUser.Some? then Some(users[currentUser.value]) else None
    }

    // ----- Trains

    /**
     * addTrain: a copy of the train is stored under its id, replacing any
     * train with that id; every other entry stays as it was.
     */
    method AddTrain(train: Train)
      requires Valid() && train.Valid()
      modifies this`trains, this`trainIds
      ensures Valid()
      ensures trains == old(trains)[train.trainId := train.State()]
      ensures trainIds == Insert(old(trainIds), train.trainId)
    {
      trains := trains[train.trainId := train.State()];
      trainIds := Insert(trainIds, train.trainId);
    }

    /** deleteTrain: true iff the id was present; only that entry goes. */
    method DeleteTrain(trainId: string) returns (ok: bool)
      requires Valid()
      modifies this`trains, this`trainIds
      ensures Valid()
      ensures ok <==> trainId in old(trains)
      ensures trains == old(trains) - {trainId}
      ensures trainIds == Remove(old(trainIds), trainId)
    {
      if trainId in trains {
        trains := trains - {trainId};
        trainIds := Remove(trainIds, trainId);
        return true;
      }
      return false;
    }

    /** getTrain: the train stored under that id, which carries that id; None when absent. */
    function GetTrain(trainId: string): (t: Option<TrainState>)
      requires Valid()
      reads this, idCounter
      ensures t.Some? <==> trainId in trains
      ensures t.Some? ==> t.value == trains[trainId] && t.value.trainId == trainId
    {
      if trainId in trains then Some(trains[trainId]) else None
    }

    /** getAllTrains: every stored train, each under its own id. */
    function GetAllTrains(): (m: map<string, TrainState>)
      requires Valid()
      reads this, idCounter
      ensures m == trains
      ensures m.Keys == trains.Keys
      ensures forall k :: k in m ==> m[k].trainId == k
    {
      trains
    }

    /**
     * searchTrains (src/SystemManager.cpp:99-108): goes through the trains in
     * key order, asks each hasTickets(date, start, end) for one seat and
     * returns copies of those that answer yes, as they are right after their
     * answer. As a side effect every train with a valid pair gets the date's
     * inventory created.
     */
    method SearchTrains(startStation: string, endStation: string, date: string)
      returns (result: seq<TrainState>)
      requires Valid()
      modifies this`trains
      ensures Valid()
      ensures trains.Keys == old(trains).Keys
      ensures forall k :: k in trains ==> trains[k] == Searched(old(trains)[k], date, startStation, endStation)
      ensures Sorted(IdsOf(result))
      ensures forall k :: k in IdsOf(result) <==>
        k in old(trains) && HasSeats(old(trains)[k], date, startStation, endStation, 1)
      ensures forall i :: 0 <= i < |result| ==>
        result[i].trainId in trains && result[i] == trains[result[i].trainId]
    {
      result, trains := SearchInOrder(trainIds, trains, startStation, endStation, date);
    }

    // ----- Bookings

    /**
     * bookTicket (src/SystemManager.cpp:114-133): fails with nothing changed
     * without a current user or for an unknown train. Otherwise the train
     * books the seats; on success the order is created (the id counter
     * advances even for an Admin) and a Passenger gets it appended to the
     * history, while an Admin's booking leaves no order anywhere.
     */
    method BookTicket(now: Now, trainId: string, startStation: string,
                      endStation: string, date: string, count: int := 1)
      returns (ok: bool)
      requires Valid()
      requires IsLocalTime(now.local) && 1000 <= now.local.year <= 9999
      requires idCounter.counter < IntMax
      modifies this`users, this`trains, idCounter
      ensures Valid()
      ensures ok <==> old(currentUser.Some? && trainId in trains
        && HasSeats(trains[trainId], date, startStation, endStation, count))
      ensures old(currentUser.None? || trainId !in trains) ==> trains == old(trains)
      ensures old(currentUser.Some? && trainId in trains) ==>
        trains == old(trains[trainId := Booked(trains[trainId], date, startStation, endStation, count)])
      ensures !ok ==> users == old(users) && idCounter.counter == old(idCounter.counter)
      ensures ok ==> idCounter.counter == old(idCounter.counter) + 1
      ensures ok ==> users == RecordBooking(old(users), currentUser.value,
        BookedOrder(FormatOrderId(now.local, idCounter.counter), currentUser.value, trains[trainId].route, trainId,
                    startStation, endStation, date, count, now.epochSeconds))
    {
      if currentUser.None? {
        return false;
      }
      if trainId !in trains {
        return false;
      }
      ok := BookSeats(trainId, startStation, endStation, date, count);
      if ok {
        RecordOrder(now, trains[trainId].route, trainId, startStation, endStation, date, count);
      }
    }

    /**
     * The seat step of bookTicket (src/SystemManager.cpp:117-120): the stored
     * train runs bookTickets and keeps whatever the call leaves it with.
     */
    method BookSeats(trainId: string, startStation: string, endStation: string, date: string, count: int)
      returns (ok: bool)
      requires Valid() && trainId in trains
      modifies this`trains
      ensures Valid()
      ensures ok == HasSeats(old(trains)[trainId], date, startStation, endStation, count)
      ensures trains == old(trains)[trainId := Booked(old(trains)[trainId], date, startStation, endStation, count)]
    {
      var after;
      ok, after := CallBookTickets(trains[trainId], date, startStation, endStation, count);
      trains := trains[trainId := after];
    }

    /**
     * The second half of a successful bookTicket (src/SystemManager.cpp:121-129):
     * the order is built for the current user and, for a Passenger, appended
     * to the history.
     */
    method RecordOrder(now: Now, route: seq<Stop>, trainId: string,
                       startStation: string, endStation: string, date: string, count: int)
      requires Valid() && currentUser.Some?
      requires IsLocalTime(now.local) && 1000 <= now.local.year <= 9999
      requires idCounter.counter < IntMax
      modifies this`users, idCounter
      ensures Valid()
      ensures idCounter.counter == old(idCounter.counter) + 1
      ensures users == RecordBooking(old(users), currentUser.value,
        BookedOrder(FormatOrderId(now.local, idCounter.counter), currentUser.value, route, trainId,
                    startStation, endStation, date, count, now.epochSeconds))
    {
      var name := currentUser.value;
      ghost var issued := idCounter.counter;
      var order := PlaceOrder(idCounter, now, users[name].username, route, trainId, startStation, endStation,
                              date, count);
      RecordKeepsIssued(users, name, order, issued, now.local);
      users := RecordBooking(users, name, order);
    }

    /**
     * releaseTickets is only defined for the order a refund would release:
     * the train stored under its id may have been replaced by one whose route
     * lacks the order's start station.
     */
    ghost predicate RefundDefined(orderId: string)
      reads this
    {
      currentUser.Some? && currentUser.value in users ==>
        var u := users[currentUser.value];
        var k := RefundTarget(u, orderId);
        (0 <= k && u.orders[k].trainId in trains ==>
           ReleaseDefined(trains[u.orders[k].trainId].route, trains[u.orders[k].trainId].seatInventory,
                          u.orders[k].date, u.orders[k].startStation, u.orders[k].endStation))
    }

    /**
     * refundTicket (src/SystemManager.cpp:139-157): succeeds iff the current
     * user is a Passenger holding a PAID order with that id. The first such
     * order becomes CANCELLED and, if its train is still present, its seats
     * are released on that train.
     */
    method RefundTicket(orderId: string) returns (ok: bool)
      requires Valid() && RefundDefined(orderId)
      modifies this`users, this`trains
      ensures Valid()
      ensures ok <==> old(currentUser.Some? && RefundTarget(users[currentUser.value], orderId) >= 0)
      ensures !ok ==> users == old(users) && trains == old(trains)
      ensures ok ==> RefundTarget(users[currentUser.value], orderId) == -1
      ensures ok ==>
        var u := old(users)[currentUser.value];
        var o := u.orders[RefundTarget(u, orderId)];
        && users == old(users)[currentUser.value := CancelAt(u, RefundTarget(u, orderId))]
        && (o.trainId !in old(trains) ==> trains == old(trains))
        && (o.trainId in old(trains) ==>
              trains == old(trains)[o.trainId := Released(old(trains)[o.trainId], o.date, o.startStation,
                                                          o.endStation, o.ticketCount)])
    {
      if currentUser.None? {
        return false;
      }
      var name := currentUser.value;
      var user := users[name];
      if !user.Passenger? {
        return false;
      }
      var i := FindPaidOrder(user.orders, orderId);
      if i < 0 {
        return false;
      }
      var order := user.orders[i];
      RefundOnce(user, orderId, idCounter.counter);
      CancelKeepsIssued(users, name, i, idCounter.counter);
      users := users[name := CancelAt(user, i)];
      ReleaseOrder(order);
      return true;
    }

    /**
     * The release step of refundTicket (src/SystemManager.cpp:149-152): if
     * the order's train is still present, its seats go back on that train.
     */
    method ReleaseOrder(order: Order)
      requires Valid()
      requires order.trainId in trains ==>
        ReleaseDefined(trains[order.trainId].route, trains[order.trainId].seatInventory,
                       order.date, order.startStation, order.endStation)
      modifies this`trains
      ensures Valid()
      ensures order.trainId !in old(trains) ==> trains == old(trains)
      ensures order.trainId in old(trains) ==>
        trains == old(trains)[order.trainId := Released(old(trains)[order.trainId], order.date,
                                                        order.startStation, order.endStation, order.ticketCount)]
    {
      if order.trainId in trains {
        var after := CallReleaseTickets(trains[order.trainId], order.date, order.startStation,
                                        order.endStation, order.ticketCount);
        trains := trains[order.trainId := after];
      }
    }
  }

  /**
   * Refunding the same order id twice: the first refund does what one refund
   * does, and the second always fails and changes nothing, because the
   * process-wide counter gave every order of a history its own id.
   */
  method RefundTwice(sys: SystemManager, orderId: string) returns (first: bool, second: bool)
    requires sys.Valid() && sys.RefundDefined(orderId)
    modifies sys
    ensures sys.Valid() && !second && sys.currentUser == old(sys.currentUser)
    ensures first <==> old(sys.currentUser.Some? && RefundTarget(sys.users[sys.currentUser.value], orderId) >= 0)
    ensures !first ==> sys.users == old(sys.users) && sys.trains == old(sys.trains)
    ensures first ==>
      var u := old(sys.users)[sys.currentUser.value];
      var o := u.orders[RefundTarget(u, orderId)];
      && sys.users == old(sys.users)[sys.currentUser.value := CancelAt(u, RefundTarget(u, orderId))]
      && (o.trainId !in old(sys.trains) ==> sys.trains == old(sys.trains))
      && (o.trainId in old(sys.trains) ==>
            sys.trains == old(sys.trains)[o.trainId := Released(old(sys.trains)[o.trainId], o.date,
                                                                o.startStation, o.endStation, o.ticketCount)])
  {
    first := sys.RefundTicket(orderId);
    second := sys.RefundTicket(orderId);
  }
}
