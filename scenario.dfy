/**
 * The walk-through of src/test_main.cpp on the initTestData fixture: log in as
 * the admin, register and log in a passenger, search Beijing to Shanghai,
 * book the first train found, then refund that order.
 */
module Scenario {
  import opened Options
  import opened OrderedKeys
  import opened Orders
  import opened Users
  import opened Trains
  import opened Booking

  const Day: string := "2023-10-01"

  /** G101 as initTestData stores it, with `inv` as its seat inventory. */
  function G101(inv: Inventory): TrainState
  {
    TrainState("G101", "High-Speed", 100, G101Stops(), inv)
  }

  /** K505 as initTestData stores it, before any inventory exists. */
  function K505(): TrainState
  {
    TrainState("K505", "Normal", 200, K505Stops(), map[])
  }

  /** On the fixture, Beijing to Shanghai is G101's whole route and is not on K505's. */
  lemma FixtureStations()
    ensures StationIndex(G101Stops(), "Beijing") == 0 && StationIndex(G101Stops(), "Shanghai") == 3
    ensures StationIndex(K505Stops(), "Shanghai") == -1
    ensures Price(G101Stops(), "Beijing", "Shanghai") == 553.0
  {
    StationIndexSpec(K505Stops(), "Shanghai");
  }

  /**
   * Searching Beijing to Shanghai on the fixture: G101 answers yes and gets
   * the day's vector of 100 seats per segment; K505 answers no and is left as it was.
   */
  lemma FixtureSearch(date: string)
    ensures HasSeats(G101(map[]), date, "Beijing", "Shanghai", 1)
    ensures Searched(G101(map[]), date, "Beijing", "Shanghai") == G101(map[date := Fill(3, 100)])
    ensures !HasSeats(K505(), date, "Beijing", "Shanghai", 1)
    ensures Searched(K505(), date, "Beijing", "Shanghai") == K505()
  {
    FixtureStations();
  }

  /** One seat Beijing to Shanghai on G101 takes a seat from each of its three segments, and its refund gives them back. */
  lemma FixtureBookAndRelease(date: string)
    ensures HasSeats(G101(map[date := Fill(3, 100)]), date, "Beijing", "Shanghai", 1)
    ensures Booked(G101(map[date := Fill(3, 100)]), date, "Beijing", "Shanghai", 1) == G101(map[date := Fill(3, 99)])
    ensures ReleaseDefined(G101Stops(), map[date := Fill(3, 99)], date, "Beijing", "Shanghai")
    ensures Released(G101(map[date := Fill(3, 99)]), date, "Beijing", "Shanghai", 1) == G101(map[date := Fill(3, 100)])
  {
    FixtureStations();
    assert Reserve(Fill(3, 100), 0, 3, 1) == Fill(3, 99);
    assert Credit(Fill(3, 99), 0, 3, 1, 100) == Fill(3, 100);
  }

  /** The logins and the registration of test_main: the passenger "testuser" ends up logged in. */
  method LogInPassenger(ids: OrderCounter) returns (sys: SystemManager)
    ensures fresh(sys) && sys.Valid() && sys.idCounter == ids
    ensures sys.users == FixtureUsers()["testuser" := Passenger("testuser", "pass", "Test User", "111", [])]
    ensures sys.currentUser == Some("testuser")
    ensures sys.trains == map["G101" := G101(map[]), "K505" := K505()]
    ensures sys.trainIds == ["G101", "K505"]
  {
    sys := new SystemManager(ids);
    var user := sys.Login("admin", "admin123");
    assert user.Some? && Role(user.value) == "Admin";
    sys.Logout();
    var reg := sys.RegisterUser("testuser", "pass", "Test User", "111");
    assert reg;
    user := sys.Login("testuser", "pass");
    assert user.Some? && Role(user.value) == "Passenger";
  }

  /** The search of test_main finds G101 first, and creates its inventory for the day. */
  method SearchFixture(sys: SystemManager) returns (found: seq<TrainState>)
    requires sys.Valid()
    requires sys.trains == map["G101" := G101(map[]), "K505" := K505()]
    modifies sys
    ensures sys.Valid() && sys.users == old(sys.users) && sys.currentUser == old(sys.currentUser)
    ensures "G101" in sys.trains && sys.trains["G101"] == G101(map[Day := Fill(3, 100)])
    ensures |found| > 0 && found[0].trainId == "G101"
  {
    FixtureSearch(Day);
    ghost var before := sys.trains;
    found := sys.SearchTrains("Beijing", "Shanghai", Day);
    assert before["G101"] == G101(map[]) && before["K505"] == K505();
    assert "G101" in IdsOf(found);
    ghost var first := IdsOf(found)[0];
    assert first in before && HasSeats(before[first], Day, "Beijing", "Shanghai", 1);
    assert first == "G101";
  }

  /** The booking of test_main: one seat Beijing to Shanghai on G101, recorded as the passenger's only order. */
  method BookFixture(sys: SystemManager, now: Now)
    requires sys.Valid() && sys.idCounter.counter < IntMax
    requires IsLocalTime(now.local) && 1000 <= now.local.year <= 9999
    requires sys.currentUser == Some("testuser") && "testuser" in sys.users
    requires sys.users["testuser"] == Passenger("testuser", "pass", "Test User", "111", [])
    requires "G101" in sys.trains && sys.trains["G101"] == G101(map[Day := Fill(3, 100)])
    modifies sys, sys.idCounter
    ensures sys.Valid() && sys.currentUser == Some("testuser")
    ensures sys.idCounter.counter == old(sys.idCounter.counter) + 1
    ensures "G101" in sys.trains && sys.trains["G101"] == G101(map[Day := Fill(3, 99)])
    ensures sys.users["testuser"] == Passenger("testuser", "pass", "Test User", "111",
      [BookedOrder(FormatOrderId(now.local, sys.idCounter.counter), "testuser", G101Stops(), "G101",
                   "Beijing", "Shanghai", Day, 1, now.epochSeconds)])
  {
    FixtureBookAndRelease(Day);
    var booked := sys.BookTicket(now, "G101", "Beijing", "Shanghai", Day);
    assert booked;
  }

  /** The refund of test_main: the passenger's only order, by its id. */
  method RefundFixture(sys: SystemManager, o: Order)
    requires sys.Valid() && sys.currentUser == Some("testuser") && "testuser" in sys.users
    requires sys.users["testuser"] == Passenger("testuser", "pass", "Test User", "111", [o])
    requires o.status == Paid && o.trainId == "G101" && o.date == Day && o.ticketCount == 1
    requires o.startStation == "Beijing" && o.endStation == "Shanghai"
    requires "G101" in sys.trains && sys.trains["G101"] == G101(map[Day := Fill(3, 99)])
    modifies sys
    ensures sys.Valid() && sys.currentUser == Some("testuser")
    ensures sys.users["testuser"] == Passenger("testuser", "pass", "Test User", "111", [SetStatus(o, Cancelled)])
    ensures "G101" in sys.trains && sys.trains["G101"] == G101(map[Day := Fill(3, 100)])
  {
    FixtureBookAndRelease(Day);
    assert RefundTarget(sys.users["testuser"], o.orderId) == 0;
    var refunded := sys.RefundTicket(o.orderId);
    assert refunded;
  }

  /**
   * testLogic: each of its assertions holds, the passenger's only order ends
   * CANCELLED, and G101 has its 100 seats back on every segment of the day.
   */
  method TestLogic(ids: OrderCounter, now: Now) returns (sys: SystemManager)
    requires ids.counter < IntMax
    requires IsLocalTime(now.local) && 1000 <= now.local.year <= 9999
    modifies ids
    ensures fresh(sys) && sys.Valid() && sys.idCounter == ids
    ensures sys.currentUser == Some("testuser")
    ensures var p := sys.users["testuser"];
      && p.Passenger? && |p.orders| == 1
      && p.orders[0].orderId == FormatOrderId(now.local, ids.counter)
      && p.orders[0].trainId == "G101" && p.orders[0].price == 553.0
      && p.orders[0].status == Cancelled
    ensures "G101" in sys.trains && sys.trains["G101"] == G101(map[Day := Fill(3, 100)])
  {
    sys := LogInPassenger(ids);
    var found := SearchFixture(sys);
    BookFixture(sys, now);
    var p := sys.GetCurrentUser();
    assert p.Some? && |p.value.orders| == 1;
    FixtureStations();
    RefundFixture(sys, p.value.orders[0]);
  }
}
