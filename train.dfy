/**
 * A train: its route of stops and its per-date, per-segment seat inventory
 * (include/Train.h, src/Train.cpp). Segment i is the leg from stop i to stop
 * i + 1, and a date's inventory holds the seats left on each segment.
 *
 * The value-level functions below say what the Train methods compute; the
 * lemmas after the class state what they guarantee.
 */
module Trains {

  /** One stop of a route (include/Train.h:22-28); prices are reals. */
  datatype Stop = Stop(stationName: string, arrivalTime: string, departureTime: string,
                       priceFromStart: real, distance: int)

  /** Seat counts per segment, for every date that has been referenced. */
  type Inventory = map<string, seq<int>>

  // ----- Route lookups

  /** getStationIndex: the first stop with that exact name, or -1. */
  function StationIndex(route: seq<Stop>, name: string): (i: int)
    ensures -1 <= i < |route|
  {
    if |route| == 0 then -1
    else if route[0].stationName == name then 0
    else
      var k := StationIndex(route[1..], name);
      if k == -1 then -1 else k + 1
  }

  lemma StationIndexSpec(route: seq<Stop>, name: string)
    ensures var i := StationIndex(route, name);
      && (0 <= i ==> route[i].stationName == name)
      && (0 <= i ==> forall j :: 0 <= j < i ==> route[j].stationName != name)
      && (i == -1 <==> forall j :: 0 <= j < |route| ==> route[j].stationName != name)
  {
    if |route| > 0 && route[0].stationName != name {
      StationIndexSpec(route[1..], name);
    }
  }

  /** The linear search of getStationIndex (src/Train.cpp:31-38). */
  method GetStationIndex(route: seq<Stop>, name: string) returns (index: int)
    ensures index == StationIndex(route, name)
  {
    var i := 0;
    StationIndexSpec(route, name);
    while i < |route|
      invariant 0 <= i <= |route|
      invariant forall j :: 0 <= j < i ==> route[j].stationName != name
    {
      if route[i].stationName == name {
        return i;
      }
      i := i + 1;
    }
    return -1;
  }

  /** Both stations are on the route and the start comes strictly first. */
  predicate ValidPair(route: seq<Stop>, startStation: string, endStation: string)
  {
    var s, e := StationIndex(route, startStation), StationIndex(route, endStation);
    s != -1 && e != -1 && s < e
  }

  /** getPrice: 0 for an invalid pair, else the difference of cumulative prices. */
  function Price(route: seq<Stop>, startStation: string, endStation: string): (p: real)
    ensures !ValidPair(route, startStation, endStation) ==> p == 0.0
  {
    if !ValidPair(route, startStation, endStation) then 0.0
    else (route[StationIndex(route, endStation)].priceFromStart
          - route[StationIndex(route, startStation)].priceFromStart)
  }

  /**
   * The fare between the first stop named `a` (at i) and the first stop named
   * `b` (at j): the difference of their cumulative prices when i < j, and 0
   * when j <= i.
   */
  lemma PriceOfFirstStops(route: seq<Stop>, a: string, b: string, i: int, j: int)
    requires 0 <= i < |route| && route[i].stationName == a
    requires forall k :: 0 <= k < i ==> route[k].stationName != a
    requires 0 <= j < |route| && route[j].stationName == b
    requires forall k :: 0 <= k < j ==> route[k].stationName != b
    ensures ValidPair(route, a, b) <==> i < j
    ensures Price(route, a, b) == if i < j then route[j].priceFromStart - route[i].priceFromStart else 0.0
  {
    StationIndexSpec(route, a);
    StationIndexSpec(route, b);
  }

  /**
   * getDepartureTime: the departure time of the first stop with that name,
   * and "" when no stop has it.
   */
  function DepartureTime(route: seq<Stop>, station: string): (t: string)
    ensures (forall j :: 0 <= j < |route| ==> route[j].stationName != station) ==> t == ""
    ensures forall j :: 0 <= j < |route| && route[j].stationName == station
                        && (forall k :: 0 <= k < j ==> route[k].stationName != station) ==>
      t == route[j].departureTime
  {
    StationIndexSpec(route, station);
    var i := StationIndex(route, station);
    if i != -1 then route[i].departureTime else ""
  }

  /**
   * getArrivalTime: the arrival time of the first stop with that name, and ""
   * when no stop has it.
   */
  function ArrivalTime(route: seq<Stop>, station: string): (t: string)
    ensures (forall j :: 0 <= j < |route| ==> route[j].stationName != station) ==> t == ""
    ensures forall j :: 0 <= j < |route| && route[j].stationName == station
                        && (forall k :: 0 <= k < j ==> route[k].stationName != station) ==>
      t == route[j].arrivalTime
  {
    StationIndexSpec(route, station);
    var i := StationIndex(route, station);
    if i != -1 then route[i].arrivalTime else ""
  }

  // ----- The seat inventory as values

  /** Number of segments of a route: route.size() - 1 for a non-empty route. */
  function SegmentCount(route: seq<Stop>): nat
  {
    if |route| == 0 then 0 else |route| - 1
  }

  function Fill(n: nat, v: int): (r: seq<int>)
  {
    seq(n, _ => v)
  }

  /** The seats of a date: its stored vector, or the full vector it would be created with. */
  function DaySeats(route: seq<Stop>, totalSeats: int, inv: Inventory, date: string): seq<int>
  {
    if date in inv then inv[date] else Fill(SegmentCount(route), totalSeats)
  }

  /** The inventory hasTickets leaves behind: a valid pair creates the date's full vector. */
  function Materialize(route: seq<Stop>, totalSeats: int, inv: Inventory,
                       date: string, startStation: string, endStation: string): Inventory
  {
    if ValidPair(route, startStation, endStation) && date !in inv
    then inv[date := Fill(SegmentCount(route), totalSeats)]
    else inv
  }

  /** What hasTickets answers: a valid pair, and every segment in [s, e) has `count` seats. */
  predicate Available(route: seq<Stop>, totalSeats: int, inv: Inventory, date: string,
                      startStation: string, endStation: string, count: int)
  {
    && ValidPair(route, startStation, endStation)
    && var seats := DaySeats(route, totalSeats, inv, date);
       forall i :: StationIndex(route, startStation) <= i < StationIndex(route, endStation)
         ==> i < |seats| && seats[i] >= count
  }

  /** The seats after taking `count` seats on every segment in [lo, hi). */
  function Reserve(seats: seq<int>, lo: int, hi: int, count: int): (r: seq<int>)
  {
    seq(|seats|, i requires 0 <= i < |seats| => if lo <= i < hi then seats[i] - count else seats[i])
  }

  /** The seats after giving back `count` seats on [lo, hi), capped at `cap`. */
  function Credit(seats: seq<int>, lo: int, hi: int, count: int, cap: int): (r: seq<int>)
  {
    seq(|seats|, i requires 0 <= i < |seats| =>
      if lo <= i < hi then (if seats[i] + count > cap then cap else seats[i] + count) else seats[i])
  }

  /** The inventory bookTickets leaves behind: all segments of the range, or none. */
  function AfterBooking(route: seq<Stop>, totalSeats: int, inv: Inventory, date: string,
                        startStation: string, endStation: string, count: int): Inventory
  {
    var m := Materialize(route, totalSeats, inv, date, startStation, endStation);
    if Available(route, totalSeats, inv, date, startStation, endStation, count)
    then m[date := Reserve(DaySeats(route, totalSeats, inv, date),
                           StationIndex(route, startStation), StationIndex(route, endStation), count)]
    else m
  }

  /** The inventory releaseTickets leaves behind; an unknown date is left alone. */
  function AfterRelease(route: seq<Stop>, totalSeats: int, inv: Inventory, date: string,
                        startStation: string, endStation: string, count: int): Inventory
  {
    if date !in inv then inv
    else inv[date := Credit(inv[date], StationIndex(route, startStation),
                            StationIndex(route, endStation), count, totalSeats)]
  }

  /**
   * releaseTickets reads out of bounds when the date exists, the start station
   * is unknown and the end station is known: its loop then starts at -1.
   */
  predicate ReleaseDefined(route: seq<Stop>, inv: Inventory, date: string,
                           startStation: string, endStation: string)
  {
    !(date in inv && StationIndex(route, startStation) == -1 && StationIndex(route, endStation) != -1)
  }

  /** One vector per referenced date, one entry per segment (include/Train.h:46-51). */
  ghost predicate Shaped(route: seq<Stop>, inv: Inventory)
  {
    && (forall d :: d in inv ==> |inv[d]| == SegmentCount(route))
    && (inv != map[] ==> |route| >= 2)
  }

  /** Every stored seat count lies in [0, totalSeats]. */
  ghost predicate Bounded(totalSeats: int, inv: Inventory)
  {
    forall d, i :: d in inv && 0 <= i < |inv[d]| ==> 0 <= inv[d][i] <= totalSeats
  }

  /**
   * A train as a value: what std::map<string, Train> holds for each key and
   * what a by-value copy of a Train carries.
   */
  datatype TrainState = TrainState(trainId: string, trainType: string, totalSeats: int,
                                   route: seq<Stop>, seatInventory: Inventory)

  /** The train after hasTickets(date, start, end): only the lazily created vector differs. */
  function Searched(t: TrainState, date: string, startStation: string, endStation: string): TrainState
  {
    t.(seatInventory := Materialize(t.route, t.totalSeats, t.seatInventory, date, startStation, endStation))
  }

  /** The train after bookTickets(date, start, end, count). */
  function Booked(t: TrainState, date: string, startStation: string, endStation: string, count: int): TrainState
  {
    t.(seatInventory := AfterBooking(t.route, t.totalSeats, t.seatInventory, date, startStation, endStation, count))
  }

  /** The train after releaseTickets(date, start, end, count). */
  function Released(t: TrainState, date: string, startStation: string, endStation: string, count: int): TrainState
  {
    t.(seatInventory := AfterRelease(t.route, t.totalSeats, t.seatInventory, date, startStation, endStation, count))
  }

  /** What the train answers to hasTickets(date, start, end, count). */
  predicate HasSeats(t: TrainState, date: string, startStation: string, endStation: string, count: int)
  {
    Available(t.route, t.totalSeats, t.seatInventory, date, startStation, endStation, count)
  }

  class Train {
    const trainId: string
    const trainType: string
    const totalSeats: int
    var route: seq<Stop>
    var seatInventory: Inventory

    ghost predicate Valid()
      reads this
    {
      Shaped(route, seatInventory)
    }

    /** Train(id, t, seats): nothing on the route, no inventory yet. */
    constructor (id: string, t: string, seats: int)
      ensures trainId == id && trainType == t && totalSeats == seats
      ensures route == [] && seatInventory == map[]
      ensures Valid()
    {
      trainId, trainType, totalSeats := id, t, seats;
      route, seatInventory := [], map[];
    }

    /** The train's current state as a value. */
    function State(): (c: TrainState)
      reads this
      ensures c.trainId == trainId && c.trainType == trainType && c.totalSeats == totalSeats
      ensures c.route == route && c.seatInventory == seatInventory
    {
      TrainState(trainId, trainType, totalSeats, route, seatInventory)
    }

    /** A train object holding a stored value, for a member function to run on. */
    constructor FromState(c: TrainState)
      ensures State() == c
    {
      trainId, trainType, totalSeats := c.trainId, c.trainType, c.totalSeats;
      route, seatInventory := c.route, c.seatInventory;
    }

    /**
     * addStop appends, so the route lists stops in the order they were added.
     * Vectors created earlier are not extended: the inventory keeps its shape
     * exactly when no date has been referenced yet.
     */
    method AddStop(stop: Stop)
      modifies this`route
      ensures route == old(route) + [stop]
      ensures old(Valid()) ==> (Valid() <==> seatInventory == map[])
    {
      route := route + [stop];
      if old(Valid()) && seatInventory != map[] {
        var d :| d in seatInventory;
        assert |seatInventory[d]| != SegmentCount(route);
      }
    }

    /**
     * hasTickets (src/Train.cpp:44-69): false for an unknown or non-forward
     * pair; otherwise the date's vector is created if missing and the answer
     * is whether every segment in [s, e) has at least `count` seats.
     */
    method HasTickets(date: string, startStation: string, endStation: string, count: int := 1)
      returns (ok: bool)
      requires Valid()
      modifies this`seatInventory
      ensures Valid()
      ensures ok == old(Available(route, totalSeats, seatInventory, date, startStation, endStation, count))
      ensures seatInventory == old(Materialize(route, totalSeats, seatInventory, date, startStation, endStation))
    {
      var startIndex := GetStationIndex(route, startStation);
      var endIndex := GetStationIndex(route, endStation);
      if startIndex == -1 || endIndex == -1 || startIndex >= endIndex {
        return false;
      }
      if date !in seatInventory {
        seatInventory := seatInventory[date := Fill(|route| - 1, totalSeats)];
      }
      var dailySeats := seatInventory[date];
      assert dailySeats == DaySeats(route, totalSeats, old(seatInventory), date);
      var i := startIndex;
      while i < endIndex
        invariant startIndex <= i <= endIndex
        invariant forall j :: startIndex <= j < i ==> dailySeats[j] >= count
      {
        if dailySeats[i] < count {
          assert !(i < |dailySeats| && dailySeats[i] >= count);
          return false;
        }
        i := i + 1;
      }
      return true;
    }

    /**
     * bookTickets (src/Train.cpp:75-89): checks with hasTickets, then takes
     * `count` seats from every segment in [s, e) of that date.
     */
    method BookTickets(date: string, startStation: string, endStation: string, count: int := 1)
      returns (ok: bool)
      requires Valid()
      modifies this`seatInventory
      ensures Valid()
      ensures ok == old(Available(route, totalSeats, seatInventory, date, startStation, endStation, count))
      ensures seatInventory == old(AfterBooking(route, totalSeats, seatInventory, date, startStation, endStation, count))
    {
      ghost var before := seatInventory;
      ok := HasTickets(date, startStation, endStation, count);
      if !ok {
        return;
      }
      var startIndex := GetStationIndex(route, startStation);
      var endIndex := GetStationIndex(route, endStation);
      var dailySeats := seatInventory[date];
      ghost var original := dailySeats;
      assert original == DaySeats(route, totalSeats, before, date);
      var i := startIndex;
      while i < endIndex
        invariant startIndex <= i <= endIndex
        invariant |dailySeats| == |original|
        invariant forall j :: 0 <= j < |original| ==>
          dailySeats[j] == if startIndex <= j < i then original[j] - count else original[j]
      {
        dailySeats := dailySeats[i := dailySeats[i] - count];
        i := i + 1;
      }
      seatInventory := seatInventory[date := dailySeats];
      assert dailySeats == Reserve(original, startIndex, endIndex, count);
    }

    /**
     * releaseTickets (src/Train.cpp:96-109): nothing for an unknown date;
     * otherwise every segment in [s, e) gets `count` seats back, capped at
     * totalSeats. The requires excludes the one case the source reads out of
     * bounds.
     */
    method ReleaseTickets(date: string, startStation: string, endStation: string, count: int := 1)
      requires Valid()
      requires ReleaseDefined(route, seatInventory, date, startStation, endStation)
      modifies this`seatInventory
      ensures Valid()
      ensures seatInventory == old(AfterRelease(route, totalSeats, seatInventory, date, startStation, endStation, count))
    {
      var startIndex := GetStationIndex(route, startStation);
      var endIndex := GetStationIndex(route, endStation);
      if date !in seatInventory {
        return;
      }
      var dailySeats := seatInventory[date];
      ghost var original := dailySeats;
      var i := startIndex;
      while i < endIndex
        invariant startIndex <= i
        invariant i == startIndex || i <= endIndex
        invariant |dailySeats| == |original|
        invariant forall j :: 0 <= j < |original| ==>
          dailySeats[j] == if startIndex <= j < i
                           then (if original[j] + count > totalSeats then totalSeats else original[j] + count)
                           else original[j]
      {
        dailySeats := dailySeats[i := dailySeats[i] + count];
        if dailySeats[i] > totalSeats {
          dailySeats := dailySeats[i := totalSeats];
        }
        i := i + 1;
      }
      seatInventory := seatInventory[date := dailySeats];
      assert dailySeats == Credit(original, startIndex, endIndex, count, totalSeats);
    }
  }

  // ----- What the inventory operations guarantee

  /** hasTickets on an invalid pair answers false and creates nothing. */
  lemma InvalidPairChangesNothing(route: seq<Stop>, totalSeats: int, inv: Inventory, date: string,
                                  startStation: string, endStation: string, count: int)
    requires !ValidPair(route, startStation, endStation)
    ensures !Available(route, totalSeats, inv, date, startStation, endStation, count)
    ensures Materialize(route, totalSeats, inv, date, startStation, endStation) == inv
    ensures AfterBooking(route, totalSeats, inv, date, startStation, endStation, count) == inv
  {
  }

  /**
   * A valid pair on an unknown date creates a vector of one entry per segment,
   * every entry totalSeats; dates already present are left as they are.
   */
  lemma MaterializeShape(route: seq<Stop>, totalSeats: int, inv: Inventory, date: string,
                         startStation: string, endStation: string)
    ensures var m := Materialize(route, totalSeats, inv, date, startStation, endStation);
      && (forall d :: d in inv ==> d in m && m[d] == inv[d])
      && (ValidPair(route, startStation, endStation) && date !in inv ==>
            date in m && |m[date]| == |route| - 1
            && (forall i :: 0 <= i < |m[date]| ==> m[date][i] == totalSeats))
      && m.Keys == inv.Keys + (if ValidPair(route, startStation, endStation) then {date} else {})
  {
  }

  /** Creating a vector lazily never changes the seats any date shows. */
  lemma MaterializeKeepsSeats(route: seq<Stop>, totalSeats: int, inv: Inventory, date: string,
                              startStation: string, endStation: string)
    ensures forall d :: DaySeats(route, totalSeats, Materialize(route, totalSeats, inv, date, startStation, endStation), d)
                     == DaySeats(route, totalSeats, inv, d)
  {
  }

  /** Lazy creation keeps the inventory shaped and bounded for a non-negative capacity. */
  lemma MaterializeKeepsInvariant(route: seq<Stop>, totalSeats: int, inv: Inventory, date: string,
                                  startStation: string, endStation: string)
    requires Shaped(route, inv)
    ensures Shaped(route, Materialize(route, totalSeats, inv, date, startStation, endStation))
    ensures 0 <= totalSeats && Bounded(totalSeats, inv) ==>
      Bounded(totalSeats, Materialize(route, totalSeats, inv, date, startStation, endStation))
  {
  }

  /**
   * All or nothing: a failed booking changes no seat count on any date; a
   * successful one lowers exactly the segments [s, e) of that date by
   * `count`, and every other segment and date keeps its seats.
   */
  lemma BookingAllOrNothing(route: seq<Stop>, totalSeats: int, inv: Inventory, date: string,
                            startStation: string, endStation: string, count: int)
    requires Shaped(route, inv)
    ensures var after := AfterBooking(route, totalSeats, inv, date, startStation, endStation, count);
      var s, e := StationIndex(route, startStation), StationIndex(route, endStation);
      && (!Available(route, totalSeats, inv, date, startStation, endStation, count) ==>
            forall d :: DaySeats(route, totalSeats, after, d) == DaySeats(route, totalSeats, inv, d))
      && (Available(route, totalSeats, inv, date, startStation, endStation, count) ==>
            && (forall d :: d != date ==> DaySeats(route, totalSeats, after, d) == DaySeats(route, totalSeats, inv, d))
            && |DaySeats(route, totalSeats, after, date)| == |route| - 1
            && forall i :: 0 <= i < |route| - 1 ==>
                 DaySeats(route, totalSeats, after, date)[i]
                   == DaySeats(route, totalSeats, inv, date)[i] - (if s <= i < e then count else 0))
  {
    MaterializeKeepsSeats(route, totalSeats, inv, date, startStation, endStation);
  }

  /** With a non-negative count, booking keeps every entry within [0, totalSeats]. */
  lemma BookingKeepsBounds(route: seq<Stop>, totalSeats: int, inv: Inventory, date: string,
                           startStation: string, endStation: string, count: int)
    requires Shaped(route, inv) && Bounded(totalSeats, inv)
    requires 0 <= totalSeats && 0 <= count
    ensures Shaped(route, AfterBooking(route, totalSeats, inv, date, startStation, endStation, count))
    ensures Bounded(totalSeats, AfterBooking(route, totalSeats, inv, date, startStation, endStation, count))
  {
    MaterializeKeepsInvariant(route, totalSeats, inv, date, startStation, endStation);
  }

  /** A negative count is not rejected: booking then pushes a segment above capacity. */
  lemma NegativeCountOverfills()
    ensures var route := [Stop("A", "", "", 0.0, 0), Stop("B", "", "", 1.0, 1)];
      var after := AfterBooking(route, 10, map[], "d", "A", "B", -1);
      Available(route, 10, map[], "d", "A", "B", -1) && !Bounded(10, after)
  {
    var route := [Stop("A", "", "", 0.0, 0), Stop("B", "", "", 1.0, 1)];
    assert StationIndex(route, "A") == 0;
    assert StationIndex(route, "B") == 1;
    var after := AfterBooking(route, 10, map[], "d", "A", "B", -1);
    assert after["d"][0] == 11;
  }

  /** Releasing keeps the shape, and with a non-negative count keeps every entry within bounds. */
  lemma ReleaseKeepsBounds(route: seq<Stop>, totalSeats: int, inv: Inventory, date: string,
                           startStation: string, endStation: string, count: int)
    requires Shaped(route, inv)
    ensures Shaped(route, AfterRelease(route, totalSeats, inv, date, startStation, endStation, count))
    ensures Bounded(totalSeats, inv) && 0 <= count ==>
      Bounded(totalSeats, AfterRelease(route, totalSeats, inv, date, startStation, endStation, count))
  {
  }

  /**
   * Releasing what a successful booking took restores every date's seats,
   * provided the seats were within [0, totalSeats] and the count non-negative.
   */
  lemma ReleaseUndoesBooking(route: seq<Stop>, totalSeats: int, inv: Inventory, date: string,
                             startStation: string, endStation: string, count: int)
    requires Shaped(route, inv) && Bounded(totalSeats, inv) && 0 <= totalSeats && 0 <= count
    requires Available(route, totalSeats, inv, date, startStation, endStation, count)
    ensures var booked := AfterBooking(route, totalSeats, inv, date, startStation, endStation, count);
      var released := AfterRelease(route, totalSeats, booked, date, startStation, endStation, count);
      forall d :: DaySeats(route, totalSeats, released, d) == DaySeats(route, totalSeats, inv, d)
  {
    var booked := AfterBooking(route, totalSeats, inv, date, startStation, endStation, count);
    var released := AfterRelease(route, totalSeats, booked, date, startStation, endStation, count);
    var seats := DaySeats(route, totalSeats, inv, date);
    MaterializeKeepsInvariant(route, totalSeats, inv, date, startStation, endStation);
    assert forall i :: 0 <= i < |seats| ==> 0 <= seats[i] <= totalSeats;
    assert DaySeats(route, totalSeats, released, date) == seats;
  }

  /** A release on a date that was never referenced changes nothing. */
  lemma ReleaseUnknownDate(route: seq<Stop>, totalSeats: int, inv: Inventory, date: string,
                           startStation: string, endStation: string, count: int)
    requires date !in inv
    ensures AfterRelease(route, totalSeats, inv, date, startStation, endStation, count) == inv
  {
  }

  // ----- Prices along the route

  /** Prices add up along the route: A to C costs A to B plus B to C. */
  lemma PriceAdditive(route: seq<Stop>, a: string, b: string, c: string)
    requires ValidPair(route, a, b) && ValidPair(route, b, c)
    ensures ValidPair(route, a, c)
    ensures Price(route, a, c) == Price(route, a, b) + Price(route, b, c)
  {
  }

  /** With cumulative prices non-decreasing along the route, no fare is negative. */
  lemma PriceNonNegative(route: seq<Stop>, a: string, b: string)
    requires forall i, j :: 0 <= i <= j < |route| ==> route[i].priceFromStart <= route[j].priceFromStart
    ensures Price(route, a, b) >= 0.0
  {
  }

  /** A backward pair is free and never bookable. */
  lemma NonForwardPair(route: seq<Stop>, a: string, b: string)
    requires ValidPair(route, a, b)
    ensures !ValidPair(route, b, a)
    ensures Price(route, b, a) == 0.0
  {
  }

  /** A same-station pair, on any route, is free and never bookable. */
  lemma SameStationPair(route: seq<Stop>, a: string)
    ensures !ValidPair(route, a, a)
    ensures Price(route, a, a) == 0.0
  {
  }
}
