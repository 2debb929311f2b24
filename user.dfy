/**
 * Users (include/User.h, src/User.cpp). The source's class hierarchy with a
 * Passenger and an Admin subclass becomes one datatype with a variant per
 * role; only the Passenger variant carries an order history.
 */
module Users {
  import opened Orders

  datatype User =
    | Passenger(username: string, password: string, realName: string, idCard: string, orders: seq<Order>)
    | Admin(username: string, password: string, realName: string, idCard: string)

  /** checkPassword: exact string comparison with the stored password. */
  function CheckPassword(u: User, input: string): (ok: bool)
    ensures ok <==> input == u.password
  {
    u.password == input
  }

  /** getRole: the role name each variant reports. */
  function Role(u: User): (r: string)
    ensures r == "Passenger" <==> u.Passenger?
    ensures r == "Admin" <==> u.Admin?
  {
    match u
    case Passenger(_, _, _, _, _) => "Passenger"
    case Admin(_, _, _, _) => "Admin"
  }

  /** addOrder: push_back onto the history; everything already there stays. */
  function AddOrder(p: User, o: Order): (r: User)
    requires p.Passenger?
    ensures r.Passenger?
    ensures |r.orders| == |p.orders| + 1
    ensures r.orders[..|p.orders|] == p.orders && r.orders[|p.orders|] == o
    ensures r.(orders := p.orders) == p
  {
    p.(orders := p.orders + [o])
  }

  /** Index of the first order carrying `orderId`, or -1. */
  function FirstWithId(orders: seq<Order>, orderId: string): (k: int)
    ensures -1 <= k < |orders|
    ensures 0 <= k ==> orders[k].orderId == orderId
    ensures 0 <= k ==> forall j :: 0 <= j < k ==> orders[j].orderId != orderId
    ensures k == -1 <==> forall j :: 0 <= j < |orders| ==> orders[j].orderId != orderId
  {
    if |orders| == 0 then -1
    else if orders[0].orderId == orderId then 0
    else
      var k := FirstWithId(orders[1..], orderId);
      if k == -1 then -1 else k + 1
  }

  /** Index of the first PAID order carrying `orderId`, or -1 (the refund search). */
  function FirstPaidWithId(orders: seq<Order>, orderId: string): (k: int)
    ensures -1 <= k < |orders|
    ensures 0 <= k ==> orders[k].orderId == orderId && orders[k].status == Paid
    ensures 0 <= k ==> forall j :: 0 <= j < k ==> !(orders[j].orderId == orderId && orders[j].status == Paid)
    ensures k == -1 <==> forall j :: 0 <= j < |orders| ==> !(orders[j].orderId == orderId && orders[j].status == Paid)
  {
    if |orders| == 0 then -1
    else if orders[0].orderId == orderId && orders[0].status == Paid then 0
    else
      var k := FirstPaidWithId(orders[1..], orderId);
      if k == -1 then -1 else k + 1
  }

  /**
   * cancelOrder: walks the history and sets the first order with a matching id
   * to CANCELLED, whatever its status was; without a match nothing changes.
   */
  method CancelOrder(p: User, orderId: string) returns (r: User)
    requires p.Passenger?
    ensures r.Passenger? && r.(orders := p.orders) == p
    ensures |r.orders| == |p.orders|
    ensures var k := FirstWithId(p.orders, orderId);
      && (k == -1 ==> r == p)
      && (0 <= k ==> r.orders[k] == SetStatus(p.orders[k], Cancelled))
      && forall j :: 0 <= j < |p.orders| && j != k ==> r.orders[j] == p.orders[j]
  {
    var orders := p.orders;
    var i := 0;
    while i < |orders|
      invariant 0 <= i <= |orders|
      invariant forall j :: 0 <= j < i ==> orders[j].orderId != orderId
    {
      if orders[i].orderId == orderId {
        orders := orders[i := SetStatus(orders[i], Cancelled)];
        return p.(orders := orders);
      }
      i := i + 1;
    }
    return p;
  }

  /**
   * After the first PAID order with an id is cancelled, the next refund search
   * for that id finds only a later order, and none when the id occurs once.
   */
  lemma {:induction false} CancelAdvancesPaidSearch(orders: seq<Order>, orderId: string)
    requires FirstPaidWithId(orders, orderId) >= 0
    ensures var k := FirstPaidWithId(orders, orderId);
      var after := orders[k := SetStatus(orders[k], Cancelled)];
      && (FirstPaidWithId(after, orderId) == -1 || FirstPaidWithId(after, orderId) > k)
      && ((forall j :: 0 <= j < |orders| && j != k ==> orders[j].orderId != orderId)
          ==> FirstPaidWithId(after, orderId) == -1)
  {
  }
}
