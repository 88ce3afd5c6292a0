/** The admin dashboard's summary of the products and orders it has
    fetched. */
module Dashboard {
  import opened Seqs
  import opened Models

  datatype Stats = Stats(totalProducts: nat, totalOrders: nat, totalRevenue: int, pendingOrders: nat)

  /** The sum of the order totals, whatever each order's status. */
  function Revenue(orders: seq<Order>): int {
    if orders == [] then 0 else orders[0].total + Revenue(orders[1..])
  }

  /** The number of pending orders, counted one order at a time. */
  function PendingCount(orders: seq<Order>): nat {
    if orders == [] then 0
    else (if orders[0].status == Pending then 1 else 0) + PendingCount(orders[1..])
  }

  predicate IsPending(o: Order) {
    o.status == Pending
  }

  /** Revenue over two lists is the sum of their revenues. */
  lemma {:induction false} RevenueAppend(a: seq<Order>, b: seq<Order>)
    ensures Revenue(a + b) == Revenue(a) + Revenue(b)
    decreases |a|
  {
    if a != [] {
      assert (a + b)[1..] == a[1..] + b;
      RevenueAppend(a[1..], b);
    } else {
      assert a + b == b;
    }
  }

  /** Filtering out the pending orders and counting them agree. */
  lemma {:induction false} PendingFilterCount(orders: seq<Order>)
    ensures |Filter(orders, IsPending)| == PendingCount(orders)
    decreases |orders|
  {
    if orders != [] {
      PendingFilterCount(orders[1..]);
    }
  }

  /** The four figures at the top of the dashboard: the number of products,
      the number of orders, the sum of all order totals (cancelled ones
      included) and the number of pending orders. */
  function ComputeStats(products: seq<Listing>, orders: seq<Order>): (r: Stats)
    ensures r.totalProducts == |products|
    ensures r.totalOrders == |orders|
    ensures r.totalRevenue == Revenue(orders)
    ensures r.pendingOrders == PendingCount(orders)
    ensures r.pendingOrders <= r.totalOrders
  {
    PendingFilterCount(orders);
    Stats(|products|, |orders|, Revenue(orders), |Filter(orders, IsPending)|)
  }

  /** Orders with no negative total give no negative revenue. */
  lemma {:induction false} RevenueNonNegative(orders: seq<Order>)
    requires forall i :: 0 <= i < |orders| ==> orders[i].total >= 0
    ensures Revenue(orders) >= 0
    decreases |orders|
  {
    if orders != [] {
      RevenueNonNegative(orders[1..]);
    }
  }

  /** Cancelling an order does not take its total out of the revenue: only
      the pending count changes. */
  lemma {:induction false} CancelledOrdersStillCount(orders: seq<Order>, i: nat)
    requires i < |orders|
    ensures Revenue(orders[i := orders[i].(status := Cancelled)]) == Revenue(orders)
    ensures PendingCount(orders[i := orders[i].(status := Cancelled)])
         == PendingCount(orders) - (if orders[i].status == Pending then 1 else 0)
    decreases i
  {
    var c := orders[i := orders[i].(status := Cancelled)];
    if i == 0 {
      assert c[1..] == orders[1..];
    } else {
      assert c[1..] == orders[1..][i - 1 := orders[i].(status := Cancelled)];
      CancelledOrdersStillCount(orders[1..], i - 1);
    }
  }

  /** The recent-orders table: the first five orders as fetched, or all of
      them when there are fewer. */
  function RecentOrders(orders: seq<Order>): (r: seq<Order>)
    ensures |r| == if |orders| < 5 then |orders| else 5
    ensures r == orders[..|r|]
  {
    Take(orders, 5)
  }
}
