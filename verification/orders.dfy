/** The customer side of the order workflow: placing an order (validate
    every line, store a `pending` order, take the stock) and cancelling one
    (check ownership and status, mark it `cancelled`, give the stock back).
    Both are pure transitions on the store; a failure leaves it as it was. */
module Orders {
  import opened Results
  import opened Money
  import opened Models

  /** A line the validation loop rejects: its product is unknown, or the
      product's current stock is below the quantity asked. */
  predicate Unavailable(it: Item, products: map<ProductId, Product>) {
    it.product !in products || products[it.product].stock < it.quantity
  }

  /** The position of the first line the validation loop rejects, or
      `|items|` when it rejects none. */
  function FirstUnavailable(items: seq<Item>, products: map<ProductId, Product>): (k: nat)
    ensures k <= |items|
    ensures forall j :: 0 <= j < k ==> !Unavailable(items[j], products)
    ensures k < |items| ==> Unavailable(items[k], products)
  {
    if items == [] then 0
    else if Unavailable(items[0], products) then 0
    else 1 + FirstUnavailable(items[1..], products)
  }

  /** The error reported for a rejected line: not found before out of
      stock. */
  function LineError(it: Item, products: map<ProductId, Product>): Error {
    if it.product !in products then ProductNotFound(it.product) else OutOfStock(it.product)
  }

  /** A line's value at the product's current price; a line naming an
      unknown product is worth nothing. */
  function LineValue(it: Item, products: map<ProductId, Product>): Cents {
    if it.product in products then products[it.product].price * it.quantity else 0
  }

  /** The value of `items` at current prices: the sum of the line values. */
  function OrderValue(items: seq<Item>, products: map<ProductId, Product>): Cents {
    if items == [] then 0 else LineValue(items[0], products) + OrderValue(items[1..], products)
  }

  /** The validation loop of `placeOrder`: visits the lines in order, stops
      at the first one it rejects, and otherwise adds each line's value at
      the current price to the running total `acc`. Nothing is written. */
  function CheckLines(items: seq<Item>, products: map<ProductId, Product>, acc: Cents): (r: Result<Cents, Error>)
    ensures r.Success? <==> FirstUnavailable(items, products) == |items|
    ensures r.Failure? ==> r.error == LineError(items[FirstUnavailable(items, products)], products)
    ensures r.Success? ==> r.value == acc + OrderValue(items, products)
    decreases |items|
  {
    if items == [] then Success(acc)
    else if Unavailable(items[0], products) then Failure(LineError(items[0], products))
    else CheckLines(items[1..], products, acc + LineValue(items[0], products))
  }

  /** `delta` applied as a decrement or as a restock. */
  function Signed(q: int, restock: bool): int {
    if restock then q else -q
  }

  /** One `$inc` of a product's stock; an unknown id matches nothing. */
  function Bump(products: map<ProductId, Product>, id: ProductId, delta: int): map<ProductId, Product> {
    if id in products then products[id := products[id].(stock := products[id].stock + delta)]
    else products
  }

  /** The stock loop: for each line in turn, take its quantity from its
      product (or, when restocking, give it back). Each product ends up
      moved by the whole quantity its lines name, and nothing else about
      any product changes. */
  function AdjustStock(products: map<ProductId, Product>, items: seq<Item>, restock: bool): (r: map<ProductId, Product>)
    ensures r.Keys == products.Keys
    ensures forall id :: id in products ==>
      r[id] == products[id].(stock := products[id].stock + Signed(QuantityFor(items, id), restock))
    decreases |items|
  {
    if items == [] then products
    else AdjustStock(Bump(products, items[0].product, Signed(items[0].quantity, restock)), items[1..], restock)
  }

  /** `placeOrder` by `user`, storing the new order under the fresh id `id`.
      An empty request fails first; then the first line naming an unknown
      product or more than its stock; then the order schema; then a clash
      of ids. On success the order is `pending`, its total is the value of
      the lines at current prices, and each product loses exactly the
      quantity its lines name. */
  function PlaceOrder(s: Store, user: UserId, id: OrderId, req: OrderRequest): (r: Result<Store, Error>)
    ensures req.items == [] ==> r == Failure(NoItems)
    ensures r.Success? <==>
      && req.items != []
      && FirstUnavailable(req.items, s.products) == |req.items|
      && ValidRequest(req)
      && id !in s.orders
    ensures req.items != [] && FirstUnavailable(req.items, s.products) < |req.items| ==>
      r == Failure(LineError(req.items[FirstUnavailable(req.items, s.products)], s.products))
    ensures req.items != [] && FirstUnavailable(req.items, s.products) == |req.items| && !ValidRequest(req) ==>
      r == Failure(SchemaViolation)
    ensures (req.items != [] && FirstUnavailable(req.items, s.products) == |req.items| && ValidRequest(req) &&
             id in s.orders) ==> r == Failure(DuplicateKey)
    ensures r.Success? ==>
      && r.value.orders.Keys == s.orders.Keys + {id}
      && (forall o :: o in s.orders ==> r.value.orders[o] == s.orders[o])
      && r.value.orders[id] == NewOrder(user, req, OrderValue(req.items, s.products)).value
      && r.value.orders[id].user == user
      && r.value.orders[id].items == req.items
      && r.value.orders[id].shipping == req.shipping
      && r.value.orders[id].status == Pending
      && r.value.orders[id].total == OrderValue(req.items, s.products)
    ensures r.Success? ==>
      && r.value.products.Keys == s.products.Keys
      && forall p :: p in s.products ==>
           r.value.products[p] == s.products[p].(stock := s.products[p].stock - QuantityFor(req.items, p))
  {
    if req.items == [] then Failure(NoItems)
    else
      var total :- CheckLines(req.items, s.products, 0);
      var order :- NewOrder(user, req, total);
      if id in s.orders then Failure(DuplicateKey)
      else Success(Store(AdjustStock(s.products, req.items, false), s.orders[id := order]))
  }

  /** Who asks for a cancellation. */
  datatype Requester = Requester(id: UserId, role: string)

  /** The owner of an order, or an administrator, may cancel it. */
  predicate MayCancel(o: Order, who: Requester) {
    o.user == who.id || who.role == "admin"
  }

  /** The statuses from which the customer path refuses to cancel. */
  predicate Dispatched(st: OrderStatus) {
    st == Shipped || st == Delivered
  }

  /** The customer `cancelOrder`: unknown order, then ownership, then a
      shipped or delivered status fail and change nothing. Saving the
      cancelled order validates it against the order schema again, before
      any stock moves, so a stored order the schema rejects fails too and
      nothing changes. From any other status, `cancelled` included, the
      order becomes `cancelled` and every line's quantity goes back to its
      product. */
  function CancelOrder(s: Store, id: OrderId, who: Requester): (r: Result<Store, Error>)
    ensures id !in s.orders ==> r == Failure(OrderNotFound(id))
    ensures id in s.orders && !MayCancel(s.orders[id], who) ==> r == Failure(NotAuthorized)
    ensures id in s.orders && MayCancel(s.orders[id], who) && Dispatched(s.orders[id].status) ==>
      r == Failure(NotCancellable(s.orders[id].status))
    ensures (id in s.orders && MayCancel(s.orders[id], who) && !Dispatched(s.orders[id].status) &&
             !WellFormedOrder(s.orders[id])) ==> r == Failure(SchemaViolation)
    ensures r.Success? <==>
      id in s.orders && MayCancel(s.orders[id], who) && !Dispatched(s.orders[id].status) && WellFormedOrder(s.orders[id])
    ensures r.Success? ==> r.value.orders == s.orders[id := s.orders[id].(status := Cancelled)]
    ensures r.Success? ==>
      && r.value.products.Keys == s.products.Keys
      && forall p :: p in s.products ==>
           r.value.products[p] == s.products[p].(stock := s.products[p].stock + QuantityFor(s.orders[id].items, p))
  {
    if id !in s.orders then Failure(OrderNotFound(id))
    else
      var o := s.orders[id];
      if !MayCancel(o, who) then Failure(NotAuthorized)
      else if Dispatched(o.status) then Failure(NotCancellable(o.status))
      else if !WellFormedOrder(o) then Failure(SchemaViolation)
      else Success(Store(AdjustStock(s.products, o.items, true), s.orders[id := o.(status := Cancelled)]))
  }

  /** No two lines of `items` name the same product. */
  predicate DistinctProducts(items: seq<Item>) {
    forall i, j :: 0 <= i < j < |items| ==> items[i].product != items[j].product
  }

  /** A product no line names is asked for nothing. */
  lemma {:induction false} QuantityForAbsent(items: seq<Item>, id: ProductId)
    requires forall i :: 0 <= i < |items| ==> items[i].product != id
    ensures QuantityFor(items, id) == 0
  {
    if items != [] {
      QuantityForAbsent(items[1..], id);
    }
  }

  /** With distinct lines, a product is asked for exactly the quantity of
      the one line that names it. */
  lemma {:induction false} QuantityForDistinct(items: seq<Item>, i: nat)
    requires DistinctProducts(items) && i < |items|
    ensures QuantityFor(items, items[i].product) == items[i].quantity
  {
    if i == 0 {
      QuantityForAbsent(items[1..], items[0].product);
    } else {
      assert items[1..][i - 1] == items[i];
      QuantityForDistinct(items[1..], i - 1);
    }
  }

  /** When the lines of an order name distinct products, placing it keeps
      every stock non-negative: each line was checked against the stock it
      actually takes from. */
  lemma PlaceOrderKeepsStockNonNegative(s: Store, user: UserId, id: OrderId, req: OrderRequest)
    requires PlaceOrder(s, user, id, req).Success?
    requires DistinctProducts(req.items)
    requires forall p :: p in s.products ==> s.products[p].stock >= 0
    ensures forall p :: p in PlaceOrder(s, user, id, req).value.products ==>
      PlaceOrder(s, user, id, req).value.products[p].stock >= 0
  {
    var after := PlaceOrder(s, user, id, req).value.products;
    forall p | p in after
      ensures after[p].stock >= 0
    {
      if i :| 0 <= i < |req.items| && req.items[i].product == p {
        QuantityForDistinct(req.items, i);
        assert !Unavailable(req.items[i], s.products);
      } else {
        QuantityForAbsent(req.items, p);
      }
    }
  }

  /** Two lines for the same product are each checked against the stock
      before either is taken, so together they can take more than there
      is: one unit in stock, two lines of one unit, and the order goes
      through leaving a stock of -1. */
  lemma DuplicateLinesOversell()
    ensures var s := Store(map["p" := Product("Mug", "A mug", 500, Some(500), 1, "Kitchen", [], None, NoDiscount)], map[]);
            var line := Item("p", 1, Some(500));
            var req := OrderRequest([line, line], Address("1 Main St", "Springfield", "", "12345", "US"),
                                    PaymentRequest("cod", None, None));
            && PlaceOrder(s, "u", "o", req).Success?
            && PlaceOrder(s, "u", "o", req).value.products["p"].stock == -1
  {
    var s := Store(map["p" := Product("Mug", "A mug", 500, Some(500), 1, "Kitchen", [], None, NoDiscount)], map[]);
    var line := Item("p", 1, Some(500));
    var req := OrderRequest([line, line], Address("1 Main St", "Springfield", "", "12345", "US"),
                            PaymentRequest("cod", None, None));
    assert req.items[1..] == [line] && [line][1..] == [];
    assert FirstUnavailable(req.items, s.products) == 2;
    assert QuantityFor([line], "p") == 1 + QuantityFor([], "p");
    assert QuantityFor(req.items, "p") == 2;
  }

  /** Cancelling an already cancelled order succeeds again and gives the
      stock back a second time. */
  lemma CancelTwiceRestocksTwice(s: Store, id: OrderId, who: Requester)
    requires CancelOrder(s, id, who).Success?
    ensures var once := CancelOrder(s, id, who).value;
            var twice := CancelOrder(once, id, who);
            && twice.Success?
            && twice.value.orders == once.orders
            && forall p :: p in s.products ==>
                 twice.value.products[p].stock == s.products[p].stock + 2 * QuantityFor(s.orders[id].items, p)
  {
  }

  /** Cancelling an order right after placing it gives back exactly the
      stock the placement took: the product collection is as it was. */
  lemma PlaceThenCancelRestoresStock(s: Store, user: UserId, id: OrderId, req: OrderRequest, who: Requester)
    requires PlaceOrder(s, user, id, req).Success?
    requires who.id == user
    ensures var placed := PlaceOrder(s, user, id, req).value;
            && CancelOrder(placed, id, who).Success?
            && CancelOrder(placed, id, who).value.products == s.products
            && CancelOrder(placed, id, who).value.orders[id].status == Cancelled
  {
    var placed := PlaceOrder(s, user, id, req).value;
    var back := CancelOrder(placed, id, who).value.products;
    assert forall p :: p in s.products ==> back[p] == s.products[p];
  }

  /** Placing an order keeps every record valid: the new order passed the
      schema and no product's original price is touched. */
  lemma PlaceOrderPreservesInvariant(s: Store, user: UserId, id: OrderId, req: OrderRequest)
    requires StoreInvariant(s)
    requires PlaceOrder(s, user, id, req).Success?
    ensures StoreInvariant(PlaceOrder(s, user, id, req).value)
  {
  }

  /** Cancelling an order keeps every record valid. */
  lemma CancelOrderPreservesInvariant(s: Store, id: OrderId, who: Requester)
    requires StoreInvariant(s)
    requires CancelOrder(s, id, who).Success?
    ensures StoreInvariant(CancelOrder(s, id, who).value)
  {
  }

  /** A product with stock 5 at 10.00: an order for 3 leaves 2 in stock
      and totals 30.00; cancelling it brings the stock back to 5; a second
      cancellation is accepted too and raises the stock to 8. */
  lemma OrderLifecycleScenario()
    ensures var s := Store(map["a" := Product("A", "Item A", 1000, Some(1000), 5, "Misc", [], None, NoDiscount)], map[]);
            var req := OrderRequest([Item("a", 3, Some(1000))], Address("1 Main St", "Springfield", "", "12345", "US"),
                                    PaymentRequest("card", None, None));
            var placed := PlaceOrder(s, "u", "o", req);
            && placed.Success?
            && placed.value.products["a"].stock == 2
            && placed.value.orders["o"].total == 3000
            && placed.value.orders["o"].status == Pending
            && CancelOrder(placed.value, "o", Requester("u", "user")).Success?
            && CancelOrder(placed.value, "o", Requester("u", "user")).value.products["a"].stock == 5
            && CancelOrder(CancelOrder(placed.value, "o", Requester("u", "user")).value, "o", Requester("u", "user")).Success?
            && CancelOrder(CancelOrder(placed.value, "o", Requester("u", "user")).value, "o", Requester("u", "user")).value.products["a"].stock == 8
  {
    var s := Store(map["a" := Product("A", "Item A", 1000, Some(1000), 5, "Misc", [], None, NoDiscount)], map[]);
    var req := OrderRequest([Item("a", 3, Some(1000))], Address("1 Main St", "Springfield", "", "12345", "US"),
                            PaymentRequest("card", None, None));
    assert FirstUnavailable(req.items, s.products) == 1;
    assert QuantityFor(req.items, "a") == 3;
    assert OrderValue(req.items, s.products) == 3000;
  }

  /** The line price the client sends is stored unchecked, while the total
      is taken from the product's current price: an order for 3 units at
      10.00 that claims 0.01 a unit is accepted, stores 0.01 and totals
      30.00. */
  lemma ClientLinePriceStoredAsSent()
    ensures var s := Store(map["a" := Product("A", "Item A", 1000, Some(1000), 5, "Misc", [], None, NoDiscount)], map[]);
            var req := OrderRequest([Item("a", 3, Some(1))], Address("1 Main St", "Springfield", "", "12345", "US"),
                                    PaymentRequest("paypal", Some("paid"), Some("tx-1")));
            var placed := PlaceOrder(s, "u", "o", req);
            && placed.Success?
            && placed.value.orders["o"].items[0].price == Some(1)
            && placed.value.orders["o"].total == 3000
            && placed.value.orders["o"].payment == PaymentInfo(Paypal, Paid, Some("tx-1"))
  {
    var s := Store(map["a" := Product("A", "Item A", 1000, Some(1000), 5, "Misc", [], None, NoDiscount)], map[]);
    var req := OrderRequest([Item("a", 3, Some(1))], Address("1 Main St", "Springfield", "", "12345", "US"),
                            PaymentRequest("paypal", Some("paid"), Some("tx-1")));
    assert FirstUnavailable(req.items, s.products) == 1;
    assert OrderValue(req.items, s.products) == 3000;
  }
}
