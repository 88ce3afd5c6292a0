/** The administrator's handlers: adding and removing products, setting an
    order's status, cancelling an order, and applying a discount. Each is a
    pure transition on the store; a failure leaves it as it was. */
module Admin {
  import opened Results
  import opened Money
  import opened Text
  import opened Models

  /** The body of an add-product request. Absent numbers are `None`, an
      absent string is empty. */
  datatype ProductRequest = ProductRequest(
    name: string,
    description: string,
    price: Option<Cents>,
    originalPrice: Option<Cents>,
    stock: Option<int>,
    category: string,
    images: Option<seq<Image>>,
    brand: Option<string>)

  /** A number the handler accepts as given: present and not zero. */
  predicate Truthy(x: Option<int>) {
    x.Some? && x.value != 0
  }

  /** The handler's own required-field check. */
  predicate HasRequiredFields(req: ProductRequest) {
    && req.name != ""
    && req.description != ""
    && Truthy(req.price)
    && req.category != ""
    && req.images.Some?
    && Truthy(req.originalPrice)
    && |req.images.value| > 0
  }

  /** What the product schema checks beyond the handler's own check, on a
      request that passes it: the trimmed name is not empty and every image
      has a url and a public id. */
  predicate SchemaAccepts(req: ProductRequest) {
    && Trim(req.name) != ""
    && req.images.Some?
    && forall i :: 0 <= i < |req.images.value| ==>
         req.images.value[i].url != "" && req.images.value[i].publicId != ""
  }

  /** `addProduct`, storing the product under the fresh id `id`. Missing
      fields fail first (a zero price or original price counts as missing),
      then the schema, then a clash of ids. The new product holds exactly
      the request's fields, with the name trimmed, the stock 0 when none is
      given and no discount; nothing else changes. */
  function AddProduct(s: Store, id: ProductId, req: ProductRequest): (r: Result<Store, Error>)
    ensures !HasRequiredFields(req) ==> r == Failure(MissingFields)
    ensures HasRequiredFields(req) && !SchemaAccepts(req) ==> r == Failure(SchemaViolation)
    ensures r.Success? <==> HasRequiredFields(req) && SchemaAccepts(req) && id !in s.products
    ensures r.Success? ==>
      && r.value.orders == s.orders
      && r.value.products.Keys == s.products.Keys + {id}
      && (forall p :: p in s.products ==> r.value.products[p] == s.products[p])
      && r.value.products[id] == Product(Trim(req.name), req.description, req.price.value, req.originalPrice,
                                         req.stock.GetOr(0), req.category, req.images.value, req.brand, NoDiscount)
      && r.value.products[id].price != 0
      && ValidProduct(r.value.products[id])
      && |r.value.products[id].images| > 0
  {
    if !HasRequiredFields(req) then Failure(MissingFields)
    else
      var np := Product(Trim(req.name), req.description, req.price.value, req.originalPrice,
                        req.stock.GetOr(0), req.category, req.images.value, req.brand, NoDiscount);
      var saved :- SaveProduct(np);
      if id in s.products then Failure(DuplicateKey)
      else Success(s.(products := s.products[id := saved]))
  }

  /** `removeProduct`: an unknown id fails; otherwise exactly that product
      goes, and orders naming it are left as they are. */
  function RemoveProduct(s: Store, id: ProductId): (r: Result<Store, Error>)
    ensures r.Success? <==> id in s.products
    ensures r.Failure? ==> r.error == ProductNotFound(id)
    ensures r.Success? ==>
      && r.value.orders == s.orders
      && r.value.products.Keys == s.products.Keys - {id}
      && forall p :: p in r.value.products ==> r.value.products[p] == s.products[p]
  {
    if id !in s.products then Failure(ProductNotFound(id))
    else Success(s.(products := s.products - {id}))
  }

  /** `changeOrderStatus`: a value outside the five statuses fails before
      the order is looked up, an unknown order fails next; otherwise the
      status is overwritten whatever it was, and nothing else changes. */
  function ChangeOrderStatus(s: Store, id: OrderId, status: string): (r: Result<Store, Error>)
    ensures status !in StatusNames ==> r == Failure(InvalidStatus(status))
    ensures status in StatusNames && id !in s.orders ==> r == Failure(OrderNotFound(id))
    ensures r.Success? <==> status in StatusNames && id in s.orders
    ensures r.Success? ==>
      && r.value.products == s.products
      && r.value.orders.Keys == s.orders.Keys
      && (forall o :: o in s.orders && o != id ==> r.value.orders[o] == s.orders[o])
      && StatusName(r.value.orders[id].status) == status
      && r.value.orders[id].(status := s.orders[id].status) == s.orders[id]
  {
    match ParseStatus(status)
    case None => Failure(InvalidStatus(status))
    case Some(st) =>
      if id !in s.orders then Failure(OrderNotFound(id))
      else Success(s.(orders := s.orders[id := s.orders[id].(status := st)]))
  }

  /** The administrator's `cancelOrder`: an unknown order fails; otherwise,
      from any status, shipped and delivered included, the order becomes
      `cancelled` with payment `failed`, and no stock moves. */
  function AdminCancelOrder(s: Store, id: OrderId): (r: Result<Store, Error>)
    ensures r.Success? <==> id in s.orders
    ensures r.Failure? ==> r.error == OrderNotFound(id)
    ensures r.Success? ==>
      && r.value.products == s.products
      && r.value.orders.Keys == s.orders.Keys
      && (forall o :: o in s.orders && o != id ==> r.value.orders[o] == s.orders[o])
      && r.value.orders[id].status == Cancelled
      && r.value.orders[id].payment.status == Failed
      && r.value.orders[id].(status := s.orders[id].status, payment := s.orders[id].payment) == s.orders[id]
      && r.value.orders[id].payment.(status := s.orders[id].payment.status) == s.orders[id].payment
  {
    if id !in s.orders then Failure(OrderNotFound(id))
    else
      var o := s.orders[id];
      Success(s.(orders := s.orders[id := o.(status := Cancelled, payment := o.payment.(status := Failed))]))
  }

  /** The body of a discount request; `percentage` may be absent. */
  datatype DiscountRequest = DiscountRequest(percentage: Option<int>, startDate: Option<int>, endDate: Option<int>, isActive: bool)

  /** The range check, which an absent percentage passes. */
  predicate PercentageOutOfRange(pct: Option<int>) {
    pct.Some? && (pct.value < 0 || pct.value > 100)
  }

  /** The price a discount is computed from: the original price when the
      product has one, its current price otherwise. */
  function BasePrice(p: Product): Cents {
    p.originalPrice.GetOr(p.price)
  }

  /** Whether the request takes anything off: active, with a positive
      percentage. */
  predicate TakesOff(req: DiscountRequest) {
    req.isActive && req.percentage.Some? && req.percentage.value > 0
  }

  /** The price `applyDiscount` sets. */
  function NewPrice(p: Product, req: DiscountRequest): Cents {
    if TakesOff(req) then DiscountedPrice(BasePrice(p), req.percentage.value) else BasePrice(p)
  }

  /** `applyDiscount`: an out-of-range percentage fails before the product
      is looked up, an unknown product fails next, and a product without an
      original price fails when it is saved. Otherwise the discount data is
      replaced and the price is recomputed from the original price; nothing
      else changes. */
  function ApplyDiscount(s: Store, id: ProductId, req: DiscountRequest): (r: Result<Store, Error>)
    ensures PercentageOutOfRange(req.percentage) ==> r == Failure(InvalidPercentage)
    ensures !PercentageOutOfRange(req.percentage) && id !in s.products ==> r == Failure(ProductNotFound(id))
    ensures !PercentageOutOfRange(req.percentage) && id in s.products && !ProductFieldsPresent(s.products[id]) ==>
      r == Failure(SchemaViolation)
    ensures r.Success? <==>
      !PercentageOutOfRange(req.percentage) && id in s.products && ProductFieldsPresent(s.products[id])
    ensures r.Success? ==>
      && r.value.orders == s.orders
      && r.value.products.Keys == s.products.Keys
      && (forall p :: p in s.products && p != id ==> r.value.products[p] == s.products[p])
      && var before, after := s.products[id], r.value.products[id];
         && after.discount == Discount(req.percentage, req.startDate, req.endDate, req.isActive)
         && after.price == NewPrice(before, req)
         && after.(price := before.price, discount := before.discount) == before
  {
    if PercentageOutOfRange(req.percentage) then Failure(InvalidPercentage)
    else if id !in s.products then Failure(ProductNotFound(id))
    else
      var p := s.products[id];
      var updated := p.(discount := Discount(req.percentage, req.startDate, req.endDate, req.isActive),
                        price := NewPrice(p, req));
      var saved :- SaveProduct(updated);
      Success(s.(products := s.products[id := saved]))
  }

  /** A discount moves the price from the base price towards zero and
      never past it. The handler accepts any non-zero price, so a negative
      base price stays between itself and zero. */
  lemma DiscountStaysWithinBase(s: Store, id: ProductId, req: DiscountRequest)
    requires ApplyDiscount(s, id, req).Success?
    ensures BasePrice(s.products[id]) >= 0 ==>
      0 <= ApplyDiscount(s, id, req).value.products[id].price <= BasePrice(s.products[id])
    ensures BasePrice(s.products[id]) < 0 ==>
      BasePrice(s.products[id]) <= ApplyDiscount(s, id, req).value.products[id].price <= 0
  {
    if TakesOff(req) {
      DiscountedPriceBounds(BasePrice(s.products[id]), req.percentage.value);
    }
  }

  /** An inactive or zero discount resets the price to the base price, so
      switching a discount off restores the original price. */
  lemma InactiveDiscountRestoresBase(s: Store, id: ProductId, req: DiscountRequest)
    requires ApplyDiscount(s, id, req).Success?
    requires !TakesOff(req)
    ensures ApplyDiscount(s, id, req).value.products[id].price == BasePrice(s.products[id])
    ensures s.products[id].originalPrice.Some? ==>
      ApplyDiscount(s, id, req).value.products[id].price == s.products[id].originalPrice.value
  {
  }

  /** Once a product has an original price, applying the same discount
      again changes nothing: the price is always computed from the
      original price, never from the already discounted one. */
  lemma ApplyDiscountIdempotent(s: Store, id: ProductId, req: DiscountRequest)
    requires ApplyDiscount(s, id, req).Success?
    ensures var once := ApplyDiscount(s, id, req).value;
            ApplyDiscount(once, id, req) == Success(once)
  {
    var once := ApplyDiscount(s, id, req).value;
    assert BasePrice(once.products[id]) == BasePrice(s.products[id]);
    assert once.products[id := once.products[id]] == once.products;
  }

  /** Twenty per cent off an original price of 100.00 gives 80.00, and the
      original price is kept. */
  lemma TwentyPercentOff()
    ensures var s := Store(map["p" := Product("Lamp", "A lamp", 10000, Some(10000), 3, "Home", [], None, NoDiscount)], map[]);
            var r := ApplyDiscount(s, "p", DiscountRequest(Some(20), None, None, true));
            && r.Success?
            && r.value.products["p"].price == 8000
            && r.value.products["p"].originalPrice == Some(10000)
  {
  }

  /** A product record without an original price cannot be discounted:
      the new price is computed from its current price, but saving it fails
      validation, so the request fails and the record is left as it was. */
  lemma DiscountWithoutOriginalPriceFails()
    ensures var s := Store(map["p" := Product("Lamp", "A lamp", 10000, None, 3, "Home", [], None, NoDiscount)], map[]);
            var req := DiscountRequest(Some(20), None, None, true);
            && NewPrice(s.products["p"], req) == 8000
            && ApplyDiscount(s, "p", req) == Failure(SchemaViolation)
  {
  }

  /** No order of statuses is enforced: any existing order can be set to
      any of the five statuses, a delivered one back to pending included. */
  lemma AnyStatusChangeAllowed(s: Store, id: OrderId, to: OrderStatus)
    requires id in s.orders
    ensures ChangeOrderStatus(s, id, StatusName(to)).Success?
    ensures ChangeOrderStatus(s, id, StatusName(to)).value.orders[id].status == to
  {
    match to
    case Pending =>
    case Processing =>
    case Shipped =>
    case Delivered =>
    case Cancelled =>
  }

  /** Removing a product just added under a fresh id gives back the store
      as it was. */
  lemma AddThenRemoveProduct(s: Store, id: ProductId, req: ProductRequest)
    requires AddProduct(s, id, req).Success?
    ensures RemoveProduct(AddProduct(s, id, req).value, id) == Success(s)
  {
    var added := AddProduct(s, id, req).value;
    assert added.products - {id} == s.products;
  }

  /** Setting an order's status and then setting its old status back gives
      back the store as it was. */
  lemma ChangeOrderStatusUndo(s: Store, id: OrderId, status: string)
    requires ChangeOrderStatus(s, id, status).Success?
    ensures var changed := ChangeOrderStatus(s, id, status).value;
            ChangeOrderStatus(changed, id, StatusName(s.orders[id].status)) == Success(s)
  {
    var changed := ChangeOrderStatus(s, id, status).value;
    var back := StatusName(s.orders[id].status);
    assert ParseStatus(back) == Some(s.orders[id].status) by {
      match s.orders[id].status
      case Pending =>
      case Processing =>
      case Shipped =>
      case Delivered =>
      case Cancelled =>
    }
    assert changed.orders[id := s.orders[id]] == s.orders;
  }

  /** Every administrator handler keeps every record valid. */
  lemma AdminHandlersPreserveInvariant(s: Store, pid: ProductId, oid: OrderId, preq: ProductRequest,
                                        status: string, dreq: DiscountRequest)
    requires StoreInvariant(s)
    ensures AddProduct(s, pid, preq).Success? ==> StoreInvariant(AddProduct(s, pid, preq).value)
    ensures RemoveProduct(s, pid).Success? ==> StoreInvariant(RemoveProduct(s, pid).value)
    ensures ChangeOrderStatus(s, oid, status).Success? ==> StoreInvariant(ChangeOrderStatus(s, oid, status).value)
    ensures AdminCancelOrder(s, oid).Success? ==> StoreInvariant(AdminCancelOrder(s, oid).value)
    ensures ApplyDiscount(s, pid, dreq).Success? ==> StoreInvariant(ApplyDiscount(s, pid, dreq).value)
  {
  }
}
