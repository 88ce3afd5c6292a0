/** The records the backend stores, as its Mongoose schemas define them:
    products, orders and their parts, with the schema defaults, the
    enumerations and the rules applied when a record is saved. */
module Models {
  import opened Results
  import opened Money

  type ProductId = string
  type OrderId = string
  type UserId = string

  /** Discount metadata of a product; dates are opaque timestamps. */
  datatype Discount = Discount(
    percentage: Option<int>,
    startDate: Option<int>,
    endDate: Option<int>,
    isActive: bool)

  /** The discount of a product created without one (`isActive` defaults to
      false, the other fields are absent). */
  const NoDiscount := Discount(None, None, None, false)

  datatype Image = Image(url: string, publicId: string)

  /** A product record. `originalPrice` is required by the schema, so it is
      absent only on a record that would fail validation when saved; the
      schema puts no lower bound on `stock`. */
  datatype Product = Product(
    name: string,
    description: string,
    price: Cents,
    originalPrice: Option<Cents>,
    stock: int,
    category: string,
    images: seq<Image>,
    brand: Option<string>,
    discount: Discount)

  /** The product pre-save hook: a product without an original price takes
      its current price as the original one; nothing else changes. */
  function PreSave(p: Product): (r: Product)
    ensures r.originalPrice == Some(p.originalPrice.GetOr(p.price))
    ensures r.(originalPrice := p.originalPrice) == p
  {
    if p.originalPrice.None? then p.(originalPrice := Some(p.price)) else p
  }

  /** Running the hook twice is running it once. */
  lemma PreSaveIdempotent(p: Product)
    ensures PreSave(PreSave(p)) == PreSave(p)
    ensures p.originalPrice.Some? ==> PreSave(p) == p
  {
  }

  /** The product schema's `required` fields, which Mongoose rejects when
      absent or empty: the name, description and category, the original
      price, and each image's url and public id. The price is always
      present in this model. */
  predicate ProductFieldsPresent(p: Product) {
    && p.name != "" && p.description != "" && p.category != ""
    && p.originalPrice.Some?
    && forall i :: 0 <= i < |p.images| ==> p.images[i].url != "" && p.images[i].publicId != ""
  }

  /** The schema's bounds on a discount percentage: 0 to 100 when present. */
  predicate PercentageInRange(d: Discount) {
    d.percentage.None? || 0 <= d.percentage.value <= 100
  }

  /** A product the schema accepts. */
  predicate ValidProduct(p: Product) {
    ProductFieldsPresent(p) && PercentageInRange(p.discount)
  }

  /** `save()` on a product. Mongoose validates the document before it runs
      the pre-save hooks, so a product missing a required field (the
      original price among them) or with a percentage out of bounds is
      rejected, and the hook never gets to fill in an original price; a
      product that passes is left as it is by the hook. */
  function SaveProduct(p: Product): (r: Result<Product, Error>)
    ensures r.Success? <==> ValidProduct(p)
    ensures r.Failure? ==> r.error == SchemaViolation
    ensures r.Success? ==> r.value == p
  {
    if !ValidProduct(p) then Failure(SchemaViolation) else Success(PreSave(p))
  }

  /** The hook never changes a saved product: whatever saves successfully
      already had the original price the hook would have set. */
  lemma SavedProductsSkipTheHook(p: Product)
    requires SaveProduct(p).Success?
    ensures PreSave(SaveProduct(p).value) == SaveProduct(p).value
    ensures SaveProduct(p).value.originalPrice == p.originalPrice
  {
  }

  /** A product as the product list endpoint returns it, with its id. */
  datatype Listing = Listing(id: ProductId, product: Product)

  datatype OrderStatus = Pending | Processing | Shipped | Delivered | Cancelled

  /** The five values the `orderStatus` enumeration accepts. */
  const StatusNames: set<string> := {"pending", "processing", "shipped", "delivered", "cancelled"}

  function StatusName(s: OrderStatus): (r: string)
    ensures r in StatusNames
  {
    match s
    case Pending => "pending"
    case Processing => "processing"
    case Shipped => "shipped"
    case Delivered => "delivered"
    case Cancelled => "cancelled"
  }

  /** Reads an order status: defined exactly on the enumerated names. */
  function ParseStatus(s: string): (r: Option<OrderStatus>)
    ensures r.Some? <==> s in StatusNames
    ensures r.Some? ==> StatusName(r.value) == s
  {
    if s == "pending" then Some(Pending)
    else if s == "processing" then Some(Processing)
    else if s == "shipped" then Some(Shipped)
    else if s == "delivered" then Some(Delivered)
    else if s == "cancelled" then Some(Cancelled)
    else None
  }

  datatype PaymentMethod = Card | Paypal | Cod

  const MethodNames: set<string> := {"card", "paypal", "cod"}

  function MethodName(m: PaymentMethod): (r: string)
    ensures r in MethodNames
  {
    match m
    case Card => "card"
    case Paypal => "paypal"
    case Cod => "cod"
  }

  /** Reads a payment method: defined exactly on the enumerated names. */
  function ParseMethod(s: string): (r: Option<PaymentMethod>)
    ensures r.Some? <==> s in MethodNames
    ensures r.Some? ==> MethodName(r.value) == s
  {
    if s == "card" then Some(Card)
    else if s == "paypal" then Some(Paypal)
    else if s == "cod" then Some(Cod)
    else None
  }

  datatype PaymentStatus = Unpaid | Paid | Failed

  const PaymentStatusNames: set<string> := {"pending", "paid", "failed"}

  function PaymentStatusName(s: PaymentStatus): (r: string)
    ensures r in PaymentStatusNames
  {
    match s
    case Unpaid => "pending"
    case Paid => "paid"
    case Failed => "failed"
  }

  /** Reads a payment status; an absent one takes the schema default
      `pending`, a present one must be an enumerated name. */
  function ParsePaymentStatus(s: Option<string>): (r: Option<PaymentStatus>)
    ensures r.Some? <==> (s.None? || s.value in PaymentStatusNames)
    ensures s.None? ==> r == Some(Unpaid)
    ensures s.Some? && r.Some? ==> PaymentStatusName(r.value) == s.value
  {
    match s
    case None => Some(Unpaid)
    case Some(name) =>
      if name == "pending" then Some(Unpaid)
      else if name == "paid" then Some(Paid)
      else if name == "failed" then Some(Failed)
      else None
  }

  /** A shipping address; an empty string stands for an absent field. */
  datatype Address = Address(street: string, city: string, state: string, postalCode: string, country: string)

  /** Street, city, postal code and country are required; state is not. */
  predicate ValidAddress(a: Address) {
    a.street != "" && a.city != "" && a.postalCode != "" && a.country != ""
  }

  datatype PaymentInfo = PaymentInfo(mode: PaymentMethod, status: PaymentStatus, transactionId: Option<string>)

  /** An order line, both as a request sends it and as an order stores it:
      the order keeps the request's lines verbatim, price included. */
  datatype Item = Item(product: ProductId, quantity: int, price: Option<Cents>)

  /** Every stored line names a quantity of at least one and carries a
      price. */
  predicate ValidItem(it: Item) {
    it.quantity >= 1 && it.price.Some?
  }

  predicate ValidItems(items: seq<Item>) {
    forall i :: 0 <= i < |items| ==> ValidItem(items[i])
  }

  datatype Order = Order(
    user: UserId,
    items: seq<Item>,
    shipping: Address,
    payment: PaymentInfo,
    status: OrderStatus,
    total: Cents)

  /** The payment part of an order request, as strings still to be checked
      against the enumerations. */
  datatype PaymentRequest = PaymentRequest(mode: string, status: Option<string>, transactionId: Option<string>)

  datatype OrderRequest = OrderRequest(items: seq<Item>, shipping: Address, payment: PaymentRequest)

  /** What the order schema demands of a request before the order can be
      saved. */
  predicate ValidRequest(req: OrderRequest) {
    && ValidItems(req.items)
    && ValidAddress(req.shipping)
    && req.payment.mode in MethodNames
    && (req.payment.status.None? || req.payment.status.value in PaymentStatusNames)
  }

  /** Builds and validates a new order record: the status defaults to
      `pending`, the payment status to `pending` when the request names
      none, and the items are stored as sent. */
  function NewOrder(user: UserId, req: OrderRequest, total: Cents): (r: Result<Order, Error>)
    ensures r.Success? <==> ValidRequest(req)
    ensures r.Failure? ==> r.error == SchemaViolation
    ensures r.Success? ==> && r.value.user == user && r.value.items == req.items
                           && r.value.shipping == req.shipping && r.value.total == total
                           && r.value.status == Pending
                           && MethodName(r.value.payment.mode) == req.payment.mode
                           && r.value.payment.transactionId == req.payment.transactionId
    ensures r.Success? && req.payment.status.None? ==> r.value.payment.status == Unpaid
    ensures r.Success? && req.payment.status.Some? ==> PaymentStatusName(r.value.payment.status) == req.payment.status.value
  {
    var mode := ParseMethod(req.payment.mode);
    var status := ParsePaymentStatus(req.payment.status);
    if ValidItems(req.items) && ValidAddress(req.shipping) && mode.Some? && status.Some? then
      Success(Order(user, req.items, req.shipping, PaymentInfo(mode.value, status.value, req.payment.transactionId), Pending, total))
    else
      Failure(SchemaViolation)
  }

  /** A stored order satisfies its schema. */
  predicate WellFormedOrder(o: Order) {
    ValidItems(o.items) && ValidAddress(o.shipping)
  }

  /** The errors the handlers report. */
  datatype Error =
    | NoItems
    | ProductNotFound(product: ProductId)
    | OutOfStock(product: ProductId)
    | OrderNotFound(order: OrderId)
    | NotAuthorized
    | NotCancellable(status: OrderStatus)
    | InvalidStatus(requested: string)
    | InvalidPercentage
    | MissingFields
    | SchemaViolation
    | DuplicateKey
    | MissingUserId
    | NothingToUpdate
    | UserNotFound

  /** The product and order collections. */
  datatype Store = Store(products: map<ProductId, Product>, orders: map<OrderId, Order>)

  /** What every saved record satisfies: each product passed the product
      schema's validation (so it has an original price), and each order the
      order schema's. */
  predicate StoreInvariant(s: Store) {
    && (forall id :: id in s.products ==> ValidProduct(s.products[id]))
    && (forall id :: id in s.orders ==> WellFormedOrder(s.orders[id]))
  }

  /** The total quantity that the lines of `items` ask of product `id`. */
  function QuantityFor(items: seq<Item>, id: ProductId): int
  {
    if items == [] then 0
    else (if items[0].product == id then items[0].quantity else 0) + QuantityFor(items[1..], id)
  }
}
