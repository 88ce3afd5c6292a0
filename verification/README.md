# Ecommerce website: order workflow, cart and catalogue, in Dafny

This project models the core of a small MERN e-commerce site. The site has
three parts:

- an Express/Mongoose backend: product and order records, the customer's
  place-order, cancel-order and update-profile handlers, and the
  administrator's handlers for adding products, changing order status,
  cancelling orders and applying discounts;
- a React storefront: the shopping cart and checkout, and the product
  page's search, category filter, sort and suggestions;
- a React admin panel: the product list with its search, suggestions and
  discount form, and the dashboard's figures.

Each handler is a pure function from a `Store` (the product and order
collections, keyed by id) and a request to a `Result`. A failure carries the
error the handler reports and leaves the store as it was. Money is kept in
integer cents (`Money.Cents`). The cart is a sequence of
(product id, quantity) entries, and the client pages work over sequences of
`Listing`s, which are products with their ids.

Modules, following the program's own split:

- `Results`: `Option` and `Result`.
- `Money`: cents and the two-decimal rounding of a discounted price.
- `Text`: ASCII lower-casing, `includes` and JavaScript `trim`.
- `Seqs`: `filter` and `slice`, and the subsequence relation.
- `Sorting`: a stable sort by comparator.
- `Models`: the product, order and payment records, the order schema, and the product pre-save hook.
- `Orders`: the customer's `placeOrder` and `cancelOrder`.
- `Admin`: the administrator's handlers.
- `Profile`: `updateProfile`.
- `Cart`: the storefront cart and checkout.
- `Catalogue`: both product pages and the discount form.
- `Dashboard`: the admin dashboard.

Behaviour of the code that the lemmas pin down:

- Order lines are stored as the client sends them, price included, and
  the handler never checks that price. The order total is computed from
  the current product prices instead, so the two can disagree
  (`Orders.ClientLinePriceStoredAsSent`). The schema comment on the line
  price, "store accurate price" (backend/models/orderModel.js:23), is not
  enforced.
- Every line is checked against the stock before any stock is taken. Two
  lines for the same product can therefore take more than there is and
  leave a negative stock (`Orders.DuplicateLinesOversell`). With distinct
  lines, stock stays non-negative (`Orders.PlaceOrderKeepsStockNonNegative`).
- The customer's cancellation refuses only `shipped` and `delivered`
  orders, although its comment reads "check if already
  processed/shipped/delivered" (backend/controllers/userController.js:218).
  A `processing` order can be cancelled. An already cancelled order can be
  cancelled again, and its stock comes back a second time
  (`Orders.CancelTwiceRestocksTwice`).
- A discount request always recomputes the price from the original price.
  An inactive or zero discount therefore puts the original price back
  (`Admin.InactiveDiscountRestoresBase`).
- The status change checks only that the new status is one of the five
  names. Any status may follow any other, a delivered order going back
  to pending included (`Admin.AnyStatusChangeAllowed`).
- `originalPrice` is required by the product schema, and Mongoose
  validates a document before it runs the pre-save hooks. The hook that
  copies the price into a missing original price
  (backend/models/productModel.js:55-60) therefore never changes a record
  that gets saved (`Models.SaveProduct`, which checks every required
  field and the percentage bounds). A product record without an
  original price cannot be discounted: saving it fails
  (`Admin.DiscountWithoutOriginalPriceFails`).

## Model

| member | source | states |
|---|---|---|
| Money.DiscountedPriceBounds | backend/controllers/adminController.js:136-138 | a discount of 0 to 100 per cent off a base price gives a price between 0 and the base, for a negative base as well as a non-negative one |
| Money.DiscountedPriceExtremes | backend/controllers/adminController.js:136-138 | 0 per cent leaves the base price; 100 per cent makes the price 0 |
| Models.PreSave | backend/models/productModel.js:55-60 | the hook gives a product its current price as original price when it has none, and changes no other field |
| Models.SaveProduct | backend/models/productModel.js:3-60 | saving a product fails validation exactly when a required field is missing or empty (name, description, category, original price, an image's url or public id) or its discount percentage lies outside 0 to 100; a product that saves is stored unchanged |
| Models.SavedProductsSkipTheHook | backend/models/productModel.js:55-60 | the pre-save hook leaves every product that passes validation as it is |
| Models.PreSaveIdempotent | backend/models/productModel.js:55-60 | running the hook twice is running it once, and it leaves a product that has an original price alone |
| Models.ParseStatus | backend/models/orderModel.js:41-45 | an order status is accepted exactly when it is one of the five enumerated names, and reads back as that name |
| Models.ParseMethod | backend/models/orderModel.js:37 | a payment method is accepted exactly when it is card, paypal or cod, and reads back as that name |
| Models.ParsePaymentStatus | backend/models/orderModel.js:38 | an absent payment status defaults to pending; a present one is accepted exactly when it is pending, paid or failed |
| Models.NewOrder | backend/models/orderModel.js:5-49 | a new order record saves exactly when every line has quantity at least 1 and a price, the required address fields are present and the payment names are enumerated; it is pending and keeps user, lines, address and total as given |
| Orders.FirstUnavailable | backend/controllers/userController.js:132-143 | the position of the first line naming an unknown product or more than its stock: every earlier line is available, and that line is not |
| Orders.CheckLines | backend/controllers/userController.js:129-147 | the validation loop succeeds exactly when no line is unavailable, reports the first bad line's error (not found before out of stock), and totals every line at the product's current price |
| Orders.AdjustStock | backend/controllers/userController.js:161-165 | after the stock loop each product's stock has moved by the whole quantity its lines name (down when ordering, up when restocking), and nothing else has changed |
| Orders.PlaceOrder | backend/controllers/userController.js:120-176 | an empty order fails first, then the first unavailable line, then an order the schema rejects, then a clash with an existing order id; on success exactly the order record built from the request is added (pending, the request's lines, address and payment, the current-price total), and each product loses exactly its ordered quantity |
| Orders.CancelOrder | backend/controllers/userController.js:201-240 | an unknown order, a requester who is neither the owner nor an admin, a shipped or delivered order, and a stored order that fails the order schema when saved again each fail in that order and change nothing; otherwise the order becomes cancelled and every line's quantity returns to its product |
| Orders.QuantityForDistinct | backend/controllers/userController.js:161-165 | when lines name distinct products, each product is asked for exactly its one line's quantity |
| Orders.PlaceOrderKeepsStockNonNegative | backend/controllers/userController.js:132-165 | with distinct lines, a successful order leaves every non-negative stock non-negative |
| Orders.DuplicateLinesOversell | backend/controllers/userController.js:132-165 | two lines of one unit for a product with one unit in stock are both accepted and leave stock -1 |
| Orders.CancelTwiceRestocksTwice | backend/controllers/userController.js:219-233 | cancelling an already cancelled order succeeds and restocks its quantities a second time |
| Orders.PlaceThenCancelRestoresStock | backend/controllers/userController.js:161-165 | the owner cancelling an order just placed puts the product collection back exactly as it was |
| Orders.PlaceOrderPreservesInvariant | backend/controllers/userController.js:150-158 | placing an order keeps every product and every order valid against its schema, the discount percentage bounds included |
| Orders.CancelOrderPreservesInvariant | backend/controllers/userController.js:223-233 | cancelling keeps every record valid |
| Orders.OrderLifecycleScenario | backend/controllers/userController.js:120-240 | stock 5 at 10.00: ordering 3 leaves 2 with total 30.00, cancelling restores 5, a second cancel raises it to 8 |
| Orders.ClientLinePriceStoredAsSent | backend/controllers/userController.js:146-156 | a line claiming 0.01 a unit is stored with that price while the total uses the product's 10.00 |
| Admin.AddProduct | backend/controllers/adminController.js:6-35 | a missing name, description, category or images, or a missing or zero price or original price, fails first; then the save's validation (blank trimmed name, image without url or id); then an id clash; on success exactly one product is added, holding the request's fields with the name trimmed, stock 0 when none is given and no discount, and it is a valid product |
| Admin.RemoveProduct | backend/controllers/adminController.js:38-52 | an unknown product fails; otherwise exactly that product is removed and orders are untouched |
| Admin.AddThenRemoveProduct | backend/controllers/adminController.js:6-52 | removing a product just added under a fresh id gives back the store as it was |
| Admin.ChangeOrderStatusUndo | backend/controllers/adminController.js:55-82 | setting an order's status and then its old status back gives back the store as it was |
| Admin.ChangeOrderStatus | backend/controllers/adminController.js:55-82 | a status outside the five names fails before the order lookup, an unknown order fails next; otherwise only that order's status changes, to the named one |
| Admin.AdminCancelOrder | backend/controllers/adminController.js:86-108 | an unknown order fails; otherwise, from any status, the order becomes cancelled with payment status failed, every other field of the order stays as it was, and no stock moves |
| Admin.ApplyDiscount | backend/controllers/adminController.js:111-163 | a percentage outside 0 to 100 fails before the product lookup, then an unknown product, then a product missing a required field such as the original price (its save fails); otherwise the discount data is replaced, the price is recomputed from the original price, and nothing else changes |
| Admin.DiscountStaysWithinBase | backend/controllers/adminController.js:129-138 | a discounted price lies between 0 and the base price, whatever the sign of the base price (the handler accepts any non-zero price) |
| Admin.InactiveDiscountRestoresBase | backend/controllers/adminController.js:133-138 | an inactive or zero discount sets the price back to the base price |
| Admin.ApplyDiscountIdempotent | backend/controllers/adminController.js:129-150 | applying the same discount a second time changes nothing, because the price is always computed from the original price |
| Admin.TwentyPercentOff | backend/controllers/adminController.js:136-148 | 20 per cent off 100.00 gives 80.00 and keeps the original price |
| Admin.DiscountWithoutOriginalPriceFails | backend/controllers/adminController.js:129-150 | a product record without an original price has its new price computed from the current price, but the request fails at the save and nothing changes |
| Admin.AnyStatusChangeAllowed | backend/controllers/adminController.js:60-68 | any existing order can be set to any of the five statuses |
| Admin.AdminHandlersPreserveInvariant | backend/controllers/adminController.js:6-163 | every administrator handler keeps every product valid against the product schema (required fields present, discount percentage within 0 to 100) and every order valid |
| Profile.UpdateProfile | backend/controllers/userController.js:78-116 | a missing user id fails first, then a request supplying no field, then an unknown user; otherwise only the supplied name, email and phone of that user change |
| Profile.UpdateProfileIdempotent | backend/controllers/userController.js:88-101 | sending the same update twice gives the same accounts as sending it once |
| Cart.QuantityIn | frontend/src/context/ShopContext.jsx:42 | a product has a cart quantity exactly when the cart holds an entry for it |
| Cart.AddToCart | frontend/src/context/ShopContext.jsx:40-54 | an id in the cart has the amount added to every entry naming it, each entry staying in place with the others unchanged; a new id is appended as one entry; the product's quantity becomes the old one (or 0) plus the amount, others are unchanged, and distinct ids stay distinct |
| Cart.RemoveFromCart | frontend/src/context/ShopContext.jsx:57-59 | exactly the entries for the id go, every other entry stays as often as before, in order and with its quantity, and distinct ids stay distinct |
| Cart.UpdateCartQuantity | frontend/src/context/ShopContext.jsx:62-75 | a quantity of zero or less removes the product; otherwise every entry naming it takes the new quantity, each entry stays in place, and nothing else changes |
| Cart.AddThenRemove | frontend/src/context/ShopContext.jsx:40-59 | adding a product the cart lacks and then removing it gives back the cart |
| Cart.Find | frontend/src/context/ShopContext.jsx:80 | the catalogue lookup fails exactly when no listing has the id; otherwise it returns the product of the first listing with that id |
| Cart.CartTotalAppend | frontend/src/context/ShopContext.jsx:78-83 | the total of two carts together is the sum of their totals |
| Cart.AddToCartRaisesTotal | frontend/src/context/ShopContext.jsx:40-83 | on a cart with distinct ids, adding raises the total by the added units at the product's price |
| Cart.CartTotal | frontend/src/context/ShopContext.jsx:78-83 | a cart of non-negative quantities over a catalogue of non-negative prices never totals below zero |
| Cart.UnlistedCartTotalsZero | frontend/src/context/ShopContext.jsx:78-83 | a cart none of whose products is in the catalogue totals zero, whatever its quantities |
| Cart.RemoveUnknownKeepsTotal | frontend/src/context/ShopContext.jsx:78-83 | entries for products missing from the catalogue add nothing to the total |
| Cart.OrderLines | frontend/src/context/ShopContext.jsx:88-95 | the order lines exist exactly when every entry's product is in the catalogue, one per entry with its id, quantity and catalogue price |
| Cart.Checkout | frontend/src/context/ShopContext.jsx:86-119 | the lines sent are exactly the order lines built from the cart; the cart is emptied exactly when those lines could be built and the backend accepted the order, and is kept otherwise |
| Cart.CheckoutLinesDistinct | frontend/src/context/ShopContext.jsx:88-95 | a cart with distinct ids produces order lines for distinct products |
| Cart.CheckoutTotalMatchesCart | frontend/src/context/ShopContext.jsx:78-95 | when the backend's prices are the catalogue's, the order's total equals the cart total |
| Catalogue.Categories | frontend/src/pages/Products.jsx:17-20 | each category of some listing, once, empty ones dropped; the admin page computes its category list the same way (admin/src/pages/Products.jsx:31) |
| Catalogue.ParseSortMode | frontend/src/pages/Products.jsx:46-57 | each of price-low, price-high and name selects its sort mode, and every other value keeps the catalogue order |
| Catalogue.StorefrontProducts | frontend/src/pages/Products.jsx:36-60 | exactly the listings matching the term in name or description and the category, each as often as in the catalogue; cheapest first, dearest first, or catalogue order |
| Catalogue.EmptySearchKeepsAll | frontend/src/pages/Products.jsx:36-43 | no term and no category keep the whole catalogue |
| Catalogue.StorefrontSuggestions | frontend/src/pages/Products.jsx:23-33 | none for a blank term or one shorter than two UTF-16 code units; otherwise the first five listings matching in name, description or category, in catalogue order, or all matches when there are fewer than five |
| Text.Utf16LengthIsCount | frontend/src/pages/Products.jsx:24 | a term's JavaScript length equals its character count exactly when it has no character outside the Basic Multilingual Plane |
| Catalogue.EmojiTermIsSearched | admin/src/pages/Products.jsx:34-41 | a one-character emoji term has JavaScript length 2, so the admin panel searches for it |
| Catalogue.AdminProducts | admin/src/pages/Products.jsx:24-28 | exactly the listings whose name matches and whose category is selected, each as often as in the catalogue, in catalogue order |
| Catalogue.AdminSuggestions | admin/src/pages/Products.jsx:34-41 | none for a term shorter than two UTF-16 code units; otherwise the first five listings matching in name or description, in catalogue order, or all matches when there are fewer than five |
| Catalogue.PrefillDiscount | admin/src/pages/Products.jsx:60-69 | the form opens with the stored percentage or 0 and the stored active flag |
| Catalogue.ResubmittedFormKeepsPrice | admin/src/pages/Products.jsx:49-69 | submitting the opened form unchanged keeps a price that reflects the stored discount |
| Dashboard.ComputeStats | admin/src/pages/Dashboard.jsx:14-32 | the product and order counts, the sum of all order totals, and the number of pending orders, which never exceeds the order count |
| Dashboard.RevenueAppend | admin/src/pages/Dashboard.jsx:18-23 | revenue over two order lists is the sum of their revenues |
| Dashboard.RevenueNonNegative | admin/src/pages/Dashboard.jsx:18-23 | orders without negative totals give non-negative revenue |
| Dashboard.CancelledOrdersStillCount | admin/src/pages/Dashboard.jsx:18-24 | cancelling an order leaves revenue unchanged and lowers the pending count only if it was pending |
| Dashboard.RecentOrders | admin/src/pages/Dashboard.jsx:65 | the first five orders as fetched, or all of them |

## Left out

- Persistence: MongoDB, `populate` and timestamps are not modelled. The store is two maps, and fresh ids are parameters.
- A concurrent check-then-decrement race on stock cannot occur in a pure model. Each request is one atomic step.
- Floating point and `Decimal128`: money is integer cents. `toFixed(2)` is rounding half away from zero, so binary floating-point artefacts are not modelled.
- Percentages are whole numbers. A fractional discount percentage is not modelled.
- Authentication is not modelled: JWT checks, bcrypt, email validation, login and register. The requester's id and role are parameters.
- Order listing, product listing with discount-aware formatting, and the fetch endpoints are not modelled. They only read and reformat records.
- HTTP status codes and response messages are not modelled. Each handler's outcome is its `Result`.
- `localeCompare` is the parameter `collate` of `Catalogue.StorefrontProducts`. Sorting by name is only as specified as that parameter.
- Case-insensitive search lower-cases ASCII letters only. Unicode case mapping is not modelled.
- Strings are sequences of Unicode code points. Lengths are counted in UTF-16 code units where the pages compare them. `includes` is matched on code points, which gives the same answer as UTF-16 matching for well-formed strings. JavaScript strings holding lone surrogates cannot be represented.
- Models.SaveProduct: the price and stock are always present in the model, so their `required` checks cannot fail; ratings are not modelled; and the name setter's trimming is done by `Admin.AddProduct` itself, as the name is the only field written through it.
- Quantities and stock are whole numbers. The schemas' `Number` type also accepts fractions: an order line of 1.5 units would move 1.5 units of stock, and a line of 0.5 units passes the stock check and then fails the order schema's minimum of 1. Fractional amounts are not modelled.
- Dates are opaque integers. The form's `YYYY-MM-DD` formatting is not modelled, and neither are discount start and end dates, which the code stores but never consults.
- Ratings, brand display, images upload and all rendering are not modelled.
- Profile.UpdateProfile: the schema's trimming of the name, lower-casing of the email, and the email's uniqueness are not modelled. Only which fields are written is.
- Dashboard.ComputeStats: totals are always numbers, so the `parseFloat` fallback for non-numeric amounts is not modelled.
- The network calls made by checkout and by the admin panel are the parameter `accepted` of `Cart.Checkout`. The request and response themselves are not modelled.
