/** The storefront's cart: a list of (product id, quantity) entries that
    keeps at most one entry per product, its total at catalogue prices, and
    the order lines it turns into at checkout. */
module Cart {
  import opened Results
  import opened Money
  import opened Models
  import opened Seqs
  import Orders

  datatype Entry = Entry(product: ProductId, quantity: int)

  predicate InCart(cart: seq<Entry>, id: ProductId) {
    exists i :: 0 <= i < |cart| && cart[i].product == id
  }

  /** No two entries name the same product. */
  predicate DistinctIds(cart: seq<Entry>) {
    forall i, j :: 0 <= i < j < |cart| ==> cart[i].product != cart[j].product
  }

  /** The quantity of the first entry naming `id`, if any. */
  function QuantityIn(cart: seq<Entry>, id: ProductId): (r: Option<int>)
    ensures r.Some? <==> InCart(cart, id)
  {
    if cart == [] then None
    else if cart[0].product == id then Some(cart[0].quantity)
    else
      var r := QuantityIn(cart[1..], id);
      assert InCart(cart, id) <==> InCart(cart[1..], id) by {
        if InCart(cart, id) {
          var i :| 0 <= i < |cart| && cart[i].product == id;
          assert cart[1..][i - 1] == cart[i];
        }
        if InCart(cart[1..], id) {
          var i :| 0 <= i < |cart[1..]| && cart[1..][i].product == id;
          assert cart[i + 1] == cart[1..][i];
        }
      }
      r
  }

  /** The position of the first entry naming `id`, or `|cart|`. */
  function IndexOf(cart: seq<Entry>, id: ProductId): (k: nat)
    ensures k <= |cart|
    ensures forall j :: 0 <= j < k ==> cart[j].product != id
    ensures k < |cart| <==> InCart(cart, id)
    ensures k < |cart| ==> cart[k].product == id
  {
    if cart == [] then 0
    else if cart[0].product == id then 0
    else
      var k := 1 + IndexOf(cart[1..], id);
      assert InCart(cart, id) ==> InCart(cart[1..], id) by {
        if InCart(cart, id) {
          var i :| 0 <= i < |cart| && cart[i].product == id;
          assert cart[1..][i - 1] == cart[i];
        }
      }
      k
  }

  /** Adds `q` to the quantity of every entry naming `id`. */
  function AddQuantity(cart: seq<Entry>, id: ProductId, q: int): (r: seq<Entry>)
    ensures |r| == |cart|
    ensures forall i :: 0 <= i < |cart| ==> r[i].product == cart[i].product
    ensures forall i :: 0 <= i < |cart| ==>
      r[i].quantity == cart[i].quantity + (if cart[i].product == id then q else 0)
  {
    seq(|cart|, i requires 0 <= i < |cart| =>
      if cart[i].product == id then cart[i].(quantity := cart[i].quantity + q) else cart[i])
  }

  /** Replaces the quantity of every entry naming `id` by `q`. */
  function SetQuantity(cart: seq<Entry>, id: ProductId, q: int): (r: seq<Entry>)
    ensures |r| == |cart|
    ensures forall i :: 0 <= i < |cart| ==> r[i].product == cart[i].product
    ensures forall i :: 0 <= i < |cart| ==>
      r[i].quantity == if cart[i].product == id then q else cart[i].quantity
  {
    seq(|cart|, i requires 0 <= i < |cart| =>
      if cart[i].product == id then cart[i].(quantity := q) else cart[i])
  }

  /** Two carts with the same products in the same places have the same
      entries wherever they agree on the quantity. */
  lemma {:induction false} QuantityInSameProducts(a: seq<Entry>, b: seq<Entry>, x: ProductId)
    requires |a| == |b|
    requires forall i :: 0 <= i < |a| ==> a[i].product == b[i].product
    requires forall i :: 0 <= i < |a| && a[i].product == x ==> a[i].quantity == b[i].quantity
    ensures QuantityIn(a, x) == QuantityIn(b, x)
    decreases |a|
  {
    if a != [] && a[0].product != x {
      QuantityInSameProducts(a[1..], b[1..], x);
    }
  }

  /** The first entry naming `id` determines `QuantityIn`. */
  lemma {:induction false} QuantityInFirst(cart: seq<Entry>, id: ProductId, k: nat)
    requires k < |cart| && cart[k].product == id
    requires forall j :: 0 <= j < k ==> cart[j].product != id
    ensures QuantityIn(cart, id) == Some(cart[k].quantity)
    decreases k
  {
    if k > 0 {
      QuantityInFirst(cart[1..], id, k - 1);
    }
  }

  /** `addToCart`: an id already in the cart has `q` added to every entry
      naming it, with every entry kept in place; a new id gets one entry `(id, q)` at
      the end. Either way the quantity recorded for `id` grows by `q`, no
      other quantity changes, and distinct ids stay distinct. */
  function AddToCart(cart: seq<Entry>, id: ProductId, q: int): (r: seq<Entry>)
    ensures InCart(cart, id) ==>
      && |r| == |cart|
      && (forall i :: 0 <= i < |cart| ==> r[i].product == cart[i].product)
      && (forall i :: 0 <= i < |cart| ==> r[i].quantity == cart[i].quantity + (if cart[i].product == id then q else 0))
    ensures !InCart(cart, id) ==> r == cart + [Entry(id, q)]
    ensures QuantityIn(r, id) == Some(QuantityIn(cart, id).GetOr(0) + q)
    ensures forall x :: x != id ==> QuantityIn(r, x) == QuantityIn(cart, x)
    ensures DistinctIds(cart) ==> DistinctIds(r)
  {
    if InCart(cart, id) then
      var r := AddQuantity(cart, id, q);
      var k := IndexOf(cart, id);
      QuantityInFirst(cart, id, k);
      QuantityInFirst(r, id, k);
      forall x | x != id
        ensures QuantityIn(r, x) == QuantityIn(cart, x)
      {
        QuantityInSameProducts(r, cart, x);
      }
      r
    else
      var r := cart + [Entry(id, q)];
      QuantityInFirst(r, id, |cart|);
      forall x | x != id
        ensures QuantityIn(r, x) == QuantityIn(cart, x)
      {
        QuantityInAppend(cart, Entry(id, q), x);
      }
      r
  }

  /** An entry appended for another product does not change `x`'s
      quantity. */
  lemma {:induction false} QuantityInAppend(cart: seq<Entry>, e: Entry, x: ProductId)
    requires e.product != x
    ensures QuantityIn(cart + [e], x) == QuantityIn(cart, x)
    decreases |cart|
  {
    if cart != [] {
      assert (cart + [e])[1..] == cart[1..] + [e];
      QuantityInAppend(cart[1..], e, x);
    } else {
      assert ([e])[1..] == [];
    }
  }

  /** The filter `removeFromCart` applies: keep entries for other ids. */
  function Other(id: ProductId): Entry -> bool {
    (e: Entry) => e.product != id
  }

  /** Removing `id` leaves every other product's quantity. */
  lemma {:induction false} QuantityInRemove(cart: seq<Entry>, id: ProductId, x: ProductId)
    requires x != id
    ensures QuantityIn(Filter(cart, Other(id)), x) == QuantityIn(cart, x)
    decreases |cart|
  {
    if cart != [] {
      var rest := Filter(cart[1..], Other(id));
      QuantityInRemove(cart[1..], id, x);
      if cart[0].product != id {
        assert Filter(cart, Other(id)) == [cart[0]] + rest;
        assert ([cart[0]] + rest)[1..] == rest;
      }
    }
  }

  /** Removing entries from a cart with distinct ids keeps them distinct. */
  lemma {:induction false} RemoveKeepsDistinct(cart: seq<Entry>, id: ProductId)
    requires DistinctIds(cart)
    ensures DistinctIds(Filter(cart, Other(id)))
    decreases |cart|
  {
    if cart != [] {
      var rest := Filter(cart[1..], Other(id));
      RemoveKeepsDistinct(cart[1..], id);
      if cart[0].product != id {
        var r := [cart[0]] + rest;
        forall j | 0 < j < |r|
          ensures r[j].product != cart[0].product
        {
          assert r[j] == rest[j - 1];
          assert rest[j - 1] in cart[1..];
          var i :| 0 <= i < |cart[1..]| && cart[1..][i] == rest[j - 1];
          assert cart[i + 1] == cart[1..][i];
        }
      }
    }
  }

  /** `removeFromCart`: the entries naming `id` go, the others stay, each
      as often as before, in their original order with their quantities. */
  function RemoveFromCart(cart: seq<Entry>, id: ProductId): (r: seq<Entry>)
    ensures !InCart(r, id)
    ensures forall e :: e in r <==> e in cart && e.product != id
    ensures forall e :: multiset(r)[e] == if e.product != id then multiset(cart)[e] else 0
    ensures IsSubsequence(r, cart)
    ensures forall x :: x != id ==> QuantityIn(r, x) == QuantityIn(cart, x)
    ensures DistinctIds(cart) ==> DistinctIds(r)
  {
    var r := Filter(cart, Other(id));
    forall e
      ensures e in r <==> e in cart && e.product != id
    {
      FilterMembership(cart, Other(id), e);
    }
    forall x | x != id
      ensures QuantityIn(r, x) == QuantityIn(cart, x)
    {
      QuantityInRemove(cart, id, x);
    }
    assert DistinctIds(cart) ==> DistinctIds(r) by {
      if DistinctIds(cart) {
        RemoveKeepsDistinct(cart, id);
      }
    }
    r
  }

  /** `updateCartQuantity`: a quantity of zero or less removes the entry;
      any other quantity replaces the quantity of every entry naming `id`,
      keeping every entry in place and every other quantity as it was. */
  function UpdateCartQuantity(cart: seq<Entry>, id: ProductId, q: int): (r: seq<Entry>)
    ensures q <= 0 ==> r == RemoveFromCart(cart, id)
    ensures q > 0 ==>
      && |r| == |cart|
      && (forall i :: 0 <= i < |cart| ==> r[i].product == cart[i].product)
      && (forall i :: 0 <= i < |cart| ==> r[i].quantity == if cart[i].product == id then q else cart[i].quantity)
      && QuantityIn(r, id) == (if InCart(cart, id) then Some(q) else None)
      && (forall x :: x != id ==> QuantityIn(r, x) == QuantityIn(cart, x))
      && (DistinctIds(cart) ==> DistinctIds(r))
  {
    if q <= 0 then RemoveFromCart(cart, id)
    else
      var r := SetQuantity(cart, id, q);
      var k := IndexOf(cart, id);
      assert QuantityIn(r, id) == (if InCart(cart, id) then Some(q) else None) by {
        if k < |cart| {
          QuantityInFirst(cart, id, k);
          QuantityInFirst(r, id, k);
        } else {
          QuantityInSameProducts(r, cart, id);
        }
      }
      forall x | x != id
        ensures QuantityIn(r, x) == QuantityIn(cart, x)
      {
        QuantityInSameProducts(r, cart, x);
      }
      r
  }

  /** Adding a product the cart does not hold and then removing it gives
      the cart back. */
  lemma {:induction false} AddThenRemove(cart: seq<Entry>, id: ProductId, q: int)
    requires !InCart(cart, id)
    ensures RemoveFromCart(AddToCart(cart, id, q), id) == cart
  {
    KeepAllBut(cart, Entry(id, q));
  }

  /** Filtering out the one appended entry's product from a cart that does
      not name it gives the cart. */
  lemma {:induction false} KeepAllBut(cart: seq<Entry>, e: Entry)
    requires !InCart(cart, e.product)
    ensures Filter(cart + [e], Other(e.product)) == cart
    decreases |cart|
  {
    var c := cart + [e];
    if cart == [] {
      assert c == [e] && c[1..] == [];
      assert !Other(e.product)(e);
    } else {
      assert c[0] == cart[0] && c[1..] == cart[1..] + [e];
      forall i | 0 <= i < |cart[1..]|
        ensures cart[1..][i].product != e.product
      {
        assert cart[1..][i] == cart[i + 1];
      }
      KeepAllBut(cart[1..], e);
      assert Other(e.product)(cart[0]);
      assert Filter(c, Other(e.product)) == [cart[0]] + Filter(c[1..], Other(e.product));
      assert cart == [cart[0]] + cart[1..];
    }
  }

  /** The position of the first listing with id `id`, or `|catalogue|`
      (`products.find`). */
  function ListingIndex(catalogue: seq<Listing>, id: ProductId): (k: nat)
    ensures k <= |catalogue|
    ensures forall j :: 0 <= j < k ==> catalogue[j].id != id
    ensures k < |catalogue| ==> catalogue[k].id == id
  {
    if catalogue == [] then 0
    else if catalogue[0].id == id then 0
    else 1 + ListingIndex(catalogue[1..], id)
  }

  /** The product `products.find(p => p._id === id)` returns. */
  function Find(catalogue: seq<Listing>, id: ProductId): (r: Option<Product>)
    ensures r.None? <==> forall j :: 0 <= j < |catalogue| ==> catalogue[j].id != id
    ensures r.Some? ==> exists k :: 0 <= k < |catalogue| && catalogue[k].id == id && r.value == catalogue[k].product
                                     && forall j :: 0 <= j < k ==> catalogue[j].id != id
  {
    var k := ListingIndex(catalogue, id);
    if k < |catalogue| then Some(catalogue[k].product) else None
  }

  /** One entry's contribution to the total: price times quantity, or 0
      when the product is not in the catalogue. */
  function LineTotal(e: Entry, catalogue: seq<Listing>): Cents {
    match Find(catalogue, e.product)
    case Some(p) => p.price * e.quantity
    case None => 0
  }

  /** No entry's product is in the catalogue. */
  predicate NoneListed(cart: seq<Entry>, catalogue: seq<Listing>) {
    forall i :: 0 <= i < |cart| ==> Find(catalogue, cart[i].product).None?
  }

  /** Every entry asks for zero or more units. */
  predicate NonNegativeQuantities(cart: seq<Entry>) {
    forall i :: 0 <= i < |cart| ==> cart[i].quantity >= 0
  }

  /** Every listed product has a price of zero or more. */
  predicate NonNegativePrices(catalogue: seq<Listing>) {
    forall k :: 0 <= k < |catalogue| ==> catalogue[k].product.price >= 0
  }

  /** `getCartTotal`: the sum of the entries' contributions. A cart of
      non-negative quantities over a catalogue of non-negative prices never
      totals below zero. */
  function CartTotal(cart: seq<Entry>, catalogue: seq<Listing>): (r: Cents)
    ensures NonNegativeQuantities(cart) && NonNegativePrices(catalogue) ==> r >= 0
  {
    if cart == [] then 0 else LineTotal(cart[0], catalogue) + CartTotal(cart[1..], catalogue)
  }

  /** Entries whose product is not in the catalogue add nothing: a cart
      none of whose products is listed totals zero, whatever the
      quantities. */
  lemma {:induction false} UnlistedCartTotalsZero(cart: seq<Entry>, catalogue: seq<Listing>)
    requires NoneListed(cart, catalogue)
    ensures CartTotal(cart, catalogue) == 0
    decreases |cart|
  {
    if cart != [] {
      assert Find(catalogue, cart[0].product).None?;
      assert NoneListed(cart[1..], catalogue) by {
        forall i | 0 <= i < |cart[1..]|
          ensures Find(catalogue, cart[1..][i].product).None?
        {
          assert cart[1..][i] == cart[i + 1];
        }
      }
      UnlistedCartTotalsZero(cart[1..], catalogue);
    }
  }

  /** The total of two carts put together is the sum of their totals. */
  lemma {:induction false} CartTotalAppend(a: seq<Entry>, b: seq<Entry>, catalogue: seq<Listing>)
    ensures CartTotal(a + b, catalogue) == CartTotal(a, catalogue) + CartTotal(b, catalogue)
    decreases |a|
  {
    if a == [] {
      assert a + b == b;
    } else {
      assert (a + b)[1..] == a[1..] + b;
      CartTotalAppend(a[1..], b, catalogue);
    }
  }

  /** A cart with distinct ids that starts with `id` has no other entry
      for it. */
  lemma HeadIdNotInTail(cart: seq<Entry>, id: ProductId)
    requires DistinctIds(cart)
    requires cart != [] && cart[0].product == id
    ensures !InCart(cart[1..], id)
  {
    forall i | 0 <= i < |cart[1..]|
      ensures cart[1..][i].product != id
    {
      assert cart[1..][i] == cart[i + 1];
    }
  }

  /** An id other than the first entry's is in the cart exactly when it is
      in the rest of it. */
  lemma InCartTail(cart: seq<Entry>, id: ProductId)
    requires cart != [] && cart[0].product != id
    ensures InCart(cart, id) <==> InCart(cart[1..], id)
  {
    if InCart(cart, id) {
      var i :| 0 <= i < |cart| && cart[i].product == id;
      assert cart[1..][i - 1] == cart[i];
    }
    if InCart(cart[1..], id) {
      var i :| 0 <= i < |cart[1..]| && cart[1..][i].product == id;
      assert cart[i + 1] == cart[1..][i];
    }
  }

  /** Raising an entry's quantity by `q` raises its contribution by the
      value of `q` units. */
  lemma LineTotalAdd(e: Entry, q: int, catalogue: seq<Listing>)
    ensures LineTotal(e.(quantity := e.quantity + q), catalogue) == LineTotal(e, catalogue) + LineTotal(Entry(e.product, q), catalogue)
  {
    match Find(catalogue, e.product)
    case Some(p) =>
      assert p.price * (e.quantity + q) == p.price * e.quantity + p.price * q;
    case None =>
  }

  /** Adding `q` to the entries for `id` raises the total by `q` units of
      that product for each such entry; a cart with distinct ids has at
      most one. */
  lemma {:induction false} AddQuantityTotal(cart: seq<Entry>, id: ProductId, q: int, catalogue: seq<Listing>)
    requires DistinctIds(cart)
    ensures CartTotal(AddQuantity(cart, id, q), catalogue) ==
      CartTotal(cart, catalogue) + (if InCart(cart, id) then LineTotal(Entry(id, q), catalogue) else 0)
    decreases |cart|
  {
    if cart != [] {
      var r := AddQuantity(cart, id, q);
      assert r[1..] == AddQuantity(cart[1..], id, q);
      AddQuantityTotal(cart[1..], id, q, catalogue);
      assert CartTotal(r, catalogue) == LineTotal(r[0], catalogue) + CartTotal(r[1..], catalogue);
      if cart[0].product == id {
        HeadIdNotInTail(cart, id);
        LineTotalAdd(cart[0], q, catalogue);
      } else {
        assert r[0] == cart[0];
        InCartTail(cart, id);
      }
    }
  }

  /** On a cart with distinct ids, `addToCart` raises the total by the
      value of the added quantity, whether or not the product was already
      in the cart. */
  lemma AddToCartRaisesTotal(cart: seq<Entry>, id: ProductId, q: int, catalogue: seq<Listing>)
    requires DistinctIds(cart)
    ensures CartTotal(AddToCart(cart, id, q), catalogue) == CartTotal(cart, catalogue) + LineTotal(Entry(id, q), catalogue)
  {
    if InCart(cart, id) {
      AddQuantityTotal(cart, id, q, catalogue);
    } else {
      CartTotalAppend(cart, [Entry(id, q)], catalogue);
      assert [Entry(id, q)][1..] == [];
    }
  }

  /** Entries for products missing from the catalogue add nothing to the
      total, so removing them leaves the total as it was. */
  lemma {:induction false} RemoveUnknownKeepsTotal(cart: seq<Entry>, id: ProductId, catalogue: seq<Listing>)
    requires Find(catalogue, id).None?
    ensures CartTotal(RemoveFromCart(cart, id), catalogue) == CartTotal(cart, catalogue)
    decreases |cart|
  {
    if cart != [] {
      var rest := Filter(cart[1..], Other(id));
      RemoveUnknownKeepsTotal(cart[1..], id, catalogue);
      if cart[0].product != id {
        assert Filter(cart, Other(id)) == [cart[0]] + rest;
        assert ([cart[0]] + rest)[1..] == rest;
      }
    }
  }

  /** The order lines `placeOrder` builds from the cart, one per entry in
      cart order with the entry's id and quantity and the catalogue price;
      `None` when some entry's product is missing from the catalogue (the
      price lookup throws and no request is sent). */
  function OrderLines(cart: seq<Entry>, catalogue: seq<Listing>): (r: Option<seq<Item>>)
    ensures r.Some? <==> forall i :: 0 <= i < |cart| ==> Find(catalogue, cart[i].product).Some?
    ensures r.Some? ==>
      && |r.value| == |cart|
      && forall i :: 0 <= i < |cart| ==>
           && r.value[i].product == cart[i].product
           && r.value[i].quantity == cart[i].quantity
           && r.value[i].price == Some(Find(catalogue, cart[i].product).value.price)
    decreases |cart|
  {
    if cart == [] then Some([])
    else
      match Find(catalogue, cart[0].product)
      case None => None
      case Some(p) =>
        match OrderLines(cart[1..], catalogue)
        case None =>
          assert !(forall i :: 0 <= i < |cart| ==> Find(catalogue, cart[i].product).Some?) by {
            var j :| 0 <= j < |cart[1..]| && Find(catalogue, cart[1..][j].product).None?;
            assert cart[j + 1] == cart[1..][j];
          }
          None
        case Some(rest) =>
          var r := [Item(cart[0].product, cart[0].quantity, Some(p.price))] + rest;
          assert forall i :: 0 < i < |cart| ==> r[i] == rest[i - 1] && cart[i] == cart[1..][i - 1];
          Some(r)
  }

  /** What checkout leaves: the lines sent (none when building them
      failed), the cart afterwards, and whether the order was placed. */
  datatype CheckoutOutcome = CheckoutOutcome(sent: Option<seq<Item>>, cart: seq<Entry>, placed: bool)

  /** The storefront's `placeOrder`: builds the lines, sends them, and
      empties the cart only when the backend answers with success
      (`accepted`); on any failure the cart is kept. */
  function Checkout(cart: seq<Entry>, catalogue: seq<Listing>, accepted: bool): (r: CheckoutOutcome)
    ensures r.sent.Some? <==> forall i :: 0 <= i < |cart| ==> Find(catalogue, cart[i].product).Some?
    ensures r.sent == OrderLines(cart, catalogue)
    ensures r.sent.Some? ==> |r.sent.value| == |cart|
    ensures r.placed <==> r.sent.Some? && accepted
    ensures r.placed ==> r.cart == []
    ensures !r.placed ==> r.cart == cart
  {
    match OrderLines(cart, catalogue)
    case None => CheckoutOutcome(None, cart, false)
    case Some(lines) => CheckoutOutcome(Some(lines), if accepted then [] else cart, accepted)
  }

  /** A cart with distinct ids turns into order lines naming distinct
      products, the case in which placing the order cannot oversell. */
  lemma CheckoutLinesDistinct(cart: seq<Entry>, catalogue: seq<Listing>)
    requires DistinctIds(cart)
    requires OrderLines(cart, catalogue).Some?
    ensures Orders.DistinctProducts(OrderLines(cart, catalogue).value)
  {
  }

  /** When the backend's prices are the catalogue's, the total the backend
      charges for the checkout lines is the cart total the storefront
      showed. */
  lemma {:induction false} CheckoutTotalMatchesCart(cart: seq<Entry>, catalogue: seq<Listing>, products: map<ProductId, Product>)
    requires OrderLines(cart, catalogue).Some?
    requires forall i :: 0 <= i < |cart| ==>
      cart[i].product in products && products[cart[i].product].price == Find(catalogue, cart[i].product).value.price
    ensures Orders.OrderValue(OrderLines(cart, catalogue).value, products) == CartTotal(cart, catalogue)
    decreases |cart|
  {
    if cart != [] {
      var lines := OrderLines(cart, catalogue).value;
      assert forall i :: 0 < i < |cart| ==> cart[1..][i - 1] == cart[i];
      CheckoutTotalMatchesCart(cart[1..], catalogue, products);
      assert lines[1..] == OrderLines(cart[1..], catalogue).value;
    }
  }
}
